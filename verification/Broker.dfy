/** The capability broker: what an untrusted worker's action turns into before it may be executed. */
module Broker {
  import opened Wrappers
  import opened Messages
  import opened Selections

  datatype EventAgency = UserGesture | DocumentDriven {
    /** The agency of an event is decided by its variant alone. */
    static function Of(event: UiEvent): EventAgency {
      match event
      case Click(_) => UserGesture
      case SubmitForm(_, _) => UserGesture
      case RootTimer(_) => DocumentDriven
      case UpdateVariable(_, _) => DocumentDriven
      case Reload(_) => DocumentDriven
      case CloseTab => DocumentDriven
    }
  }

  /** A click or a form submission is a gesture, and nothing else is. */
  function AgencyOf(event: UiEvent): (a: EventAgency)
    ensures a == EventAgency.Of(event)
  {
    if event.Click? || event.SubmitForm? then UserGesture else DocumentDriven
  }

  datatype ActionOrigin = TrustedThread | SandboxedIpcWorker

  /** Composes an endpoint's URL from the document's domain, the endpoint and an optional path parameter. */
  type Resolver = (string, UrlEndpoint, Option<string>) -> Result<string, MizuError>

  /** The document a reply is judged against: its endpoint table and its domain. */
  datatype Scope = Scope(registry: UrlRegistry, domain: string)

  function LookupEndpoint(registry: UrlRegistry, alias: Symbol): Result<UrlEndpoint, MizuError> {
    if alias in registry then Ok(registry[alias]) else Err(SecurityViolation(UnknownAlias(alias)))
  }

  function AuthorizeAction(resolve: Resolver, action: RuntimeAction, origin: ActionOrigin,
                           scope: Scope, agency: EventAgency): Result<RuntimeAction, MizuError>
  {
    if origin.TrustedThread? then Ok(action) else
    match action
    case ResolvedCall(_, url, _, _, _, _) => Err(SecurityViolation(PreResolvedCall(url)))
    case DownloadMedia(url) => Err(SecurityViolation(PreResolvedDownload(url)))
    case NetworkCall(verb, alias, payload, pathParam, target, format, headers) =>
      (match LookupEndpoint(scope.registry, alias)
       case Err(e) => Err(e)
       case Ok(endpoint) =>
         match resolve(scope.domain, endpoint, pathParam)
         case Err(e) => Err(e)
         case Ok(url) => Ok(ResolvedCall(verb.AsStr(), url, payload, target, format, headers)))
    case DownloadAlias(alias) =>
      (match LookupEndpoint(scope.registry, alias)
       case Err(e) => Err(e)
       case Ok(endpoint) => Ok(DownloadMedia(endpoint.rawTarget)))
    case Navigate(url) =>
      if agency.UserGesture? then Ok(action) else Err(SecurityViolation(NavigateWithoutGesture(url)))
    case _ => Ok(action)
  }

  /**
   * What the broker may ever hand on for a sandboxed worker, said without naming the request:
   * a call or a download only to an endpoint the document declared, a navigation only on a
   * gesture, and never an alias left for somebody else to resolve.
   */
  ghost predicate MayExecute(resolve: Resolver, action: RuntimeAction, scope: Scope, agency: EventAgency) {
    match action
    case ResolvedCall(_, url, _, _, _, _) =>
      exists alias, param ::
        alias in scope.registry && resolve(scope.domain, scope.registry[alias], param) == Ok(url)
    case DownloadMedia(url) => exists alias :: alias in scope.registry && scope.registry[alias].rawTarget == url
    case Navigate(_) => agency.UserGesture?
    case NetworkCall(_, _, _, _, _, _, _) => false
    case DownloadAlias(_) => false
    case _ => true
  }

  /** Every approved action of a sandboxed worker is one the broker may execute. */
  lemma AuthorizedMayExecute(resolve: Resolver, action: RuntimeAction, scope: Scope, agency: EventAgency)
    ensures var r := AuthorizeAction(resolve, action, SandboxedIpcWorker, scope, agency);
            r.Ok? ==> MayExecute(resolve, r.value, scope, agency)
  {
    if action.NetworkCall? && action.endpointSymbol in scope.registry {
      var endpoint := scope.registry[action.endpointSymbol];
      assert resolve(scope.domain, scope.registry[action.endpointSymbol], action.pathParam)
          == resolve(scope.domain, endpoint, action.pathParam);
    }
    if action.DownloadAlias? && action.endpointSymbol in scope.registry {
      assert scope.registry[action.endpointSymbol].rawTarget == scope.registry[action.endpointSymbol].rawTarget;
    }
  }

  // ---- Exactly what is granted and refused ----

  /** The method names, letter by letter. */
  predicate IsNameOf(name: string, verb: NetworkMethod) {
    match verb
    case Get => name == "GET"
    case Post => name == "POST"
    case Put => name == "PUT"
    case Delete => name == "DELETE"
    case Query => name == "QUERY"
  }

  /**
   * What a request is granted as: a call to its own alias with its own parameter, and with its
   * payload, target, format and headers; a download of its own alias; anything else as it stands.
   */
  ghost predicate Grants(
    resolve: Resolver, request: RuntimeAction, granted: RuntimeAction, scope: Scope, agency: EventAgency) {
    match request
    case NetworkCall(verb, alias, payload, pathParam, target, format, headers) =>
      && granted.ResolvedCall? && IsNameOf(granted.methodName, verb)
      && alias in scope.registry && resolve(scope.domain, scope.registry[alias], pathParam) == Ok(granted.url)
      && granted.payload == payload && granted.targetVariable == target
      && granted.format == format && granted.headers == headers
    case DownloadAlias(alias) =>
      granted.DownloadMedia? && alias in scope.registry && granted.url == scope.registry[alias].rawTarget
    case ResolvedCall(_, _, _, _, _, _) => false
    case DownloadMedia(_) => false
    case Navigate(_) => agency.UserGesture? && granted == request
    case _ => granted == request
  }

  /** What a request is refused for. */
  ghost predicate Refuses(
    resolve: Resolver, request: RuntimeAction, error: MizuError, scope: Scope, agency: EventAgency) {
    match request
    case NetworkCall(_, alias, _, pathParam, _, _, _) =>
      if alias in scope.registry then resolve(scope.domain, scope.registry[alias], pathParam) == Err(error)
      else error == SecurityViolation(UnknownAlias(alias))
    case DownloadAlias(alias) => alias !in scope.registry && error == SecurityViolation(UnknownAlias(alias))
    case ResolvedCall(_, url, _, _, _, _) => error == SecurityViolation(PreResolvedCall(url))
    case DownloadMedia(url) => error == SecurityViolation(PreResolvedDownload(url))
    case Navigate(url) => agency.DocumentDriven? && error == SecurityViolation(NavigateWithoutGesture(url))
    case _ => false
  }

  /** A request is refused exactly when it is forged, its alias is undeclared or unresolvable, or it lacks a gesture. */
  ghost predicate IsRefused(resolve: Resolver, request: RuntimeAction, scope: Scope, agency: EventAgency) {
    match request
    case NetworkCall(_, alias, _, pathParam, _, _, _) =>
      alias !in scope.registry || resolve(scope.domain, scope.registry[alias], pathParam).Err?
    case DownloadAlias(alias) => alias !in scope.registry
    case ResolvedCall(_, _, _, _, _, _) => true
    case DownloadMedia(_) => true
    case Navigate(_) => agency.DocumentDriven?
    case _ => false
  }

  /** One request. */
  lemma AuthorizationIsExact(resolve: Resolver, request: RuntimeAction, scope: Scope, agency: EventAgency)
    ensures var r := AuthorizeAction(resolve, request, SandboxedIpcWorker, scope, agency);
            && (r.Err? <==> IsRefused(resolve, request, scope, agency))
            && (r.Ok? ==> Grants(resolve, request, r.value, scope, agency))
            && (r.Err? ==> Refuses(resolve, request, r.error, scope, agency))
  {
  }

  /** A request that is trusted passes as it stands. */
  lemma TrustedActionsPass(resolve: Resolver, request: RuntimeAction, scope: Scope, agency: EventAgency)
    ensures AuthorizeAction(resolve, request, TrustedThread, scope, agency) == Ok(request)
  {
  }

  /** The grants of a reply: one for each request that is not refused, in the order of the requests. */
  ghost predicate GrantedInOrder(
    resolve: Resolver, requests: seq<RuntimeAction>, granted: seq<RuntimeAction>, scope: Scope, agency: EventAgency)
  {
    Selects(requests, granted, r => !IsRefused(resolve, r, scope, agency),
        (r, g) => Grants(resolve, r, g, scope, agency))
  }

  /** The refusals of a reply, likewise. */
  ghost predicate RefusedInOrder(
    resolve: Resolver, requests: seq<RuntimeAction>, errors: seq<MizuError>, scope: Scope, agency: EventAgency)
  {
    Selects(requests, errors, r => IsRefused(resolve, r, scope, agency),
        (r, e) => Refuses(resolve, r, e, scope, agency))
  }

  /** The approved actions of a reply, in order. */
  function Approved(
    resolve: Resolver, actions: seq<RuntimeAction>, scope: Scope, agency: EventAgency): seq<RuntimeAction> {
    if actions == [] then [] else
    var last := |actions| - 1;
    var before := Approved(resolve, actions[..last], scope, agency);
    match AuthorizeAction(resolve, actions[last], SandboxedIpcWorker, scope, agency)
    case Ok(a) => before + [a]
    case Err(_) => before
  }

  /** The reasons for the refused ones, in order. */
  function Refused(resolve: Resolver, actions: seq<RuntimeAction>, scope: Scope, agency: EventAgency): seq<MizuError> {
    if actions == [] then [] else
    var last := |actions| - 1;
    var before := Refused(resolve, actions[..last], scope, agency);
    match AuthorizeAction(resolve, actions[last], SandboxedIpcWorker, scope, agency)
    case Ok(_) => before
    case Err(e) => before + [e]
  }

  /** Every action a worker asks for is either approved or refused, and what is approved may be executed. */
  lemma {:induction false} ApprovedMayExecute(
    resolve: Resolver, actions: seq<RuntimeAction>, scope: Scope, agency: EventAgency)
    ensures forall a <- Approved(resolve, actions, scope, agency) :: MayExecute(resolve, a, scope, agency)
    ensures |Approved(resolve, actions, scope, agency)| + |Refused(resolve, actions, scope, agency)| == |actions|
  {
    if actions != [] {
      var last := |actions| - 1;
      ApprovedMayExecute(resolve, actions[..last], scope, agency);
      AuthorizedMayExecute(resolve, actions[last], scope, agency);
    }
  }

  /** The approved actions of a reply are its grants, each request's own, in the order of the requests. */
  lemma {:induction false} ApprovedAreGrants(
    resolve: Resolver, requests: seq<RuntimeAction>, scope: Scope, agency: EventAgency)
    ensures GrantedInOrder(resolve, requests, Approved(resolve, requests, scope, agency), scope, agency)
  {
    if requests != [] {
      var init, last := requests[..|requests| - 1], requests[|requests| - 1];
      assert requests == init + [last];
      ApprovedAreGrants(resolve, init, scope, agency);
      AuthorizationIsExact(resolve, last, scope, agency);
      var before := Approved(resolve, init, scope, agency);
      var keeps := r => !IsRefused(resolve, r, scope, agency);
      var becomes := (r, g) => Grants(resolve, r, g, scope, agency);
      match AuthorizeAction(resolve, last, SandboxedIpcWorker, scope, agency)
      case Ok(granted) => OneKept(init, before, keeps, becomes, last, granted);
      case Err(_) => OneDropped(init, before, keeps, becomes, last);
    }
  }

  lemma {:induction false} RefusedAreRefusals(
    resolve: Resolver, requests: seq<RuntimeAction>, scope: Scope, agency: EventAgency)
    ensures RefusedInOrder(resolve, requests, Refused(resolve, requests, scope, agency), scope, agency)
  {
    if requests != [] {
      var init, last := requests[..|requests| - 1], requests[|requests| - 1];
      assert requests == init + [last];
      RefusedAreRefusals(resolve, init, scope, agency);
      AuthorizationIsExact(resolve, last, scope, agency);
      var before := Refused(resolve, init, scope, agency);
      var keeps := r => IsRefused(resolve, r, scope, agency);
      var becomes := (r, e) => Refuses(resolve, r, e, scope, agency);
      match AuthorizeAction(resolve, last, SandboxedIpcWorker, scope, agency)
      case Ok(_) => OneDropped(init, before, keeps, becomes, last);
      case Err(error) => OneKept(init, before, keeps, becomes, last, error);
    }
  }

  /** A worker that only asks for what needs no sanction gets exactly what it asked for. */
  lemma {:induction false} HarmlessActionsPass(
    resolve: Resolver, actions: seq<RuntimeAction>, scope: Scope, agency: EventAgency)
    requires forall a <- actions ::
      a.NoAction? || a.StoreLocal? || a.CopyToClipboard? || a.GetSystemTime? || (a.Navigate? && agency.UserGesture?)
    ensures Approved(resolve, actions, scope, agency) == actions
  {
    if actions != [] {
      var last := |actions| - 1;
      assert actions == actions[..last] + [actions[last]];
      assert actions[last] in actions;
      assert AuthorizeAction(resolve, actions[last], SandboxedIpcWorker, scope, agency) == Ok(actions[last]);
      HarmlessActionsPass(resolve, actions[..last], scope, agency);
    }
  }

  /** The bridge's loop over the actions of a reply. */
  method AuthorizeAll(resolve: Resolver, response: WorkerResponse, agency: EventAgency, scope: Scope)
    returns (approved: seq<RuntimeAction>)
    ensures approved == Approved(resolve, response.runtimeActions, scope, agency)
    ensures forall a <- approved :: MayExecute(resolve, a, scope, agency)
    ensures GrantedInOrder(resolve, response.runtimeActions, approved, scope, agency)
  {
    var actions := response.runtimeActions;
    approved := [];
    for i := 0 to |actions|
      invariant approved == Approved(resolve, actions[..i], scope, agency)
    {
      assert actions[..i + 1][..i] == actions[..i];
      match AuthorizeAction(resolve, actions[i], SandboxedIpcWorker, scope, agency)
      case Ok(a) => approved := approved + [a];
      case Err(_) =>
    }
    assert actions[..|actions|] == actions;
    ApprovedMayExecute(resolve, actions, scope, agency);
    ApprovedAreGrants(resolve, actions, scope, agency);
  }
}
