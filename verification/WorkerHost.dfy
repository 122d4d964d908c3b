/** The synchronous host: one event, one blocking round trip, one authorized response. */
module WorkerHosting {
  import opened Wrappers
  import opened Messages
  import opened Broker
  import opened Worker
  import opened Bridge

  /** How a process ended: with a code of its own, or by a signal. */
  datatype ExitStatus = Code(code: int) | Signal(signal: int)

  /** What the operating system says of a worker whose channel broke. */
  datatype Fate = Ended(status: ExitStatus) | StillRunning | Unreadable

  /** A broken channel, found when sending the event or when receiving the reply. */
  datatype Fault = Fault(sending: bool, fate: Fate)

  /** Why a tab's worker is no longer usable. */
  datatype TabCrash =
    | CleanExit
    | SandboxViolation(status: ExitStatus)
    | Crashed(status: ExitStatus)
    | Protocol(reason: string)

  /** SIGSYS, which the system call filter raises, and SIGKILL. */
  predicate IsSandboxKill(status: ExitStatus) {
    status == Signal(31) || status == Signal(9)
  }

  function ClassifyFailure(fate: Fate): TabCrash {
    match fate
    case Ended(status) =>
      if status == Code(0) then CleanExit
      else if IsSandboxKill(status) then SandboxViolation(status)
      else Crashed(status)
    case StillRunning => Protocol("worker channel failed")
    case Unreadable => Protocol("worker channel failed, and its status was unreadable")
  }

  datatype AuthorizedResponse = AuthorizedResponse(response: WorkerResponse, authorizedActions: seq<RuntimeAction>,
                                                   rejected: seq<MizuError>)

  type Outcome = Result<Option<AuthorizedResponse>, TabCrash>

  /** What the host makes of the frame that answers an event. */
  function Dispatched(host: Host, scope: Scope, event: UiEvent, frame: Envelope): Outcome {
    match frame
    case NoOp => Ok(None)
    case Failure(e) => Ok(Some(AuthorizedResponse(WorkerResponse([], [], false), [], [ExecutionError(e)])))
    case Hello(_) => Err(Protocol("worker replayed the Hello handshake frame mid-session"))
    case Response(wire) =>
      match host.rehydrate(wire)
      case Err(e) => Err(Protocol(e))
      case Ok(response) =>
        Ok(Some(AuthorizedResponse(response,
                                   Approved(host.resolve, response.runtimeActions, scope, EventAgency.Of(event)),
                                   Refused(host.resolve, response.runtimeActions, scope, EventAgency.Of(event)))))
  }

  /**
   * The same said of the frame: nothing for a `NoOp`, an error without actions or variables for a
   * failure, a protocol violation for a second handshake or an undecodable reply, and otherwise the
   * reply as it is with its requests granted and refused in order.
   */
  ghost predicate Reports(host: Host, scope: Scope, event: UiEvent, frame: Envelope, outcome: Outcome) {
    match frame
    case NoOp => outcome == Ok(None)
    case Hello(_) => outcome.Err? && outcome.error.Protocol?
    case Failure(detail) =>
      && outcome.Ok? && outcome.value.Some?
      && outcome.value.value.response == WorkerResponse([], [], false)
      && outcome.value.value.authorizedActions == [] && outcome.value.value.rejected == [ExecutionError(detail)]
    case Response(wire) =>
      match host.rehydrate(wire)
      case Err(reason) => outcome == Err(Protocol(reason))
      case Ok(reply) =>
        && outcome.Ok? && outcome.value.Some? && outcome.value.value.response == reply
        && GrantedInOrder(host.resolve, reply.runtimeActions, outcome.value.value.authorizedActions, scope,
            AgencyOf(event))
        && RefusedInOrder(host.resolve, reply.runtimeActions, outcome.value.value.rejected, scope, AgencyOf(event))
  }

  lemma DispatchIsExact(host: Host, scope: Scope, event: UiEvent, frame: Envelope)
    ensures Reports(host, scope, event, frame, Dispatched(host, scope, event, frame))
  {
    if frame.Response? && host.rehydrate(frame.wire).Ok? {
      var requests := host.rehydrate(frame.wire).value.runtimeActions;
      ApprovedAreGrants(host.resolve, requests, scope, EventAgency.Of(event));
      RefusedAreRefusals(host.resolve, requests, scope, EventAgency.Of(event));
    }
  }

  /** Which exit is which: zero is clean, signals 31 and 9 are the sandbox, everything else a crash. */
  lemma ClassificationIsExact(fate: Fate)
    ensures ClassifyFailure(fate) == CleanExit <==> fate == Ended(Code(0))
    ensures ClassifyFailure(fate).SandboxViolation? <==> fate == Ended(Signal(31)) || fate == Ended(Signal(9))
    ensures ClassifyFailure(fate).Protocol? <==> !fate.Ended?
    ensures match ClassifyFailure(fate)
            case SandboxViolation(status) => fate == Ended(status)
            case Crashed(status) => fate == Ended(status)
            case _ => true
  {
  }

  /** A host with its worker process, whose session lives behind the channel. */
  class WorkerHost<!S> {
    const host: Host
    const code: WorkerCode<S>
    const urlRegistry: UrlRegistry
    const documentDomain: string
    var session: S

    constructor (host: Host, code: WorkerCode<S>, urlRegistry: UrlRegistry, documentDomain: string)
      ensures this.host == host && this.code == code
      ensures this.urlRegistry == urlRegistry && this.documentDomain == documentDomain
      ensures session == code.initial
    {
      this.host, this.code, this.urlRegistry, this.documentDomain := host, code, urlRegistry, documentDomain;
      session := code.initial;
    }

    /** One round trip. A fault in sending is met before anything else, `CloseTab` before any reply. */
    method DispatchEvent(event: UiEvent, fault: Option<Fault>) returns (outcome: Outcome)
      modifies this
      ensures fault.Some? && (fault.value.sending || !event.CloseTab?) ==>
        outcome == Err(ClassifyFailure(fault.value.fate))
      ensures event.CloseTab? && (fault.None? || !fault.value.sending) ==> outcome == Ok(None)
      ensures fault.Some? || event.CloseTab? ==> session == old(session)
      ensures fault.None? && !event.CloseTab? ==>
        && session == Answer(code, old(session), event).0
        && outcome == Dispatched(host, Scope(urlRegistry, documentDomain), event, Answer(code, old(session), event).1)
    {
      if fault.Some? && fault.value.sending {
        return Err(ClassifyFailure(fault.value.fate));
      }
      if event.CloseTab? {
        return Ok(None);
      }
      if fault.Some? {
        return Err(ClassifyFailure(fault.value.fate));
      }
      var (after, frame) := Answer(code, session, event);
      session := after;
      match frame
      case NoOp => return Ok(None);
      case Failure(e) => return Ok(Some(AuthorizedResponse(WorkerResponse([], [], false), [], [ExecutionError(e)])));
      case Hello(_) => return Err(Protocol("worker replayed the Hello handshake frame mid-session"));
      case Response(wire) =>
        var decoded := host.rehydrate(wire);
        if decoded.Err? {
          return Err(Protocol(decoded.error));
        }
        var approved, rejected := Judge(decoded.value.runtimeActions, EventAgency.Of(event));
        return Ok(Some(AuthorizedResponse(decoded.value, approved, rejected)));
    }

    /** A freshly started host given event after event, up to the first `CloseTab`: what it makes of each. */
    method DispatchAll(events: seq<UiEvent>) returns (outcomes: seq<Outcome>)
      requires session == code.initial
      modifies this
      ensures session == SessionAfter(code, events[..Served(events)])
      ensures |outcomes| == Served(events)
      ensures forall k | 0 <= k < |outcomes| ::
        outcomes[k] == Dispatched(host, Scope(urlRegistry, documentDomain), events[k], ReplyTo(code, events, k))
    {
      var n := Served(events);
      NoneCloses(events);
      outcomes := [];
      for k := 0 to n
        invariant session == SessionAfter(code, events[..k])
        invariant ReportedSoFar(host, code, Scope(urlRegistry, documentDomain), events, outcomes, k)
      {
        assert events[..k + 1][..k] == events[..k];
        var outcome := DispatchEvent(events[k], None);
        outcomes := outcomes + [outcome];
      }
    }

    /** The host's loop over the actions of a reply. */
    method Judge(actions: seq<RuntimeAction>, agency: EventAgency)
      returns (approved: seq<RuntimeAction>, rejected: seq<MizuError>)
      ensures approved == Approved(host.resolve, actions, Scope(urlRegistry, documentDomain), agency)
      ensures rejected == Refused(host.resolve, actions, Scope(urlRegistry, documentDomain), agency)
      ensures GrantedInOrder(host.resolve, actions, approved, Scope(urlRegistry, documentDomain), agency)
      ensures RefusedInOrder(host.resolve, actions, rejected, Scope(urlRegistry, documentDomain), agency)
    {
      approved, rejected := [], [];
      var scope := Scope(urlRegistry, documentDomain);
      for i := 0 to |actions|
        invariant approved == Approved(host.resolve, actions[..i], scope, agency)
        invariant rejected == Refused(host.resolve, actions[..i], scope, agency)
      {
        assert actions[..i + 1][..i] == actions[..i];
        match AuthorizeAction(host.resolve, actions[i], SandboxedIpcWorker, scope, agency)
        case Ok(a) => approved := approved + [a];
        case Err(e) => rejected := rejected + [e];
      }
      assert actions[..|actions|] == actions;
      ApprovedAreGrants(host.resolve, actions, scope, agency);
      RefusedAreRefusals(host.resolve, actions, scope, agency);
    }
  }

  /** The outcomes for the first k events. */
  ghost predicate ReportedSoFar<S>(
    host: Host, code: WorkerCode<S>, scope: Scope, events: seq<UiEvent>, outcomes: seq<Outcome>, k: nat)
  {
    && k <= |events| && |outcomes| == k
    && forall j | 0 <= j < k :: outcomes[j] == Dispatched(host, scope, events[j], ReplyTo(code, events, j))
  }

  lemma NoneCloses(events: seq<UiEvent>)
    ensures forall k | 0 <= k < Served(events) :: !events[k].CloseTab?
  {
    forall k | 0 <= k < Served(events) ensures !events[k].CloseTab? {
      assert events[k] in events[..Served(events)];
    }
  }

  /** The action list a synchronous host hands out for event k; nothing when the worker had nothing to say. */
  function SyncApproval<S>(
    host: Host, code: WorkerCode<S>, scope: Scope, events: seq<UiEvent>, k: nat): Option<seq<RuntimeAction>>
    requires k < |events|
  {
    match Dispatched(host, scope, events[k], ReplyTo(code, events, k))
    case Ok(None) => None
    case Ok(Some(authorized)) => Some(authorized.authorizedActions)
    case Err(_) => Some([])
  }

  /** The action lists it hands out for the events from lo up to hi, in order. */
  function SyncApprovals<S>(
    host: Host, code: WorkerCode<S>, scope: Scope, events: seq<UiEvent>, lo: nat, hi: nat): seq<seq<RuntimeAction>>
    requires lo <= hi <= |events|
  {
    if lo == hi then [] else
    var before := SyncApprovals(host, code, scope, events, lo, hi - 1);
    match SyncApproval(host, code, scope, events, hi - 1)
    case None => before
    case Some(actions) => before + [actions]
  }
}
