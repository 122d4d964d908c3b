/**
 * The asynchronous bridge between the UI thread and the worker processes, as a system of atomic
 * steps: the router thread, one worker and one reader thread per incarnation, and the channels
 * between them.
 */
module Bridge {
  import opened Wrappers
  import opened Messages
  import opened Broker
  import opened Worker

  /** What the broker's side computes with: endpoint resolution and response decoding. */
  datatype Host = Host(resolve: Resolver, rehydrate: WireResponse -> Result<WorkerResponse, string>)

  // ---- The policy shared by the router and one reader ----

  /** The state under the mutex of a `TabPolicy`: agencies of unanswered events, oldest first, and the scope. */
  datatype Policy = Policy(pending: seq<EventAgency>, scope: Scope)

  const EMPTY_SCOPE := Scope(map[], "")

  /** The scope a reload installs; every other event keeps the old one. */
  function ScopeOn(scope: Scope, event: UiEvent): Scope {
    if event.Reload? then Scope(event.payload.urlRegistry, event.payload.documentDomain) else scope
  }

  /** The scope after a list of events has been recorded. */
  function ScopeAfter(events: seq<UiEvent>): Scope {
    if events == [] then EMPTY_SCOPE
    else ScopeOn(ScopeAfter(events[..|events| - 1]), events[|events| - 1])
  }

  function Recorded(policy: Policy, event: UiEvent): Policy {
    Policy(policy.pending + [EventAgency.Of(event)], ScopeOn(policy.scope, event))
  }

  /** The object both threads lock. */
  class TabPolicy {
    var pending: seq<EventAgency>
    var urlRegistry: UrlRegistry
    var documentDomain: string

    function View(): Policy
      reads this
    {
      Policy(pending, Scope(urlRegistry, documentDomain))
    }

    constructor ()
      ensures View() == Policy([], EMPTY_SCOPE)
    {
      pending, urlRegistry, documentDomain := [], map[], "";
    }

    /** The router's critical section. */
    method Record(event: UiEvent)
      modifies this
      ensures View() == Recorded(old(View()), event)
    {
      pending := pending + [EventAgency.Of(event)];
      if event.Reload? {
        urlRegistry := event.payload.urlRegistry;
        documentDomain := event.payload.documentDomain;
      }
    }

    /** The reader's critical section. */
    method Take() returns (agency: Option<EventAgency>, scope: Scope)
      modifies this
      ensures scope == old(View()).scope
      ensures old(pending) == [] ==> agency == None && View() == old(View())
      ensures old(pending) != [] ==>
        agency == Some(old(pending)[0]) && View() == old(View()).(pending := old(pending)[1..])
    {
      agency := None;
      if pending != [] {
        agency := Some(pending[0]);
        pending := pending[1..];
      }
      scope := Scope(urlRegistry, documentDomain);
    }
  }

  // ---- The system ----

  /**
   * A frame the reader consumed, with the agency and scope it took under the lock. `horizon` is a
   * history value: how many events had been recorded for the incarnation at that moment.
   */
  datatype Judged = Judged(frame: Envelope, agency: EventAgency, scope: Scope, horizon: nat)

  datatype Process<S> = Waiting(session: S) | Evaluating(session: S, event: UiEvent) | Exited

  /** Where a reader thread stands; `Judging` holds the last consumed frame. */
  datatype Reader = Receiving | Judging | Unsolicited | Stopped

  /**
   * One worker process with its channels, its policy and its reader. `recorded`, `consumed` and
   * `delivered` are history values that no step branches on: the events recorded in the policy,
   * the frames taken off the channel, and how many of those have been dealt with.
   */
  datatype Incarnation<S> = Incarnation(
    tab: TabId, policy: Policy, inbox: seq<UiEvent>, worker: Process<S>, outbox: seq<Envelope>, reader: Reader,
    recorded: seq<UiEvent>, consumed: seq<Judged>, delivered: nat)

  /** Where the router thread stands: between events, holding a worker, or between the push and the send. */
  datatype Router = Idle | Holding(inc: nat, event: UiEvent) | Sending(inc: nat, event: UiEvent)

  /** Which thread put an entry on the UI channel; a history value. */
  datatype Source = FromReader(inc: nat, frame: nat) | FromFailure

  datatype UiEntry = UiEntry(tab: TabId, message: Result<WorkerResponse, MizuError>, source: Source)

  datatype State<S> = State(incs: seq<Incarnation<S>>, live: map<TabId, nat>, router: Router, ui: seq<UiEntry>)

  datatype Step<S> =
    | DropTab(tab: TabId)
    | SpawnFails(tab: TabId)
    | Accept(tab: TabId, event: UiEvent)
    | Record
    | Send(delivered: bool)
    | WorkerTakes(i: nat)
    | WorkerAnswers(i: nat)
    | WorkerExits(i: nat)
    | WorkerActs(i: nat, worker: Process<S>, inbox: seq<UiEvent>, frames: seq<Envelope>)
    | ReaderTakes(i: nat)
    | ReaderDelivers(i: nat, managerAlive: bool)
    | ReaderEnds(i: nat, report: bool)

  function Start<S>(): State<S> {
    State([], map[], Idle, [])
  }

  function FreshIncarnation<S>(code: WorkerCode<S>, tab: TabId): Incarnation<S> {
    Incarnation(tab, Policy([], EMPTY_SCOPE), [], Waiting(code.initial), [], Receiving, [], [], 0)
  }

  /** What the reader hands to the UI for a judged frame; nothing for a `NoOp`. */
  function Message(host: Host, judged: Judged): Option<Result<WorkerResponse, MizuError>> {
    match judged.frame
    case NoOp => None
    case Failure(e) => Some(Err(ExecutionError(e)))
    case Hello(_) => Some(Err(IpcError("worker replayed the Hello handshake frame mid-session")))
    case Response(wire) =>
      match host.rehydrate(wire)
      case Err(e) => Some(Err(IpcError(e)))
      case Ok(response) =>
        Some(Ok(response.(runtimeActions := Approved(host.resolve, response.runtimeActions, judged.scope,
            judged.agency),
                          gesture := judged.agency.UserGesture?)))
  }

  /** A reader has taken a frame off its channel and not reported it yet. */
  predicate HasVerdict<S>(inc: Incarnation<S>) {
    inc.reader.Unsolicited? || (inc.reader.Judging? && inc.delivered < |inc.consumed|)
  }

  predicate Enabled<S>(s: State<S>, step: Step<S>) {
    match step
    case DropTab(_) => s.router.Idle?
    case SpawnFails(tab) => s.router.Idle? && tab !in s.live
    case Accept(tab, event) => s.router.Idle? && !event.CloseTab? && (tab in s.live ==> s.live[tab] < |s.incs|)
    case Record => s.router.Holding? && s.router.inc < |s.incs|
    case Send(_) => s.router.Sending? && s.router.inc < |s.incs|
    case WorkerTakes(i) => i < |s.incs| && s.incs[i].worker.Waiting? && s.incs[i].inbox != []
    case WorkerAnswers(i) => i < |s.incs| && s.incs[i].worker.Evaluating?
    case WorkerExits(i) => i < |s.incs|
    case WorkerActs(i, _, _, _) => i < |s.incs|
    case ReaderTakes(i) => i < |s.incs| && s.incs[i].reader.Receiving? && s.incs[i].outbox != []
    case ReaderDelivers(i, _) => i < |s.incs| && HasVerdict(s.incs[i])
    case ReaderEnds(i, _) => i < |s.incs| && s.incs[i].reader.Receiving?
  }

  /** The router's push: agency and scope under one lock. */
  function RecordIn<S>(inc: Incarnation<S>, event: UiEvent): Incarnation<S> {
    inc.(policy := Recorded(inc.policy, event), recorded := inc.recorded + [event])
  }

  /** The reader takes a frame and, under the lock, the agency and scope to judge it with. */
  function TakeFrame<S>(inc: Incarnation<S>): Incarnation<S>
    requires inc.outbox != []
  {
    var rest := inc.(outbox := inc.outbox[1..]);
    if inc.policy.pending == [] then rest.(reader := Unsolicited)
    else rest.(policy := inc.policy.(pending := inc.policy.pending[1..]),
               consumed := inc.consumed + [Judged(inc.outbox[0], inc.policy.pending[0], inc.policy.scope,
                   |inc.recorded|)],
               reader := Judging)
  }

  /** Incarnation i has dealt with one more frame. */
  function Advanced<S>(incs: seq<Incarnation<S>>, i: nat): seq<Incarnation<S>>
    requires i < |incs|
  {
    incs[i := incs[i].(reader := Receiving, delivered := incs[i].delivered + 1)]
  }

  /** What becomes of a judged frame: skipped, handed to the UI, or abandoned because the UI is gone. */
  function Settled<S>(
    s: State<S>, i: nat, message: Option<Result<WorkerResponse, MizuError>>, managerAlive: bool): State<S>
    requires i < |s.incs|
  {
    if message.None? then s.(incs := Advanced(s.incs, i))
    else if managerAlive then
      s.(incs := Advanced(s.incs, i),
          ui := s.ui + [UiEntry(s.incs[i].tab, message.value, FromReader(i, s.incs[i].delivered))])
    else s.(incs := s.incs[i := s.incs[i].(reader := Stopped)])
  }

  /** A reader thread returns, and tells the UI why if it can. */
  function Ended<S>(s: State<S>, i: nat, report: bool, reason: string): State<S>
    requires i < |s.incs|
  {
    s.(incs := s.incs[i := s.incs[i].(reader := Stopped)],
       ui := if report then s.ui + [UiEntry(s.incs[i].tab, Err(IpcError(reason)), FromFailure)] else s.ui)
  }

  function Apply<S>(host: Host, code: WorkerCode<S>, s: State<S>, step: Step<S>): State<S>
    requires Enabled(s, step)
  {
    match step
    case DropTab(tab) => s.(live := s.live - {tab})
    case SpawnFails(tab) => s.(ui := s.ui + [UiEntry(tab, Err(IpcError("failed to start worker")), FromFailure)])
    case Accept(tab, event) =>
      if tab in s.live then s.(router := Holding(s.live[tab], event))
      else s.(incs := s.incs + [FreshIncarnation(code, tab)], live := s.live[tab := |s.incs|],
              router := Holding(|s.incs|, event))
    case Record =>
      s.(incs := s.incs[s.router.inc := RecordIn(s.incs[s.router.inc], s.router.event)],
         router := Sending(s.router.inc, s.router.event))
    case Send(delivered) =>
      var inc := s.incs[s.router.inc];
      if delivered then
        s.(incs := s.incs[s.router.inc := inc.(inbox := inc.inbox + [s.router.event])], router := Idle)
      else
        s.(live := s.live - {inc.tab}, router := Idle,
           ui := s.ui + [UiEntry(inc.tab, Err(IpcError("send to worker failed")), FromFailure)])
    case WorkerTakes(i) =>
      var inc := s.incs[i];
      s.(incs := s.incs[i := inc.(worker := Evaluating(inc.worker.session, inc.inbox[0]), inbox := inc.inbox[1..])])
    case WorkerAnswers(i) =>
      var inc := s.incs[i];
      var (session, frame) := Answer(code, inc.worker.session, inc.worker.event);
      s.(incs := s.incs[i := inc.(worker := Waiting(session), outbox := inc.outbox + [frame])])
    case WorkerExits(i) => s.(incs := s.incs[i := s.incs[i].(worker := Exited, inbox := [])])
    case WorkerActs(i, worker, inbox, frames) =>
      s.(incs := s.incs[i := s.incs[i].(worker := worker, inbox := inbox, outbox := s.incs[i].outbox + frames)])
    case ReaderTakes(i) => s.(incs := s.incs[i := TakeFrame(s.incs[i])])
    case ReaderDelivers(i, managerAlive) =>
      var inc := s.incs[i];
      if inc.reader.Unsolicited? then Ended(s, i, managerAlive, "worker sent a reply with no event outstanding")
      else Settled(s, i, Message(host, inc.consumed[inc.delivered]), managerAlive)
    case ReaderEnds(i, report) => Ended(s, i, report, "worker channel failed")
  }

  // ---- Runs ----

  /** Whether a list of steps is a run, and the state it leads to. */
  function Exec<S>(host: Host, code: WorkerCode<S>, steps: seq<Step<S>>): Option<State<S>> {
    if steps == [] then Some(Start()) else
    match Exec(host, code, steps[..|steps| - 1])
    case None => None
    case Some(s) => if Enabled(s, steps[|steps| - 1]) then Some(Apply(host, code, s, steps[|steps| - 1])) else None
  }

  /** The runs of the shipped worker: its loop is the only thing that moves its process. */
  predicate Shipped<S>(steps: seq<Step<S>>) {
    forall k | 0 <= k < |steps| :: !steps[k].WorkerActs?
  }
}
