/** The bridge with the shipped worker: replies meet their events, and asynchrony does not show. */
module BridgeShipped {
  import opened Wrappers
  import opened Messages
  import opened Broker
  import opened Worker
  import opened Bridge
  import opened BridgeSafety
  import opened WorkerHosting

  // ---- Where every recorded event is ----

  /** The events a worker has answered: their frames are consumed or still in transit. */
  function Answered<S>(inc: Incarnation<S>): nat {
    |inc.consumed| + |inc.outbox|
  }

  /** The events a worker has taken off its channel. */
  function Taken<S>(inc: Incarnation<S>): nat {
    Answered(inc) + if inc.worker.Evaluating? then 1 else 0
  }

  /** Frames answer the events in order. */
  ghost predicate FramesOk<S>(code: WorkerCode<S>, inc: Incarnation<S>) {
    && Answered(inc) <= |inc.recorded|
    && (forall k | 0 <= k < |inc.consumed| :: inc.consumed[k].frame == ReplyTo(code, inc.recorded, k))
    && (forall j | 0 <= j < |inc.outbox| :: inc.outbox[j] == ReplyTo(code, inc.recorded, |inc.consumed| + j))
    && !inc.reader.Unsolicited?
  }

  /** The recorded events that are neither taken nor in the channel. */
  function Unsent<S>(inc: Incarnation<S>): int {
    |inc.recorded| - Taken(inc) - |inc.inbox|
  }

  /** A running worker has the session of the events it answered, and its channel holds the next ones. */
  ghost predicate ProcessOk<S>(code: WorkerCode<S>, inc: Incarnation<S>)
    requires !inc.worker.Exited?
  {
    && 0 <= Unsent(inc) <= 1
    && inc.inbox == inc.recorded[Taken(inc)..Taken(inc) + |inc.inbox|]
    && inc.worker.session == SessionAfter(code, inc.recorded[..Answered(inc)])
    && (inc.worker.Evaluating? ==> inc.worker.event == inc.recorded[Answered(inc)])
  }

  /**
   * Where the recorded events are. One is unsent only between the router's push and its send
   * (`sending`), or after the send failed, and then the incarnation is no longer live.
   */
  ghost predicate PlaceOk<S>(code: WorkerCode<S>, inc: Incarnation<S>, isLive: bool, sending: Option<UiEvent>) {
    && FramesOk(code, inc)
    && (!inc.worker.Exited? ==>
          && ProcessOk(code, inc)
          && (sending.Some? ==> Unsent(inc) == 1 && sending.value == inc.recorded[|inc.recorded| - 1])
          && (isLive && sending.None? ==> Unsent(inc) == 0))
  }

  predicate IsLive<S>(s: State<S>, i: nat)
    requires i < |s.incs|
  {
    s.incs[i].tab in s.live && s.live[s.incs[i].tab] == i
  }

  function SendingTo<S>(s: State<S>, i: nat): Option<UiEvent> {
    if s.router.Sending? && s.router.inc == i then Some(s.router.event) else None
  }

  ghost predicate AllPlaced<S>(code: WorkerCode<S>, s: State<S>) {
    forall i | 0 <= i < |s.incs| :: PlaceOk(code, s.incs[i], IsLive(s, i), SendingTo(s, i))
  }

  lemma RepliesIgnoreLaterEvents<S>(code: WorkerCode<S>, events: seq<UiEvent>, event: UiEvent, k: nat)
    requires k < |events|
    ensures ReplyTo(code, events + [event], k) == ReplyTo(code, events, k)
  {
    assert (events + [event])[..k] == events[..k];
  }

  lemma RecordKeepsPlace<S>(code: WorkerCode<S>, inc: Incarnation<S>, event: UiEvent)
    requires PlaceOk(code, inc, true, None)
    ensures PlaceOk(code, RecordIn(inc, event), true, Some(event))
  {
    RecordKeepsFrames(code, inc, event);
    if !inc.worker.Exited? {
      RecordKeepsProcess(code, inc, event);
    }
  }

  lemma RecordKeepsFrames<S>(code: WorkerCode<S>, inc: Incarnation<S>, event: UiEvent)
    requires FramesOk(code, inc)
    ensures FramesOk(code, RecordIn(inc, event))
  {
    forall k | 0 <= k < |inc.recorded|
      ensures ReplyTo(code, inc.recorded + [event], k) == ReplyTo(code, inc.recorded, k)
    {
      RepliesIgnoreLaterEvents(code, inc.recorded, event, k);
    }
  }

  lemma RecordKeepsProcess<S>(code: WorkerCode<S>, inc: Incarnation<S>, event: UiEvent)
    requires !inc.worker.Exited? && ProcessOk(code, inc) && Unsent(inc) == 0
    ensures ProcessOk(code, RecordIn(inc, event)) && Unsent(RecordIn(inc, event)) == 1
  {
    var recorded := inc.recorded + [event];
    assert recorded[..Answered(inc)] == inc.recorded[..Answered(inc)];
    assert recorded[Taken(inc)..Taken(inc) + |inc.inbox|] == inc.recorded[Taken(inc)..Taken(inc) + |inc.inbox|];
  }

  lemma SendKeepsPlace<S>(code: WorkerCode<S>, inc: Incarnation<S>, event: UiEvent)
    requires PlaceOk(code, inc, true, Some(event))
    ensures PlaceOk(code, inc.(inbox := inc.inbox + [event]), true, None)
    ensures PlaceOk(code, inc, false, None)
  {
  }

  lemma WorkerTakesKeepsPlace<S>(code: WorkerCode<S>, inc: Incarnation<S>, isLive: bool, sending: Option<UiEvent>)
    requires PlaceOk(code, inc, isLive, sending) && inc.worker.Waiting? && inc.inbox != []
    ensures PlaceOk(code, inc.(worker := Evaluating(inc.worker.session, inc.inbox[0]), inbox := inc.inbox[1..]), isLive,
      sending)
  {
  }

  lemma WorkerAnswersKeepsPlace<S>(code: WorkerCode<S>, inc: Incarnation<S>, isLive: bool, sending: Option<UiEvent>)
    requires PlaceOk(code, inc, isLive, sending) && inc.worker.Evaluating?
    ensures var (session, frame) := Answer(code, inc.worker.session, inc.worker.event);
            PlaceOk(code, inc.(worker := Waiting(session), outbox := inc.outbox + [frame]), isLive, sending)
  {
    var n := Answered(inc);
    assert inc.recorded[..n + 1][..n] == inc.recorded[..n];
    var next := inc.(worker := Waiting(Answer(code, inc.worker.session, inc.worker.event).0),
                     outbox := inc.outbox + [ReplyTo(code, inc.recorded, n)]);
    assert Answered(next) == n + 1 == Taken(inc) && FramesOk(code, next);
  }

  lemma TakenFrameAnswers<S>(code: WorkerCode<S>, inc: Incarnation<S>)
    requires FramesOk(code, inc) && inc.outbox != [] && inc.policy.pending != []
    ensures FramesOk(code, TakeFrame(inc))
  {
    assert inc.outbox[0] == ReplyTo(code, inc.recorded, |inc.consumed| + 0);
    var next := TakeFrame(inc);
    forall j | 0 <= j < |next.outbox| ensures next.outbox[j] == ReplyTo(code, next.recorded, |next.consumed| + j) {
      assert next.outbox[j] == inc.outbox[j + 1];
    }
  }

  /** A frame in transit always finds its event queued, so the reader never meets an unsolicited one. */
  lemma ReaderTakesKeepsPlace<S>(code: WorkerCode<S>, inc: Incarnation<S>, isLive: bool, sending: Option<UiEvent>)
    requires |inc.recorded| == |inc.consumed| + |inc.policy.pending|
    requires PlaceOk(code, inc, isLive, sending) && inc.outbox != []
    ensures TakeFrame(inc).reader == Judging
    ensures PlaceOk(code, TakeFrame(inc), isLive, sending)
  {
    TakenFrameAnswers(code, inc);
    var next := TakeFrame(inc);
    assert Answered(next) == Answered(inc) && Taken(next) == Taken(inc) && next.inbox == inc.inbox;
  }

  /** A step of one incarnation leaves the others where they were. */
  lemma UpdateKeepsPlaces<S>(code: WorkerCode<S>, s: State<S>, i: nat, inc: Incarnation<S>, ui: seq<UiEntry>)
    requires AllPlaced(code, s) && i < |s.incs| && inc.tab == s.incs[i].tab
    requires PlaceOk(code, inc, IsLive(s, i), SendingTo(s, i))
    ensures AllPlaced(code, s.(incs := s.incs[i := inc], ui := ui))
  {
    var t := s.(incs := s.incs[i := inc], ui := ui);
    forall j | 0 <= j < |t.incs| ensures PlaceOk(code, t.incs[j], IsLive(t, j), SendingTo(t, j)) {
      assert IsLive(t, j) == IsLive(s, j) && SendingTo(t, j) == SendingTo(s, j);
      assert PlaceOk(code, s.incs[j], IsLive(s, j), SendingTo(s, j));
    }
  }

  /** Only the frames and the process count, not how far the reader got. */
  lemma ReaderMovesKeepsPlace<S>(
    code: WorkerCode<S>, inc: Incarnation<S>, next: Incarnation<S>, isLive: bool, sending: Option<UiEvent>)
    requires PlaceOk(code, inc, isLive, sending)
    requires next == inc.(reader := next.reader, delivered := next.delivered) && !next.reader.Unsolicited?
    ensures PlaceOk(code, next, isLive, sending)
  {
    assert Answered(next) == Answered(inc) && Taken(next) == Taken(inc) && Unsent(next) == Unsent(inc);
  }

  lemma ReaderStepKeepsPlaces<S>(host: Host, code: WorkerCode<S>, s: State<S>, step: Step<S>)
    requires AllPlaced(code, s) && Enabled(s, step)
    requires step.ReaderTakes? || step.ReaderDelivers? || step.ReaderEnds?
    requires var inc := s.incs[step.i]; |inc.recorded| == |inc.consumed| + |inc.policy.pending|
    ensures AllPlaced(code, Apply(host, code, s, step))
  {
    var i := step.i;
    assert PlaceOk(code, s.incs[i], IsLive(s, i), SendingTo(s, i));
    var t := Apply(host, code, s, step);
    assert t == s.(incs := s.incs[i := t.incs[i]], ui := t.ui);
    if step.ReaderTakes? {
      ReaderTakesKeepsPlace(code, s.incs[i], IsLive(s, i), SendingTo(s, i));
    } else {
      ReaderMovesKeepsPlace(code, s.incs[i], t.incs[i], IsLive(s, i), SendingTo(s, i));
    }
    UpdateKeepsPlaces(code, s, i, t.incs[i], t.ui);
  }

  lemma WorkerStepKeepsPlaces<S>(host: Host, code: WorkerCode<S>, s: State<S>, step: Step<S>)
    requires AllPlaced(code, s) && Enabled(s, step)
    requires step.WorkerTakes? || step.WorkerAnswers? || step.WorkerExits?
    ensures AllPlaced(code, Apply(host, code, s, step))
  {
    var t := Apply(host, code, s, step);
    var i := step.i;
    assert PlaceOk(code, s.incs[i], IsLive(s, i), SendingTo(s, i));
    if step.WorkerTakes? {
      WorkerTakesKeepsPlace(code, s.incs[i], IsLive(s, i), SendingTo(s, i));
    } else if step.WorkerAnswers? {
      WorkerAnswersKeepsPlace(code, s.incs[i], IsLive(s, i), SendingTo(s, i));
    }
    assert t == s.(incs := s.incs[i := t.incs[i]], ui := t.ui);
    UpdateKeepsPlaces(code, s, i, t.incs[i], t.ui);
  }

  /** Which incarnations are live matters only to say that nothing is unsent. */
  lemma LosingLifeKeepsPlaces<S>(code: WorkerCode<S>, s: State<S>, t: State<S>)
    requires AllPlaced(code, s) && t.incs == s.incs && !s.router.Sending? && !t.router.Sending?
    requires forall tab <- t.live :: tab in s.live && t.live[tab] == s.live[tab]
    ensures AllPlaced(code, t)
  {
    forall i | 0 <= i < |t.incs| ensures PlaceOk(code, t.incs[i], IsLive(t, i), SendingTo(t, i)) {
      assert PlaceOk(code, s.incs[i], IsLive(s, i), SendingTo(s, i));
    }
  }

  /** The router's push and its send: the two moments between which one event is unsent. */
  lemma ForwardingKeepsPlaces<S>(host: Host, code: WorkerCode<S>, s: State<S>, step: Step<S>)
    requires RouterOk(s) && AllPlaced(code, s) && Enabled(s, step) && (step.Record? || step.Send?)
    ensures AllPlaced(code, Apply(host, code, s, step))
  {
    var i := s.router.inc;
    assert PlaceOk(code, s.incs[i], true, SendingTo(s, i));
    if step.Record? {
      RecordKeepsPlace(code, s.incs[i], s.router.event);
    } else {
      SendKeepsPlace(code, s.incs[i], s.router.event);
    }
    var t := Apply(host, code, s, step);
    forall j | 0 <= j < |t.incs| && j != i ensures PlaceOk(code, t.incs[j], IsLive(t, j), SendingTo(t, j)) {
      assert PlaceOk(code, s.incs[j], IsLive(s, j), SendingTo(s, j));
    }
  }

  lemma RouterStepKeepsPlaces<S>(host: Host, code: WorkerCode<S>, s: State<S>, step: Step<S>)
    requires RouterOk(s) && AllPlaced(code, s) && Enabled(s, step)
    requires step.DropTab? || step.SpawnFails? || step.Accept? || step.Record? || step.Send?
    ensures AllPlaced(code, Apply(host, code, s, step))
  {
    var t := Apply(host, code, s, step);
    if step.Record? || step.Send? {
      ForwardingKeepsPlaces(host, code, s, step);
    } else if t.incs == s.incs {
      LosingLifeKeepsPlaces(code, s, t);
    } else {
      forall j | 0 <= j < |s.incs| ensures PlaceOk(code, t.incs[j], IsLive(t, j), SendingTo(t, j)) {
        assert PlaceOk(code, s.incs[j], IsLive(s, j), SendingTo(s, j));
      }
    }
  }

  lemma {:induction false} EveryShippedRunIsPlaced<S>(host: Host, code: WorkerCode<S>, steps: seq<Step<S>>)
    requires Exec(host, code, steps).Some? && Shipped(steps)
    ensures AllPlaced(code, Exec(host, code, steps).value)
  {
    if steps != [] {
      var before, step := steps[..|steps| - 1], steps[|steps| - 1];
      EveryRunKeepsInv(host, code, before);
      EveryShippedRunIsPlaced(host, code, before);
      var s := Exec(host, code, before).value;
      if step.DropTab? || step.SpawnFails? || step.Accept? || step.Record? || step.Send? {
        RouterStepKeepsPlaces(host, code, s, step);
      } else if step.ReaderTakes? || step.ReaderDelivers? || step.ReaderEnds? {
        assert IncarnationOk(s.incs[step.i]);
        ReaderStepKeepsPlaces(host, code, s, step);
      } else {
        WorkerStepKeepsPlaces(host, code, s, step);
      }
    }
  }

  /**
   * Reply N answers event N: with the shipped worker every consumed frame is the reply to the
   * event of its own number, every queued event of a live worker is in transit, being evaluated,
   * answered in transit, or about to be sent, and no reader ever meets a frame with nothing queued.
   */
  lemma RepliesAreInStep<S>(host: Host, code: WorkerCode<S>, steps: seq<Step<S>>, i: nat)
    requires Exec(host, code, steps).Some? && Shipped(steps) && i < |Exec(host, code, steps).value.incs|
    ensures var s := Exec(host, code, steps).value;
            var inc := s.incs[i];
            && |inc.consumed| <= |inc.recorded|
            && (forall k | 0 <= k < |inc.consumed| :: inc.consumed[k].frame == ReplyTo(code, inc.recorded, k))
            && |inc.outbox| <= |inc.policy.pending|
            && !inc.reader.Unsolicited?
            && (IsLive(s, i) && !inc.worker.Exited? ==>
                  |inc.policy.pending| == |inc.inbox| + (if inc.worker.Evaluating? then 1 else 0) + |inc.outbox|
                                          + (if SendingTo(s, i).Some? then 1 else 0))
  {
    EveryRunKeepsInv(host, code, steps);
    EveryShippedRunIsPlaced(host, code, steps);
    var s := Exec(host, code, steps).value;
    assert IncarnationOk(s.incs[i]) && PlaceOk(code, s.incs[i], IsLive(s, i), SendingTo(s, i));
  }

  // ---- Asynchrony does not show ----

  /** The action list that a message on the UI channel carries. */
  function ApprovedBy(message: Result<WorkerResponse, MizuError>): seq<RuntimeAction> {
    match message
    case Ok(response) => response.runtimeActions
    case Err(_) => []
  }

  /** The action lists of the entries for the frames from lo up to hi, in order. */
  function Approvals(entries: seq<UiEntry>, lo: nat, hi: nat): seq<seq<RuntimeAction>> {
    if entries == [] then [] else
    var last := entries[|entries| - 1];
    Approvals(entries[..|entries| - 1], lo, hi) +
    if last.source.FromReader? && lo <= last.source.frame < hi then [ApprovedBy(last.message)] else []
  }

  /** One frame: the bridge approves what the synchronous host approves, given the same scope. */
  lemma FrameMatchesSync<S>(host: Host, code: WorkerCode<S>, recorded: seq<UiEvent>, judged: Judged, k: nat)
    requires JudgedFairly(judged, recorded, k) && judged.frame == ReplyTo(code, recorded, k)
    ensures var message := MeaningFor(host)(judged);
            && (message.None? ==> SyncApproval(host, code, judged.scope, recorded, k) == None)
            && (message.Some? ==>
                  SyncApproval(host, code, judged.scope, recorded, k) == Some(ApprovedBy(message.value)))
  {
  }

  lemma {:induction false} LogMatchesSync<S>(host: Host, code: WorkerCode<S>, i: nat, inc: Incarnation<S>, scope: Scope,
                                             lo: nat, hi: nat, n: nat)
    requires lo <= n <= |inc.consumed| <= |inc.recorded| && lo <= hi
    requires forall k | 0 <= k < |inc.consumed| ::
      JudgedFairly(inc.consumed[k], inc.recorded, k) && inc.consumed[k].frame == ReplyTo(code, inc.recorded, k)
    requires forall k | lo <= k < hi && k < n :: inc.consumed[k].scope == scope
    ensures Approvals(Log(MeaningFor(host), i, inc.tab, inc.consumed, n), lo, hi)
         == SyncApprovals(host, code, scope, inc.recorded, lo, if n < hi then n else hi)
  {
    if n == lo {
      NoApprovalsBelow(MeaningFor(host), i, inc.tab, inc.consumed, lo, hi, n);
    } else {
      LogMatchesSync(host, code, i, inc, scope, lo, hi, n - 1);
      FrameMatchesSync(host, code, inc.recorded, inc.consumed[n - 1], n - 1);
      LogExtended(MeaningFor(host), i, inc.tab, inc.consumed, lo, hi, n);
    }
  }

  /** One more frame adds the list of its message, if it has one and is asked for. */
  lemma LogExtended(meaning: Meaning, i: nat, tab: TabId, consumed: seq<Judged>, lo: nat, hi: nat, n: nat)
    requires 0 < n <= |consumed|
    ensures var before := Approvals(Log(meaning, i, tab, consumed, n - 1), lo, hi);
            Approvals(Log(meaning, i, tab, consumed, n), lo, hi) ==
              match meaning(consumed[n - 1])
              case None => before
              case Some(message) => if lo <= n - 1 < hi then before + [ApprovedBy(message)] else before
  {
    var log, shorter := Log(meaning, i, tab, consumed, n), Log(meaning, i, tab, consumed, n - 1);
    if log != shorter {
      assert log[..|log| - 1] == shorter;
    }
  }

  lemma {:induction false} NoApprovalsBelow(
    meaning: Meaning, i: nat, tab: TabId, consumed: seq<Judged>, lo: nat, hi: nat, n: nat)
    requires n <= lo && n <= |consumed|
    ensures Approvals(Log(meaning, i, tab, consumed, n), lo, hi) == []
  {
    if n > 0 {
      NoApprovalsBelow(meaning, i, tab, consumed, lo, hi, n - 1);
      var log, shorter := Log(meaning, i, tab, consumed, n), Log(meaning, i, tab, consumed, n - 1);
      if log != shorter {
        assert log[..|log| - 1] == shorter;
      }
    }
  }

  /** Frames judged before the next reload are judged against one document. */
  lemma ScopeIsSteady<S>(inc: Incarnation<S>, lo: nat, hi: nat)
    requires HistoryOk(inc.policy, inc.recorded, inc.consumed) && lo < hi <= |inc.consumed|
    requires inc.consumed[hi - 1].horizon <= |inc.recorded|
    requires forall k | lo < k < inc.consumed[hi - 1].horizon :: !inc.recorded[k].Reload?
    ensures forall k | lo <= k < hi :: inc.consumed[k].scope == ScopeAfter(inc.recorded[..lo + 1])
  {
    forall k | lo <= k < hi ensures inc.consumed[k].scope == ScopeAfter(inc.recorded[..lo + 1]) {
      assert JudgedFairly(inc.consumed[k], inc.recorded, k);
      assert inc.consumed[k].horizon <= inc.consumed[hi - 1].horizon;
      ScopeSinceReload(inc.recorded, lo + 1, inc.consumed[k].horizon);
    }
  }

  /**
   * Between two reloads the bridge is indistinguishable from the synchronous host: for any
   * schedule, take the delivered frames from lo up to hi of an incarnation, such that no reload
   * was recorded after event lo and before the last of those frames was taken. The action lists
   * they bring to the UI are those a synchronous host with the document of event lo computes on
   * the same events, with nothing for the events that had no answer.
   */
  lemma AsynchronyIsInvisible<S>(host: Host, code: WorkerCode<S>, steps: seq<Step<S>>, i: nat, lo: nat, hi: nat)
    requires Exec(host, code, steps).Some? && Shipped(steps) && i < |Exec(host, code, steps).value.incs|
    requires var inc := Exec(host, code, steps).value.incs[i];
             && lo < hi <= inc.delivered <= |inc.consumed|
             && inc.consumed[hi - 1].horizon <= |inc.recorded|
             && forall k | lo < k < inc.consumed[hi - 1].horizon :: !inc.recorded[k].Reload?
    ensures var s := Exec(host, code, steps).value;
            var recorded := s.incs[i].recorded;
            && hi <= |recorded|
            && Approvals(FromIncarnation(s.ui, i), lo, hi)
            == SyncApprovals(host, code, ScopeAfter(recorded[..lo + 1]), recorded, lo, hi)
  {
    EveryRunKeepsInv(host, code, steps);
    EveryShippedRunIsPlaced(host, code, steps);
    var s := Exec(host, code, steps).value;
    var inc := s.incs[i];
    assert IncarnationOk(inc) && PlaceOk(code, inc, IsLive(s, i), SendingTo(s, i));
    ScopeIsSteady(inc, lo, hi);
    LogMatchesSync(host, code, i, inc, ScopeAfter(inc.recorded[..lo + 1]), lo, hi, inc.delivered);
  }

  // ---- Every recorded event is one a host would dispatch ----

  ghost predicate NothingCloses<S>(incs: seq<Incarnation<S>>, router: Router) {
    && (router.Idle? || !router.event.CloseTab?)
    && forall i | 0 <= i < |incs| :: CloseTab !in incs[i].recorded
  }

  lemma RouterClosesNothing<S>(host: Host, code: WorkerCode<S>, s: State<S>, step: Step<S>)
    requires NothingCloses(s.incs, s.router) && Enabled(s, step)
    requires step.DropTab? || step.SpawnFails? || step.Accept? || step.Record? || step.Send?
    ensures var t := Apply(host, code, s, step); NothingCloses(t.incs, t.router)
  {
  }

  /** The other threads change one incarnation at a time, and record nothing. */
  ghost predicate RecordsNothing<S>(s: State<S>, t: State<S>, i: nat) {
    && t.router == s.router && |t.incs| == |s.incs| && i < |s.incs|
    && t.incs == s.incs[i := t.incs[i]] && t.incs[i].recorded == s.incs[i].recorded
  }

  lemma WorkerRecordsNothing<S>(host: Host, code: WorkerCode<S>, s: State<S>, step: Step<S>)
    requires Enabled(s, step) && (step.WorkerTakes? || step.WorkerAnswers? || step.WorkerExits? || step.WorkerActs?)
    ensures RecordsNothing(s, Apply(host, code, s, step), step.i)
  {
  }

  lemma SettlingRecordsNothing<S>(
    s: State<S>, i: nat, message: Option<Result<WorkerResponse, MizuError>>, managerAlive: bool)
    requires i < |s.incs|
    ensures RecordsNothing(s, Settled(s, i, message, managerAlive), i)
  {
  }

  lemma ReaderRecordsNothing<S>(host: Host, code: WorkerCode<S>, s: State<S>, step: Step<S>)
    requires Enabled(s, step) && (step.ReaderTakes? || step.ReaderDelivers? || step.ReaderEnds?)
    ensures RecordsNothing(s, Apply(host, code, s, step), step.i)
  {
    if step.ReaderDelivers? && !s.incs[step.i].reader.Unsolicited? {
      var inc := s.incs[step.i];
      SettlingRecordsNothing(s, step.i, Message(host, inc.consumed[inc.delivered]), step.managerAlive);
    }
  }

  lemma StepClosesNothing<S>(host: Host, code: WorkerCode<S>, s: State<S>, step: Step<S>)
    requires NothingCloses(s.incs, s.router) && Enabled(s, step)
    ensures var t := Apply(host, code, s, step); NothingCloses(t.incs, t.router)
  {
    if step.DropTab? || step.SpawnFails? || step.Accept? || step.Record? || step.Send? {
      RouterClosesNothing(host, code, s, step);
    } else if step.WorkerTakes? || step.WorkerAnswers? || step.WorkerExits? || step.WorkerActs? {
      WorkerRecordsNothing(host, code, s, step);
    } else {
      ReaderRecordsNothing(host, code, s, step);
    }
  }

  /** The router deals with `CloseTab` itself, so a host given the recorded events serves them all. */
  lemma {:induction false} RecordedEventsAreServed<S>(host: Host, code: WorkerCode<S>, steps: seq<Step<S>>)
    requires Exec(host, code, steps).Some?
    ensures var s := Exec(host, code, steps).value;
            && NothingCloses(s.incs, s.router)
            && forall i | 0 <= i < |s.incs| :: Served(s.incs[i].recorded) == |s.incs[i].recorded|
  {
    if steps != [] {
      RecordedEventsAreServed(host, code, steps[..|steps| - 1]);
      StepClosesNothing(host, code, Exec(host, code, steps[..|steps| - 1]).value, steps[|steps| - 1]);
    }
  }

  // ---- A reload overtakes an unanswered event ----

  /**
   * The comment on `TabPolicy` has a reply judged against its own document; the code replaces the
   * scope when a reload is queued. For any two documents with different scopes this run has the
   * reply to the first one's reload judged against the second.
   */
  lemma ReloadOvertakesReply<S>(host: Host, code: WorkerCode<S>, first: ReloadPayload, second: ReloadPayload)
    returns (steps: seq<Step<S>>)
    ensures Exec(host, code, steps).Some? && Shipped(steps) && |Exec(host, code, steps).value.incs| == 1
    ensures var inc := Exec(host, code, steps).value.incs[0];
            && inc.recorded == [Reload(first), Reload(second)]
            && |inc.consumed| == 1
            && inc.consumed[0].scope == Scope(second.urlRegistry, second.documentDomain)
            && ScopeAfter(inc.recorded[..1]) == Scope(first.urlRegistry, first.documentDomain)
  {
    var s: State<S> := Start();
    steps := [];
    steps, s := Extend(host, code, steps, s, Accept(0, Reload(first)));
    steps, s := Extend(host, code, steps, s, Record);
    steps, s := Extend(host, code, steps, s, Send(true));
    steps, s := Extend(host, code, steps, s, Accept(0, Reload(second)));
    steps, s := Extend(host, code, steps, s, Record);
    assert s.incs[0].recorded == [Reload(first), Reload(second)];
    steps, s := Extend(host, code, steps, s, WorkerTakes(0));
    steps, s := Extend(host, code, steps, s, WorkerAnswers(0));
    steps, s := Extend(host, code, steps, s, ReaderTakes(0));
    assert s.incs[0].recorded[..1] == [Reload(first)];
  }

  lemma Extend<S>(host: Host, code: WorkerCode<S>, steps: seq<Step<S>>, s: State<S>, step: Step<S>)
    returns (longer: seq<Step<S>>, t: State<S>)
    requires Exec(host, code, steps) == Some(s) && Shipped(steps) && Enabled(s, step) && !step.WorkerActs?
    ensures t == Apply(host, code, s, step)
    ensures Exec(host, code, longer) == Some(t) && Shipped(longer)
  {
    longer, t := steps + [step], Apply(host, code, s, step);
    assert longer[..|steps|] == steps;
  }
}
