/** What the UI channel carries, said of the frames themselves, and where the router takes an event. */
module BridgeDelivery {
  import opened Wrappers
  import opened Messages
  import opened Broker
  import opened Worker
  import opened Bridge
  import opened BridgeSafety
  import opened BridgeShipped
  import opened WorkerHosting

  // ---- What is delivered ----

  /** An entry that comes from a frame of an incarnation. */
  ghost predicate ComesFromFrame<S>(s: State<S>, entry: UiEntry) {
    && entry.source.FromReader? && entry.source.inc < |s.incs|
    && entry.tab == s.incs[entry.source.inc].tab
    && entry.source.frame < |s.incs[entry.source.inc].consumed|
    && entry.source.frame < |s.incs[entry.source.inc].recorded|
  }

  /**
   * A response on the UI channel is the reply its frame decodes to: the same variables, the grants of
   * its requests in order, and the gesture flag of the event it answers instead of the worker's own.
   */
  ghost predicate CarriesReply(host: Host, judged: Judged, event: UiEvent, scope: Scope, response: WorkerResponse) {
    && judged.frame.Response? && host.rehydrate(judged.frame.wire).Ok?
    && var reply := host.rehydrate(judged.frame.wire).value;
       && response.mutatedVariables == reply.mutatedVariables
       && (response.gesture <==> event.Click? || event.SubmitForm?)
       && GrantedInOrder(host.resolve, reply.runtimeActions, response.runtimeActions, scope, AgencyOf(event))
  }

  /** The error that a frame without a response brings. */
  ghost predicate CarriesError(host: Host, frame: Envelope, error: MizuError) {
    match frame
    case Failure(detail) => error == ExecutionError(detail)
    case Hello(_) => error.IpcError?
    case Response(wire) => host.rehydrate(wire).Err? && error == IpcError(host.rehydrate(wire).error)
    case NoOp => false
  }

  lemma MessageIsExact(host: Host, judged: Judged, event: UiEvent)
    requires judged.agency == EventAgency.Of(event)
    ensures Message(host, judged) == None <==> judged.frame.NoOp?
    ensures match Message(host, judged)
            case None => true
            case Some(Ok(response)) => CarriesReply(host, judged, event, judged.scope, response)
            case Some(Err(error)) => CarriesError(host, judged.frame, error)
  {
    if judged.frame.Response? && host.rehydrate(judged.frame.wire).Ok? {
      ApprovedAreGrants(host.resolve, host.rehydrate(judged.frame.wire).value.runtimeActions, judged.scope,
          judged.agency);
    }
  }

  /** In every run, with any worker: what every response on the UI channel carries. */
  lemma DeliveredIsTheReply<S>(host: Host, code: WorkerCode<S>, steps: seq<Step<S>>, entry: UiEntry)
    requires Exec(host, code, steps).Some? && entry in Exec(host, code, steps).value.ui && entry.message.Ok?
    ensures var s := Exec(host, code, steps).value;
            && ComesFromFrame(s, entry)
            && var inc, k := s.incs[entry.source.inc], entry.source.frame;
               && inc.consumed[k].horizon <= |inc.recorded|
               && CarriesReply(host, inc.consumed[k], inc.recorded[k],
                   ScopeAfter(inc.recorded[..inc.consumed[k].horizon]),
                               entry.message.value)
  {
    EveryRunKeepsInv(host, code, steps);
    var judged, event := Provenance(host, Exec(host, code, steps).value, entry);
    MessageIsExact(host, judged, event);
  }

  /** And which error every other entry brings: a frame's own, or one of the transport. */
  lemma ReportedErrors<S>(host: Host, code: WorkerCode<S>, steps: seq<Step<S>>, entry: UiEntry)
    requires Exec(host, code, steps).Some? && entry in Exec(host, code, steps).value.ui && entry.message.Err?
    ensures var s := Exec(host, code, steps).value;
            if entry.source.FromFailure? then entry.message.error.IpcError? else
            && ComesFromFrame(s, entry)
            && CarriesError(host, s.incs[entry.source.inc].consumed[entry.source.frame].frame, entry.message.error)
  {
    EveryRunKeepsInv(host, code, steps);
    var s := Exec(host, code, steps).value;
    var a :| 0 <= a < |s.ui| && s.ui[a] == entry;
    assert EntryOk(MeaningFor(host), s.incs, s.ui[a]);
    if entry.source.FromReader? {
      var inc, k := s.incs[entry.source.inc], entry.source.frame;
      assert IncarnationOk(inc);
      assert JudgedFairly(inc.consumed[k], inc.recorded, k);
      MessageIsExact(host, inc.consumed[k], inc.recorded[k]);
    }
  }

  /**
   * With the shipped worker the synchronous host reports the same variables for the same event,
   * whatever document it judges against, and an error of the same kind where the bridge brings one.
   */
  lemma VariablesMatchSync<S>(host: Host, code: WorkerCode<S>, steps: seq<Step<S>>, entry: UiEntry, scope: Scope)
    requires Exec(host, code, steps).Some? && Shipped(steps) && entry in Exec(host, code, steps).value.ui
    requires entry.source.FromReader?
    ensures var s := Exec(host, code, steps).value;
            && ComesFromFrame(s, entry)
            && var recorded, k := s.incs[entry.source.inc].recorded, entry.source.frame;
               var outcome := Dispatched(host, scope, recorded[k], ReplyTo(code, recorded, k));
               && (entry.message.Ok? ==>
                     && outcome.Ok? && outcome.value.Some?
                     && outcome.value.value.response.mutatedVariables == entry.message.value.mutatedVariables)
               && (entry.message.Err? && entry.message.error.ExecutionError? ==>
                     outcome.Ok? && outcome.value.Some? && outcome.value.value.rejected == [entry.message.error])
               && (entry.message.Err? && entry.message.error.IpcError? ==> outcome.Err? && outcome.error.Protocol?)
  {
    if entry.message.Ok? {
      DeliveredIsTheReply(host, code, steps, entry);
    } else {
      ReportedErrors(host, code, steps, entry);
    }
    var s := Exec(host, code, steps).value;
    RepliesAreInStep(host, code, steps, entry.source.inc);
    var recorded, k := s.incs[entry.source.inc].recorded, entry.source.frame;
    DispatchIsExact(host, scope, recorded[k], ReplyTo(code, recorded, k));
  }

  // ---- Nothing is left out ----

  ghost predicate Reported(ui: seq<UiEntry>, i: nat, k: nat) {
    exists a :: 0 <= a < |ui| && ui[a].source == FromReader(i, k)
  }

  lemma {:induction false} ReportedInLog(ui: seq<UiEntry>, i: nat, k: nat)
    ensures Reported(ui, i, k) <==> Reported(FromIncarnation(ui, i), i, k)
  {
    if ui != [] {
      var init, last := ui[..|ui| - 1], ui[|ui| - 1];
      ReportedInLog(init, i, k);
      ReportedSplits(init, last, i, k);
      assert ui == init + [last];
      if last.source.FromReader? && last.source.inc == i {
        ReportedSplits(FromIncarnation(init, i), last, i, k);
      } else {
        assert FromIncarnation(ui, i) == FromIncarnation(init, i);
      }
    }
  }

  lemma ReportedSplits(ui: seq<UiEntry>, last: UiEntry, i: nat, k: nat)
    ensures Reported(ui + [last], i, k) <==> Reported(ui, i, k) || last.source == FromReader(i, k)
  {
    assert (ui + [last])[|ui|] == last;
    if a :| 0 <= a < |ui| && ui[a].source == FromReader(i, k) {
      assert (ui + [last])[a] == ui[a];
    }
  }

  lemma {:induction false} LogReports(meaning: Meaning, i: nat, tab: TabId, consumed: seq<Judged>, n: nat, k: nat)
    requires n <= |consumed|
    ensures Reported(Log(meaning, i, tab, consumed, n), i, k) <==> k < n && meaning(consumed[k]).Some?
  {
    if n > 0 {
      LogReports(meaning, i, tab, consumed, n - 1, k);
      var before, message := Log(meaning, i, tab, consumed, n - 1), meaning(consumed[n - 1]);
      if message.Some? {
        ReportedSplits(before, UiEntry(tab, message.value, FromReader(i, n - 1)), i, k);
      } else {
        assert Log(meaning, i, tab, consumed, n) == before;
      }
    }
  }

  /** In every run, a frame that was dealt with is on the UI channel exactly when it is not a `NoOp`. */
  lemma EveryFrameIsReported<S>(host: Host, code: WorkerCode<S>, steps: seq<Step<S>>, i: nat, k: nat)
    requires Exec(host, code, steps).Some? && i < |Exec(host, code, steps).value.incs|
    requires k < Exec(host, code, steps).value.incs[i].delivered
    ensures var s := Exec(host, code, steps).value;
            k < |s.incs[i].consumed| && (Reported(s.ui, i, k) <==> !s.incs[i].consumed[k].frame.NoOp?)
  {
    EveryRunKeepsInv(host, code, steps);
    var s := Exec(host, code, steps).value;
    var inc := s.incs[i];
    assert IncarnationOk(inc);
    assert JudgedFairly(inc.consumed[k], inc.recorded, k);
    ReportedInLog(s.ui, i, k);
    LogReports(MeaningFor(host), i, inc.tab, inc.consumed, inc.delivered, k);
    MessageIsExact(host, inc.consumed[k], inc.recorded[k]);
  }

  // ---- Where an event goes ----

  lemma OneMoreStep<S>(host: Host, code: WorkerCode<S>, steps: seq<Step<S>>, step: Step<S>)
    requires Exec(host, code, steps).Some? && Enabled(Exec(host, code, steps).value, step)
    ensures Exec(host, code, steps + [step]) == Some(Apply(host, code, Exec(host, code, steps).value, step))
  {
    assert (steps + [step])[..|steps|] == steps;
  }

  /** The incarnation that serves a tab: its live one, or a new one, which knows no document and has seen no event. */
  function ServerOf<S>(s: State<S>, tab: TabId): nat {
    if tab in s.live then s.live[tab] else |s.incs|
  }

  /** An incarnation with one more event queued and on its channel. */
  ghost predicate Forwarded<S>(was: Incarnation<S>, now: Incarnation<S>, event: UiEvent) {
    && now.recorded == was.recorded + [event] && now.inbox == was.inbox + [event]
    && |now.policy.pending| == |was.policy.pending| + 1 && was.policy.pending <= now.policy.pending
    && (now.policy.pending[|was.policy.pending|].UserGesture? <==> event.Click? || event.SubmitForm?)
    && now.policy.scope == (if event.Reload? then Scope(event.payload.urlRegistry, event.payload.documentDomain)
        else was.policy.scope)
    && now == was.(recorded := now.recorded, inbox := now.inbox, policy := now.policy)
  }

  /** The event reached the tab's own incarnation, a new one if it had none, and nothing else changed. */
  ghost predicate Routed<S>(code: WorkerCode<S>, s: State<S>, t: State<S>, tab: TabId, event: UiEvent) {
    var i := ServerOf(s, tab);
    && t.router.Idle? && t.ui == s.ui && t.live == s.live[tab := i]
    && |t.incs| == (if tab in s.live then |s.incs| else |s.incs| + 1) && i < |t.incs| && t.incs[i].tab == tab
    && Forwarded(if i < |s.incs| then s.incs[i] else Newborn(code, tab), t.incs[i], event)
    && forall j | 0 <= j < |s.incs| && j != i :: t.incs[j] == s.incs[j]
  }

  /** A worker process just started: nothing queued, no document, nothing sent or received. */
  function Newborn<S>(code: WorkerCode<S>, tab: TabId): Incarnation<S> {
    Incarnation(tab, Policy([], Scope(map[], "")), [], Waiting(code.initial), [], Receiving, [], [], 0)
  }

  lemma AcceptedFor<S>(host: Host, code: WorkerCode<S>, s: State<S>, tab: TabId, event: UiEvent)
    requires RouterOk(s) && s.router.Idle? && !event.CloseTab?
    ensures Enabled(s, Accept(tab, event))
    ensures var a, i := Apply(host, code, s, Accept(tab, event)), ServerOf(s, tab);
            && a.router == Holding(i, event) && a.ui == s.ui && a.live == s.live[tab := i]
            && a.incs == (if tab in s.live then s.incs else s.incs + [Newborn(code, tab)])
            && i < |a.incs| && a.incs[i].tab == tab
  {
  }

  lemma SentTo<S>(host: Host, code: WorkerCode<S>, a: State<S>, i: nat, event: UiEvent)
    requires a.router == Holding(i, event) && i < |a.incs|
    ensures Enabled(a, Record) && Enabled(Apply(host, code, a, Record), Send(true))
    ensures var t := Apply(host, code, Apply(host, code, a, Record), Send(true));
            && t.router.Idle? && t.ui == a.ui && t.live == a.live && |t.incs| == |a.incs|
            && Forwarded(a.incs[i], t.incs[i], event)
            && forall j | 0 <= j < |a.incs| && j != i :: t.incs[j] == a.incs[j]
  {
  }

  /** From any state a run reaches, an event for a tab goes to that tab's own incarnation and changes nothing else. */
  lemma EventIsRouted<S>(host: Host, code: WorkerCode<S>, steps: seq<Step<S>>, tab: TabId, event: UiEvent)
    requires Exec(host, code, steps).Some? && Exec(host, code, steps).value.router.Idle? && !event.CloseTab?
    ensures var t := Exec(host, code, steps + [Accept(tab, event)] + [Record] + [Send(true)]);
            t.Some? && Routed(code, Exec(host, code, steps).value, t.value, tab, event)
  {
    EveryRunKeepsInv(host, code, steps);
    var s := Exec(host, code, steps).value;
    AcceptedFor(host, code, s, tab, event);
    var a := Apply(host, code, s, Accept(tab, event));
    SentTo(host, code, a, ServerOf(s, tab), event);
    OneMoreStep(host, code, steps, Accept(tab, event));
    OneMoreStep(host, code, steps + [Accept(tab, event)], Record);
    OneMoreStep(host, code, steps + [Accept(tab, event)] + [Record], Send(true));
  }

  /** A closed tab, or one whose channel failed, has no live incarnation left: its next event starts a new one. */
  lemma DroppedTabStartsAnew<S>(host: Host, code: WorkerCode<S>, steps: seq<Step<S>>, tab: TabId)
    requires Exec(host, code, steps).Some?
    ensures var s := Exec(host, code, steps).value;
            && (s.router.Idle? ==>
                  var t := Exec(host, code, steps + [DropTab(tab)]);
                  t.Some? && tab !in t.value.live && t.value == s.(live := t.value.live) &&
                      t.value.live.Keys == s.live.Keys - {tab})
            && (s.router.Sending? && s.router.inc < |s.incs| && s.incs[s.router.inc].tab == tab ==>
                  var t := Exec(host, code, steps + [Send(false)]);
                  && t.Some? && tab !in t.value.live && t.value.incs == s.incs && t.value.router.Idle?
                  && |t.value.ui| == |s.ui| + 1 && s.ui <= t.value.ui
                  && t.value.ui[|s.ui|].tab == tab && t.value.ui[|s.ui|].message.Err?)
  {
    var s := Exec(host, code, steps).value;
    if s.router.Idle? {
      OneMoreStep(host, code, steps, DropTab(tab));
    } else if s.router.Sending? && s.router.inc < |s.incs| {
      OneMoreStep(host, code, steps, Send(false));
    }
  }

  // ---- Failures are told to the tab ----

  /** One more entry on the UI channel: a transport failure, for the given tab. */
  ghost predicate TellsFailure(ui: seq<UiEntry>, later: seq<UiEntry>, tab: TabId) {
    && |later| == |ui| + 1 && ui <= later
    && later[|ui|].tab == tab && later[|ui|].source.FromFailure?
    && later[|ui|].message.Err? && later[|ui|].message.error.IpcError?
  }

  /** A worker that cannot be started is reported to its tab, and nothing else happens. */
  lemma StartFailureIsTold<S>(host: Host, code: WorkerCode<S>, s: State<S>, tab: TabId)
    requires s.router.Idle? && tab !in s.live
    ensures Enabled(s, SpawnFails(tab))
    ensures var t := Apply(host, code, s, SpawnFails(tab)); TellsFailure(s.ui, t.ui, tab) && t == s.(ui := t.ui)
  {
  }

  /** A frame with no event outstanding ends its reader, and its tab is told; nobody else is touched. */
  lemma UnsolicitedFrameIsTold<S>(host: Host, code: WorkerCode<S>, s: State<S>, i: nat)
    requires i < |s.incs| && s.incs[i].reader.Receiving? && s.incs[i].outbox != [] && s.incs[i].policy.pending == []
    ensures Enabled(s, ReaderTakes(i)) && Enabled(Apply(host, code, s, ReaderTakes(i)), ReaderDelivers(i, true))
    ensures var t := Apply(host, code, Apply(host, code, s, ReaderTakes(i)), ReaderDelivers(i, true));
            && TellsFailure(s.ui, t.ui, s.incs[i].tab) && t.incs[i].reader.Stopped?
            && t.incs[i].consumed == s.incs[i].consumed && t.incs[i].policy == s.incs[i].policy
            && |t.incs| == |s.incs| && t.live == s.live && forall j | 0 <= j < |s.incs| &&
                j != i :: t.incs[j] == s.incs[j]
  {
  }

  /** A reader whose channel ends stops, and tells its tab exactly when the end was a failure. */
  lemma ChannelEndIsTold<S>(host: Host, code: WorkerCode<S>, s: State<S>, i: nat, failed: bool)
    requires i < |s.incs| && s.incs[i].reader.Receiving?
    ensures Enabled(s, ReaderEnds(i, failed))
    ensures var t := Apply(host, code, s, ReaderEnds(i, failed));
            && t.incs[i] == s.incs[i].(reader := Stopped)
            && (if failed then TellsFailure(s.ui, t.ui, s.incs[i].tab) else t.ui == s.ui)
  {
  }

  // ---- An event is answered ----

  /** The steps that take the first event of a tab to the UI: the router's, the worker's and the reader's. */
  function RoundTrip<S>(tab: TabId, i: nat, event: UiEvent): seq<Step<S>> {
    [Accept(tab, event)] + [Record] + [Send(true)] + [WorkerTakes(i)] + [WorkerAnswers(i)] + [ReaderTakes(i)] +
    [ReaderDelivers(i, true)]
  }

  /** A worker just started that has one event on its channel, and what becomes of it. */
  lemma NewbornAnswers<S>(host: Host, code: WorkerCode<S>, s: State<S>, i: nat, event: UiEvent)
    requires i < |s.incs| && Forwarded(Newborn(code, s.incs[i].tab), s.incs[i], event)
    ensures Enabled(s, WorkerTakes(i))
    ensures var a := Apply(host, code, s, WorkerTakes(i));
            && Enabled(a, WorkerAnswers(i))
            && var b := Apply(host, code, a, WorkerAnswers(i));
               && Enabled(b, ReaderTakes(i))
               && var c := Apply(host, code, b, ReaderTakes(i));
                  && Enabled(c, ReaderDelivers(i, true)) && c.ui == s.ui && |c.incs| == |s.incs|
                  && c.incs[i].tab == s.incs[i].tab && c.incs[i].reader.Judging? && c.incs[i].delivered == 0
                  && |c.incs[i].consumed| == 1 && c.incs[i].consumed[0].frame == Answer(code, code.initial, event).1
  {
  }

  lemma OneFrameIsDelivered<S>(host: Host, code: WorkerCode<S>, c: State<S>, i: nat)
    requires i < |c.incs| && c.incs[i].reader.Judging? && c.incs[i].delivered == 0 && |c.incs[i].consumed| == 1
    ensures Enabled(c, ReaderDelivers(i, true))
    ensures var t := Apply(host, code, c, ReaderDelivers(i, true));
            if c.incs[i].consumed[0].frame.NoOp? then t.ui == c.ui
            else |t.ui| == |c.ui| + 1 && c.ui <= t.ui
                 && t.ui[|c.ui|].tab == c.incs[i].tab && t.ui[|c.ui|].source == FromReader(i, 0)
  {
  }

  /**
   * From any state a run reaches, a tab's first event can be answered, and its answer is one entry,
   * or none for a `NoOp`.
   */
  lemma FirstEventIsAnswered<S>(host: Host, code: WorkerCode<S>, steps: seq<Step<S>>, tab: TabId, event: UiEvent)
    requires Exec(host, code, steps).Some? && Exec(host, code, steps).value.router.Idle? && !event.CloseTab?
    requires tab !in Exec(host, code, steps).value.live
    ensures var s := Exec(host, code, steps).value;
            var t := Exec(host, code, steps + RoundTrip(tab, |s.incs|, event));
            && t.Some?
            && if Answer(code, code.initial, event).1.NoOp? then t.value.ui == s.ui
               else |t.value.ui| == |s.ui| + 1 && s.ui <= t.value.ui
                    && t.value.ui[|s.ui|].tab == tab && t.value.ui[|s.ui|].source == FromReader(|s.incs|, 0)
  {
    var s := Exec(host, code, steps).value;
    var i := |s.incs|;
    var taken := AnswerIsTaken(host, code, steps, tab, event);
    OneFrameIsDelivered(host, code, Exec(host, code, taken).value, i);
    OneMoreStep(host, code, taken, ReaderDelivers(i, true));
  }

  /** The answer to a tab's first event has been taken off the channel and not been reported yet. */
  ghost predicate AwaitsReport<S>(code: WorkerCode<S>, s: State<S>, c: State<S>, i: nat, tab: TabId, event: UiEvent) {
    && c.ui == s.ui && i < |c.incs| && c.incs[i].tab == tab
    && c.incs[i].reader.Judging? && c.incs[i].delivered == 0 && |c.incs[i].consumed| == 1
    && c.incs[i].consumed[0].frame == Answer(code, code.initial, event).1
  }

  lemma AnswerIsTaken<S>(host: Host, code: WorkerCode<S>, steps: seq<Step<S>>, tab: TabId, event: UiEvent)
    returns (taken: seq<Step<S>>)
    requires Exec(host, code, steps).Some? && Exec(host, code, steps).value.router.Idle? && !event.CloseTab?
    requires tab !in Exec(host, code, steps).value.live
    ensures var s, i := Exec(host, code, steps).value, |Exec(host, code, steps).value.incs|;
            && taken + [ReaderDelivers(i, true)] == steps + RoundTrip(tab, i, event)
            && Exec(host, code, taken).Some?
            && AwaitsReport(code, s, Exec(host, code, taken).value, i, tab, event)
  {
    var s := Exec(host, code, steps).value;
    var i := |s.incs|;
    EventIsRouted(host, code, steps, tab, event);
    var sent := steps + [Accept(tab, event)] + [Record] + [Send(true)];
    taken := ThreeMoreSteps(host, code, sent, i, event);
    Regrouped(steps, tab, i, event);
  }

  lemma Regrouped<S>(steps: seq<Step<S>>, tab: TabId, i: nat, event: UiEvent)
    ensures steps + [Accept(tab, event)] + [Record] + [Send(true)] + [WorkerTakes(i)] + [WorkerAnswers(i)] +
            [ReaderTakes(i)] + [ReaderDelivers(i, true)] == steps + RoundTrip(tab, i, event)
  {
  }

  lemma ThreeMoreSteps<S>(host: Host, code: WorkerCode<S>, sent: seq<Step<S>>, i: nat, event: UiEvent)
    returns (taken: seq<Step<S>>)
    requires Exec(host, code, sent).Some? && i < |Exec(host, code, sent).value.incs|
    requires var r := Exec(host, code, sent).value; Forwarded(Newborn(code, r.incs[i].tab), r.incs[i], event)
    ensures taken == sent + [WorkerTakes(i)] + [WorkerAnswers(i)] + [ReaderTakes(i)]
    ensures Exec(host, code, taken).Some?
    ensures var r := Exec(host, code, sent).value;
            AwaitsReport(code, r, Exec(host, code, taken).value, i, r.incs[i].tab, event)
  {
    NewbornAnswers(host, code, Exec(host, code, sent).value, i, event);
    OneMoreStep(host, code, sent, WorkerTakes(i));
    OneMoreStep(host, code, sent + [WorkerTakes(i)], WorkerAnswers(i));
    OneMoreStep(host, code, sent + [WorkerTakes(i)] + [WorkerAnswers(i)], ReaderTakes(i));
    taken := sent + [WorkerTakes(i)] + [WorkerAnswers(i)] + [ReaderTakes(i)];
  }
}
