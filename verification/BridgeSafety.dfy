/** What every run of the bridge keeps, whatever the worker processes do. */
module BridgeSafety {
  import opened Wrappers
  import opened Messages
  import opened Broker
  import opened Worker
  import opened Bridge

  // ---- One incarnation's history ----

  /** Frame k was judged with the agency of event k, and with the scope of the events recorded by then. */
  ghost predicate JudgedFairly(judged: Judged, recorded: seq<UiEvent>, k: nat) {
    && k < judged.horizon <= |recorded|
    && judged.agency == EventAgency.Of(recorded[k])
    && judged.scope == ScopeAfter(recorded[..judged.horizon])
  }

  ghost predicate HistoryOk(policy: Policy, recorded: seq<UiEvent>, consumed: seq<Judged>) {
    && |recorded| == |consumed| + |policy.pending|
    && (forall j | 0 <= j < |policy.pending| :: policy.pending[j] == EventAgency.Of(recorded[|consumed| + j]))
    && policy.scope == ScopeAfter(recorded)
    && (forall k | 0 <= k < |consumed| :: JudgedFairly(consumed[k], recorded, k))
    && (forall k, l | 0 <= k < l < |consumed| :: consumed[k].horizon <= consumed[l].horizon)
  }

  ghost predicate ReaderOk(reader: Reader, consumed: nat, delivered: nat) {
    match reader
    case Judging => consumed == delivered + 1
    case Stopped => delivered <= consumed <= delivered + 1
    case _ => consumed == delivered
  }

  ghost predicate IncarnationOk<S>(inc: Incarnation<S>) {
    && HistoryOk(inc.policy, inc.recorded, inc.consumed)
    && ReaderOk(inc.reader, |inc.consumed|, inc.delivered)
  }

  lemma RecordKeepsHistory(policy: Policy, recorded: seq<UiEvent>, consumed: seq<Judged>, event: UiEvent)
    requires HistoryOk(policy, recorded, consumed)
    ensures HistoryOk(Recorded(policy, event), recorded + [event], consumed)
  {
    assert (recorded + [event])[..|recorded|] == recorded;
    forall k | 0 <= k < |consumed| ensures JudgedFairly(consumed[k], recorded + [event], k) {
      assert JudgedFairly(consumed[k], recorded, k);
      assert (recorded + [event])[..consumed[k].horizon] == recorded[..consumed[k].horizon];
    }
  }

  lemma TakeKeepsHistory<S>(inc: Incarnation<S>)
    requires IncarnationOk(inc) && inc.outbox != [] && inc.reader.Receiving?
    ensures IncarnationOk(TakeFrame(inc))
  {
    if inc.policy.pending != [] {
      var next := TakeFrame(inc);
      assert inc.recorded[..|inc.recorded|] == inc.recorded;
      forall k | 0 <= k < |next.consumed| ensures JudgedFairly(next.consumed[k], next.recorded, k) {
        if k < |inc.consumed| {
          assert JudgedFairly(inc.consumed[k], inc.recorded, k);
        }
      }
      forall k, l | 0 <= k < l < |next.consumed| ensures next.consumed[k].horizon <= next.consumed[l].horizon {
        assert JudgedFairly(next.consumed[k], next.recorded, k);
      }
    }
  }

  // ---- The UI channel ----

  /** What a judged frame amounts to on the UI channel, if anything. */
  type Meaning = Judged -> Option<Result<WorkerResponse, MizuError>>

  function MeaningFor(host: Host): Meaning {
    (judged: Judged) => Message(host, judged)
  }

  /** The entries that the reader of incarnation i put on the UI channel, in order. */
  function FromIncarnation(ui: seq<UiEntry>, i: nat): seq<UiEntry> {
    if ui == [] then [] else
    var last := ui[|ui| - 1];
    FromIncarnation(ui[..|ui| - 1], i) + if last.source.FromReader? && last.source.inc == i then [last] else []
  }

  /** What the first n consumed frames amount to on the UI channel: one entry each, none for a `NoOp`. */
  function Log(meaning: Meaning, i: nat, tab: TabId, consumed: seq<Judged>, n: nat): seq<UiEntry>
    requires n <= |consumed|
  {
    if n == 0 then [] else
    Log(meaning, i, tab, consumed, n - 1) +
    match meaning(consumed[n - 1])
    case None => []
    case Some(message) => [UiEntry(tab, message, FromReader(i, n - 1))]
  }

  lemma {:induction false} LogIgnoresLaterFrames(
    meaning: Meaning, i: nat, tab: TabId, consumed: seq<Judged>, longer: seq<Judged>, n: nat)
    requires n <= |consumed| && consumed <= longer
    ensures Log(meaning, i, tab, consumed, n) == Log(meaning, i, tab, longer, n)
  {
    if n > 0 {
      LogIgnoresLaterFrames(meaning, i, tab, consumed, longer, n - 1);
    }
  }

  /** A response on the UI channel is what a reader made of the frame it names, for that reader's own tab. */
  ghost predicate EntryOk<S>(meaning: Meaning, incs: seq<Incarnation<S>>, entry: UiEntry) {
    match entry.source
    case FromFailure => entry.message.Err? && entry.message.error.IpcError?
    case FromReader(i, k) =>
      && i < |incs| && k < incs[i].delivered <= |incs[i].consumed|
      && entry.tab == incs[i].tab
      && meaning(incs[i].consumed[k]) == Some(entry.message)
  }

  /** Frames of one incarnation reach the UI in order, and each at most once. */
  ghost predicate InOrder(ui: seq<UiEntry>) {
    forall a, b | 0 <= a < b < |ui| && ui[a].source.FromReader? && ui[b].source.FromReader? ::
      ui[a].source.inc == ui[b].source.inc ==> ui[a].source.frame < ui[b].source.frame
  }

  ghost predicate NothingLost<S>(meaning: Meaning, incs: seq<Incarnation<S>>, ui: seq<UiEntry>) {
    forall i | 0 <= i < |incs| ::
      && incs[i].delivered <= |incs[i].consumed|
      && FromIncarnation(ui, i) == Log(meaning, i, incs[i].tab, incs[i].consumed, incs[i].delivered)
  }

  ghost predicate UiOk<S>(meaning: Meaning, incs: seq<Incarnation<S>>, ui: seq<UiEntry>) {
    && (forall a | 0 <= a < |ui| :: EntryOk(meaning, incs, ui[a]))
    && InOrder(ui)
    && NothingLost(meaning, incs, ui)
  }

  /** Incarnations only gain history that the UI channel has not seen yet. */
  ghost predicate Extends<S>(incs: seq<Incarnation<S>>, later: seq<Incarnation<S>>) {
    && |incs| <= |later|
    && (forall i | 0 <= i < |incs| ::
          later[i].tab == incs[i].tab && incs[i].consumed <= later[i].consumed &&
              later[i].delivered == incs[i].delivered)
    && (forall i | |incs| <= i < |later| :: later[i].delivered == 0)
  }

  lemma {:induction false} NoEntriesBeyond<S>(meaning: Meaning, incs: seq<Incarnation<S>>, ui: seq<UiEntry>, i: nat)
    requires forall a | 0 <= a < |ui| :: EntryOk(meaning, incs, ui[a])
    requires |incs| <= i
    ensures FromIncarnation(ui, i) == []
  {
    if ui != [] {
      var rest := ui[..|ui| - 1];
      forall a | 0 <= a < |rest| ensures EntryOk(meaning, incs, rest[a]) {
        assert rest[a] == ui[a];
      }
      NoEntriesBeyond(meaning, incs, rest, i);
      assert EntryOk(meaning, incs, ui[|ui| - 1]);
    }
  }

  lemma UiSurvives<S>(meaning: Meaning, incs: seq<Incarnation<S>>, later: seq<Incarnation<S>>, ui: seq<UiEntry>)
    requires UiOk(meaning, incs, ui) && Extends(incs, later)
    ensures UiOk(meaning, later, ui)
  {
    forall a | 0 <= a < |ui| ensures EntryOk(meaning, later, ui[a]) {
      assert EntryOk(meaning, incs, ui[a]);
    }
    forall i | 0 <= i < |later|
      ensures later[i].delivered <= |later[i].consumed|
      ensures FromIncarnation(ui, i) == Log(meaning, i, later[i].tab, later[i].consumed, later[i].delivered)
    {
      if i < |incs| {
        LogIgnoresLaterFrames(meaning, i, incs[i].tab, incs[i].consumed, later[i].consumed, incs[i].delivered);
      } else {
        NoEntriesBeyond(meaning, incs, ui, i);
      }
    }
  }

  lemma UiTakesFailure<S>(meaning: Meaning, incs: seq<Incarnation<S>>, ui: seq<UiEntry>, entry: UiEntry)
    requires UiOk(meaning, incs, ui)
    requires entry.source.FromFailure? && entry.message.Err? && entry.message.error.IpcError?
    ensures UiOk(meaning, incs, ui + [entry])
  {
    var longer := ui + [entry];
    assert longer[..|longer| - 1] == ui;
    forall a | 0 <= a < |longer| ensures EntryOk(meaning, incs, longer[a]) {
      if a < |ui| {
        assert EntryOk(meaning, incs, ui[a]);
      }
    }
    forall i | 0 <= i < |incs| ensures FromIncarnation(longer, i) == FromIncarnation(ui, i) {
    }
  }

  lemma {:induction false} FromIncarnationExtended(ui: seq<UiEntry>, entry: UiEntry, i: nat)
    ensures FromIncarnation(ui + [entry], i)
         == FromIncarnation(ui, i) + if entry.source.FromReader? && entry.source.inc == i then [entry] else []
  {
    assert (ui + [entry])[..|ui|] == ui;
  }

  lemma UiSkipsFrame<S>(meaning: Meaning, incs: seq<Incarnation<S>>, ui: seq<UiEntry>, i: nat)
    requires UiOk(meaning, incs, ui) && i < |incs| && incs[i].delivered < |incs[i].consumed|
    requires meaning(incs[i].consumed[incs[i].delivered]) == None
    ensures UiOk(meaning, Advanced(incs, i), ui)
  {
    forall a | 0 <= a < |ui| ensures EntryOk(meaning, Advanced(incs, i), ui[a]) {
      assert EntryOk(meaning, incs, ui[a]);
    }
  }

  lemma UiTakesFrame<S>(meaning: Meaning, incs: seq<Incarnation<S>>, ui: seq<UiEntry>, i: nat, entry: UiEntry)
    requires UiOk(meaning, incs, ui) && i < |incs| && incs[i].delivered < |incs[i].consumed|
    requires meaning(incs[i].consumed[incs[i].delivered]) == Some(entry.message)
    requires entry.tab == incs[i].tab && entry.source == FromReader(i, incs[i].delivered)
    ensures UiOk(meaning, Advanced(incs, i), ui + [entry])
  {
    var longer, later := ui + [entry], Advanced(incs, i);
    forall a | 0 <= a < |longer| ensures EntryOk(meaning, later, longer[a]) {
      if a < |ui| {
        assert EntryOk(meaning, incs, ui[a]);
      }
    }
    assert InOrder(longer) by {
      forall a | 0 <= a < |ui| && ui[a].source.FromReader? && ui[a].source.inc == i
        ensures ui[a].source.frame < incs[i].delivered
      {
        assert EntryOk(meaning, incs, ui[a]);
      }
    }
    forall j | 0 <= j < |later|
      ensures FromIncarnation(longer, j) == Log(meaning, j, later[j].tab, later[j].consumed, later[j].delivered)
    {
      FromIncarnationExtended(ui, entry, j);
    }
  }

  // ---- The whole system ----

  ghost predicate RouterOk<S>(s: State<S>) {
    && (forall tab <- s.live :: s.live[tab] < |s.incs| && s.incs[s.live[tab]].tab == tab)
    && (!s.router.Idle? ==>
          && s.router.inc < |s.incs|
          && s.incs[s.router.inc].tab in s.live
          && s.live[s.incs[s.router.inc].tab] == s.router.inc)
    && (s.router.Sending? ==> s.incs[s.router.inc].recorded != [])
  }

  ghost predicate Inv<S>(host: Host, s: State<S>) {
    && RouterOk(s)
    && (forall i | 0 <= i < |s.incs| :: IncarnationOk(s.incs[i]))
    && UiOk(MeaningFor(host), s.incs, s.ui)
  }

  lemma AcceptKeepsHistory<S>(host: Host, code: WorkerCode<S>, s: State<S>, tab: TabId, event: UiEvent)
    requires Inv(host, s) && Enabled(s, Accept(tab, event))
    ensures var t := Apply(host, code, s, Accept(tab, event));
            RouterOk(t) && (forall i | 0 <= i < |t.incs| :: IncarnationOk(t.incs[i])) && Extends(s.incs, t.incs)
  {
    assert IncarnationOk(FreshIncarnation(code, tab));
  }

  lemma RecordKeepsSystem<S>(host: Host, code: WorkerCode<S>, s: State<S>)
    requires Inv(host, s) && Enabled(s, Record)
    ensures var t := Apply(host, code, s, Record);
            RouterOk(t) && (forall i | 0 <= i < |t.incs| :: IncarnationOk(t.incs[i])) && Extends(s.incs, t.incs)
  {
    var inc := s.incs[s.router.inc];
    assert IncarnationOk(inc);
    RecordKeepsHistory(inc.policy, inc.recorded, inc.consumed, s.router.event);
    assert IncarnationOk(RecordIn(inc, s.router.event));
  }

  lemma RouterStepKeepsHistory<S>(host: Host, code: WorkerCode<S>, s: State<S>, step: Step<S>)
    requires Inv(host, s) && Enabled(s, step)
    requires step.DropTab? || step.SpawnFails? || step.Accept? || step.Record? || step.Send?
    ensures var t := Apply(host, code, s, step);
            RouterOk(t) && (forall i | 0 <= i < |t.incs| :: IncarnationOk(t.incs[i])) && Extends(s.incs, t.incs)
  {
    if step.Record? {
      RecordKeepsSystem(host, code, s);
    } else if step.Accept? {
      AcceptKeepsHistory(host, code, s, step.tab, step.event);
    } else {
      LeavingKeepsHistory(host, code, s, step);
    }
  }

  lemma LeavingKeepsHistory<S>(host: Host, code: WorkerCode<S>, s: State<S>, step: Step<S>)
    requires Inv(host, s) && Enabled(s, step) && (step.DropTab? || step.SpawnFails? || step.Send?)
    ensures var t := Apply(host, code, s, step);
            RouterOk(t) && (forall i | 0 <= i < |t.incs| :: IncarnationOk(t.incs[i])) && Extends(s.incs, t.incs)
  {
    if step.Send? && step.delivered {
      SentKeepsHistory(s.incs, s.router.inc, s.router.event);
    }
  }

  /** Putting an event on a channel changes no history. */
  lemma SentKeepsHistory<S>(incs: seq<Incarnation<S>>, i: nat, event: UiEvent)
    requires i < |incs| && forall k | 0 <= k < |incs| :: IncarnationOk(incs[k])
    ensures var sent := incs[i := incs[i].(inbox := incs[i].inbox + [event])];
            (forall k | 0 <= k < |sent| :: IncarnationOk(sent[k])) && Extends(incs, sent)
  {
    assert IncarnationOk(incs[i]);
  }

  lemma RouterStepKeepsInv<S>(host: Host, code: WorkerCode<S>, s: State<S>, step: Step<S>)
    requires Inv(host, s) && Enabled(s, step)
    requires step.DropTab? || step.SpawnFails? || step.Accept? || step.Record? || step.Send?
    ensures Inv(host, Apply(host, code, s, step))
  {
    var t := Apply(host, code, s, step);
    RouterStepKeepsHistory(host, code, s, step);
    UiSurvives(MeaningFor(host), s.incs, t.incs, s.ui);
    if t.ui != s.ui {
      UiTakesFailure(MeaningFor(host), t.incs, s.ui, t.ui[|s.ui|]);
    }
  }

  /** A step of one incarnation that records nothing leaves everything else as it was. */
  lemma UpdateKeepsInv<S>(host: Host, s: State<S>, i: nat, inc: Incarnation<S>, ui: seq<UiEntry>)
    requires Inv(host, s) && i < |s.incs|
    requires inc.tab == s.incs[i].tab && inc.recorded == s.incs[i].recorded && IncarnationOk(inc)
    requires UiOk(MeaningFor(host), s.incs[i := inc], ui)
    ensures Inv(host, s.(incs := s.incs[i := inc], ui := ui))
  {
  }

  lemma WorkerStepKeepsInv<S>(host: Host, code: WorkerCode<S>, s: State<S>, step: Step<S>)
    requires Inv(host, s) && Enabled(s, step)
    requires step.WorkerTakes? || step.WorkerAnswers? || step.WorkerExits? || step.WorkerActs?
    ensures Inv(host, Apply(host, code, s, step))
  {
    var t := Apply(host, code, s, step);
    var i := step.i;
    assert IncarnationOk(s.incs[i]);
    UiSurvives(MeaningFor(host), s.incs, s.incs[i := t.incs[i]], s.ui);
    UpdateKeepsInv(host, s, i, t.incs[i], s.ui);
    assert t == s.(incs := s.incs[i := t.incs[i]], ui := s.ui);
  }

  /** The frame being judged is dealt with, and the reader goes back to its channel. */
  lemma AdvanceKeepsInv<S>(host: Host, s: State<S>, i: nat, ui: seq<UiEntry>)
    requires Inv(host, s) && i < |s.incs| && s.incs[i].reader.Judging?
    requires UiOk(MeaningFor(host), Advanced(s.incs, i), ui)
    ensures Inv(host, s.(incs := Advanced(s.incs, i), ui := ui))
  {
    assert IncarnationOk(s.incs[i]);
    var inc := s.incs[i].(reader := Receiving, delivered := s.incs[i].delivered + 1);
    AdvanceKeepsHistory(s.incs[i]);
    assert s.(incs := Advanced(s.incs, i), ui := ui) == s.(incs := s.incs[i := inc], ui := ui);
    UpdateKeepsInv(host, s, i, inc, ui);
  }

  lemma AdvanceKeepsHistory<S>(inc: Incarnation<S>)
    requires IncarnationOk(inc) && inc.reader.Judging?
    ensures IncarnationOk(inc.(reader := Receiving, delivered := inc.delivered + 1))
  {
  }

  /** The manager is gone: the judged frame has nobody to go to. */
  lemma AbandonKeepsInv<S>(host: Host, s: State<S>, i: nat)
    requires Inv(host, s) && i < |s.incs|
    ensures Inv(host, s.(incs := s.incs[i := s.incs[i].(reader := Stopped)]))
  {
    assert IncarnationOk(s.incs[i]);
    UiSurvives(MeaningFor(host), s.incs, s.incs[i := s.incs[i].(reader := Stopped)], s.ui);
    UpdateKeepsInv(host, s, i, s.incs[i].(reader := Stopped), s.ui);
  }

  lemma ForwardingKeepsInv<S>(host: Host, s: State<S>, i: nat, message: Result<WorkerResponse, MizuError>)
    requires Inv(host, s) && i < |s.incs| && s.incs[i].reader.Judging? && s.incs[i].delivered < |s.incs[i].consumed|
    requires MeaningFor(host)(s.incs[i].consumed[s.incs[i].delivered]) == Some(message)
    ensures Inv(host, s.(incs := Advanced(s.incs, i),
                         ui := s.ui + [UiEntry(s.incs[i].tab, message, FromReader(i, s.incs[i].delivered))]))
  {
    var entry := UiEntry(s.incs[i].tab, message, FromReader(i, s.incs[i].delivered));
    UiTakesFrame(MeaningFor(host), s.incs, s.ui, i, entry);
    AdvanceKeepsInv(host, s, i, s.ui + [entry]);
  }

  lemma SettlingKeepsInv<S>(host: Host, s: State<S>, i: nat, managerAlive: bool)
    requires Inv(host, s) && i < |s.incs| && s.incs[i].reader.Judging? && HasVerdict(s.incs[i])
    ensures Inv(host, Settled(s, i, MeaningFor(host)(s.incs[i].consumed[s.incs[i].delivered]), managerAlive))
  {
    var message := MeaningFor(host)(s.incs[i].consumed[s.incs[i].delivered]);
    if message.None? {
      UiSkipsFrame(MeaningFor(host), s.incs, s.ui, i);
      AdvanceKeepsInv(host, s, i, s.ui);
    } else if managerAlive {
      ForwardingKeepsInv(host, s, i, message.value);
    } else {
      AbandonKeepsInv(host, s, i);
    }
  }

  lemma TakingKeepsInv<S>(host: Host, code: WorkerCode<S>, s: State<S>, i: nat)
    requires Inv(host, s) && Enabled(s, ReaderTakes(i))
    ensures Inv(host, Apply(host, code, s, ReaderTakes(i)))
  {
    var inc := TakeFrame(s.incs[i]);
    TakeKeepsHistory(s.incs[i]);
    UiSurvives(MeaningFor(host), s.incs, s.incs[i := inc], s.ui);
    UpdateKeepsInv(host, s, i, inc, s.ui);
  }

  lemma EndingKeepsInv<S>(host: Host, s: State<S>, i: nat, report: bool, reason: string)
    requires Inv(host, s) && i < |s.incs| && !s.incs[i].reader.Judging?
    ensures Inv(host, Ended(s, i, report, reason))
  {
    var inc := s.incs[i].(reader := Stopped);
    var t := Ended(s, i, report, reason);
    assert IncarnationOk(s.incs[i]);
    UiSurvives(MeaningFor(host), s.incs, s.incs[i := inc], s.ui);
    if report {
      UiTakesFailure(MeaningFor(host), s.incs[i := inc], s.ui, t.ui[|s.ui|]);
    }
    UpdateKeepsInv(host, s, i, inc, t.ui);
  }

  lemma ReaderStepKeepsInv<S>(host: Host, code: WorkerCode<S>, s: State<S>, step: Step<S>)
    requires Inv(host, s) && Enabled(s, step)
    requires step.ReaderTakes? || step.ReaderDelivers? || step.ReaderEnds?
    ensures Inv(host, Apply(host, code, s, step))
  {
    match step
    case ReaderTakes(i) => TakingKeepsInv(host, code, s, i);
    case ReaderEnds(i, report) => EndingKeepsInv(host, s, i, report, "worker channel failed");
    case ReaderDelivers(i, managerAlive) =>
      if s.incs[i].reader.Judging? {
        assert MeaningFor(host)(s.incs[i].consumed[s.incs[i].delivered]) ==
            Message(host, s.incs[i].consumed[s.incs[i].delivered]);
        SettlingKeepsInv(host, s, i, managerAlive);
      } else {
        EndingKeepsInv(host, s, i, managerAlive, "worker sent a reply with no event outstanding");
      }
  }

  /** Every state that any run of any worker reaches keeps the invariant. */
  lemma {:induction false} EveryRunKeepsInv<S>(host: Host, code: WorkerCode<S>, steps: seq<Step<S>>)
    requires Exec(host, code, steps).Some?
    ensures Inv(host, Exec(host, code, steps).value)
  {
    if steps != [] {
      var before := steps[..|steps| - 1];
      var step := steps[|steps| - 1];
      EveryRunKeepsInv(host, code, before);
      var s := Exec(host, code, before).value;
      if step.ReaderTakes? || step.ReaderDelivers? || step.ReaderEnds? {
        ReaderStepKeepsInv(host, code, s, step);
      } else if step.WorkerTakes? || step.WorkerAnswers? || step.WorkerExits? || step.WorkerActs? {
        WorkerStepKeepsInv(host, code, s, step);
      } else {
        RouterStepKeepsInv(host, code, s, step);
      }
    }
  }

  // ---- What that means for a reader of the UI channel ----

  /**
   * Correlation: whatever the worker sends and in whatever order the threads run, frame k of an
   * incarnation is judged with the agency of event k recorded for that incarnation, and the queue
   * holds exactly the agencies of the events that no frame has consumed.
   */
  lemma FramesMeetTheirEvents<S>(host: Host, code: WorkerCode<S>, steps: seq<Step<S>>, i: nat)
    requires Exec(host, code, steps).Some? && i < |Exec(host, code, steps).value.incs|
    ensures var inc := Exec(host, code, steps).value.incs[i];
            && |inc.consumed| <= |inc.recorded|
            && (forall k | 0 <= k < |inc.consumed| :: inc.consumed[k].agency == EventAgency.Of(inc.recorded[k]))
            && |inc.policy.pending| == |inc.recorded| - |inc.consumed|
            && (forall j | 0 <= j < |inc.policy.pending| ::
                  inc.policy.pending[j] == EventAgency.Of(inc.recorded[|inc.consumed| + j]))
  {
    EveryRunKeepsInv(host, code, steps);
    var s := Exec(host, code, steps).value;
    assert IncarnationOk(s.incs[i]);
    forall k | 0 <= k < |s.incs[i].consumed|
      ensures s.incs[i].consumed[k].agency == EventAgency.Of(s.incs[i].recorded[k])
    {
      assert JudgedFairly(s.incs[i].consumed[k], s.incs[i].recorded, k);
    }
  }

  /** The event that a response on the UI channel answers, by its history value. */
  ghost predicate Answers<S>(s: State<S>, entry: UiEntry, event: UiEvent) {
    && entry.source.FromReader?
    && entry.source.inc < |s.incs|
    && entry.tab == s.incs[entry.source.inc].tab
    && entry.source.frame < |s.incs[entry.source.inc].recorded|
    && s.incs[entry.source.inc].recorded[entry.source.frame] == event
  }

  ghost predicate IsGesture(event: UiEvent) {
    event.Click? || event.SubmitForm?
  }

  /**
   * Gate G1 end to end: every response on the UI channel answers one event of its own tab, is
   * marked as a gesture exactly when that event was a click or a form submission, and no two
   * responses share an event.
   */
  lemma GesturesAreGenuine<S>(host: Host, code: WorkerCode<S>, steps: seq<Step<S>>)
    requires Exec(host, code, steps).Some?
    ensures var s := Exec(host, code, steps).value;
            && (forall a | 0 <= a < |s.ui| && s.ui[a].message.Ok? ::
                  exists event :: Answers(s, s.ui[a], event) && (s.ui[a].message.value.gesture <==> IsGesture(event)))
            && (forall a, b | 0 <= a < b < |s.ui| && s.ui[a].message.Ok? && s.ui[b].message.Ok? ::
                  s.ui[a].source != s.ui[b].source)
  {
    EveryRunKeepsInv(host, code, steps);
    var s := Exec(host, code, steps).value;
    forall a | 0 <= a < |s.ui| && s.ui[a].message.Ok?
      ensures exists event :: Answers(s, s.ui[a], event) && (s.ui[a].message.value.gesture <==> IsGesture(event))
      ensures s.ui[a].source.FromReader?
    {
      var judged, event := Provenance(host, s, s.ui[a]);
      assert Answers(s, s.ui[a], event);
    }
  }

  /** The frame behind a response on the UI channel, and the event it answers. */
  lemma Provenance<S>(host: Host, s: State<S>, entry: UiEntry) returns (judged: Judged, event: UiEvent)
    requires Inv(host, s) && entry in s.ui && entry.message.Ok?
    ensures Answers(s, entry, event)
    ensures var inc := s.incs[entry.source.inc];
            entry.source.frame < |inc.consumed| && judged == inc.consumed[entry.source.frame]
    ensures JudgedFairly(judged, s.incs[entry.source.inc].recorded, entry.source.frame)
    ensures Message(host, judged) == Some(entry.message)
    ensures entry.message.value.gesture == judged.agency.UserGesture?
  {
    var a :| 0 <= a < |s.ui| && s.ui[a] == entry;
    assert EntryOk(MeaningFor(host), s.incs, s.ui[a]);
    var inc := s.incs[entry.source.inc];
    assert IncarnationOk(inc);
    judged := inc.consumed[entry.source.frame];
    assert JudgedFairly(judged, inc.recorded, entry.source.frame);
    event := inc.recorded[entry.source.frame];
  }

  /**
   * What a delivered response may make the browser do: every call and download goes to an endpoint
   * of the document current when its frame was popped, `horizon` being the number of events recorded
   * by then, its own event among them, and a navigation only happens on a gesture.
   */
  lemma DeliveredActionsAreSanctioned<S>(host: Host, code: WorkerCode<S>, steps: seq<Step<S>>, entry: UiEntry)
    requires Exec(host, code, steps).Some? && entry in Exec(host, code, steps).value.ui && entry.message.Ok?
    ensures var s := Exec(host, code, steps).value;
            && entry.source.FromReader? && entry.source.inc < |s.incs|
            && var inc := s.incs[entry.source.inc];
               && entry.source.frame < |inc.consumed|
               && var horizon := inc.consumed[entry.source.frame].horizon;
                  && entry.source.frame < horizon <= |inc.recorded|
                  && forall action <- entry.message.value.runtimeActions ::
                       && MayExecute(host.resolve, action, ScopeAfter(inc.recorded[..horizon]),
                                     EventAgency.Of(inc.recorded[entry.source.frame]))
                       && (action.Navigate? ==>
                             entry.message.value.gesture && IsGesture(inc.recorded[entry.source.frame]))
  {
    EveryRunKeepsInv(host, code, steps);
    var s := Exec(host, code, steps).value;
    var judged, event := Provenance(host, s, entry);
    ApprovedMayExecute(host.resolve, host.rehydrate(judged.frame.wire).value.runtimeActions, judged.scope,
        judged.agency);
  }

  // ---- Which document a reply is judged against ----

  /** The last reload at an index from lo up to hi. */
  function LastReload(events: seq<UiEvent>, lo: nat, hi: nat): (r: Option<nat>)
    requires lo <= hi <= |events|
    ensures r.Some? ==>
      lo <= r.value < hi && events[r.value].Reload? && forall k | r.value < k < hi :: !events[k].Reload?
    ensures r.None? ==> forall k | lo <= k < hi :: !events[k].Reload?
  {
    if lo == hi then None else if events[hi - 1].Reload? then Some(hi - 1) else LastReload(events, lo, hi - 1)
  }

  lemma {:induction false} ScopeSinceReload(events: seq<UiEvent>, lo: nat, hi: nat)
    requires lo <= hi <= |events|
    ensures ScopeAfter(events[..hi])
         == match LastReload(events, lo, hi)
            case None => ScopeAfter(events[..lo])
            case Some(r) => ScopeOn(EMPTY_SCOPE, events[r])
  {
    if lo < hi {
      ScopeSinceReload(events, lo, hi - 1);
      assert events[..hi][..hi - 1] == events[..hi - 1];
    }
  }

  /**
   * In every run, a frame is judged against the document its event belonged to exactly when no
   * reload recorded since then, but before the frame was taken, brought another scope.
   */
  lemma JudgedByItsOwnDocument<S>(host: Host, code: WorkerCode<S>, steps: seq<Step<S>>, i: nat, k: nat)
    requires Exec(host, code, steps).Some? && i < |Exec(host, code, steps).value.incs|
    requires k < |Exec(host, code, steps).value.incs[i].consumed|
    ensures var inc := Exec(host, code, steps).value.incs[i];
            && k < inc.consumed[k].horizon <= |inc.recorded|
            && (inc.consumed[k].scope == ScopeAfter(inc.recorded[..k + 1]) <==>
                  match LastReload(inc.recorded, k + 1, inc.consumed[k].horizon)
                  case None => true
                  case Some(r) => ScopeOn(EMPTY_SCOPE, inc.recorded[r]) == ScopeAfter(inc.recorded[..k + 1]))
  {
    EveryRunKeepsInv(host, code, steps);
    var inc := Exec(host, code, steps).value.incs[i];
    assert IncarnationOk(inc);
    assert JudgedFairly(inc.consumed[k], inc.recorded, k);
    ScopeSinceReload(inc.recorded, k + 1, inc.consumed[k].horizon);
  }

  /** The document in force after some events: the table and domain of the last reload, or nothing at all. */
  lemma DocumentInForce(events: seq<UiEvent>)
    ensures ScopeAfter(events) ==
      match LastReload(events, 0, |events|)
      case None => Scope(map[], "")
      case Some(r) => Scope(events[r].payload.urlRegistry, events[r].payload.documentDomain)
  {
    ScopeSinceReload(events, 0, |events|);
    assert events[..|events|] == events && events[..0] == [];
  }
}
