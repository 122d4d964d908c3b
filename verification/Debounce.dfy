/** The storage write debouncer: per-domain batches, last write wins, flushed by timers or by size. */
module Debounce {
  import opened Wrappers

  /** The digest that names a domain's store, a storage key and a stored value: compared, never looked into. */
  type Domain(==, !new)
  type Key(==, !new)
  type Value(==, !new)

  datatype Write = Write(key: Key, value: Value)

  type Batch = map<Key, Value>

  /** Applying writes in order, the last one to a key winning. */
  function LastWriteWins(base: Batch, writes: seq<Write>): Batch {
    if writes == [] then base
    else var last := writes[|writes| - 1]; LastWriteWins(base, writes[..|writes| - 1])[last.key := last.value]
  }

  /** A timer task: which domain it will flush, and when it is due. */
  datatype Timer = Timer(domain: Domain, due: int)

  /** A batch handed to `spawn_flush`; `writes` is a history value, the submissions it was built from. */
  datatype Flush = Flush(domain: Domain, records: Batch, writes: seq<Write>)

  /**
   * `pending` is the map under the mutex and `timers` the sleeping tasks. The rest is history that
   * no step branches on: the clock, every submission, every hand-off in order of removal from the
   * map, and for each buffered domain the submissions in its batch and the time of the first.
   */
  datatype State = State(
    pending: map<Domain, Batch>, timers: seq<Timer>,
    now: int, submitted: seq<(Domain, Write)>, flushes: seq<Flush>,
    batched: map<Domain, seq<Write>>, since: map<Domain, int>)

  datatype Config = Config(window: nat, maxKeys: nat)

  datatype Step =
    | Submit(domain: Domain, write: Write)
    | Fire(timer: nat)
    | Elapse(duration: nat)

  function Start(): State {
    State(map[], [], 0, [], [], map[], map[])
  }

  function BatchOf(s: State, domain: Domain): Batch {
    if domain in s.pending then s.pending[domain] else map[]
  }

  function OpenOf(batched: map<Domain, seq<Write>>, domain: Domain): seq<Write> {
    if domain in batched then batched[domain] else []
  }

  /** What `submit` does under the lock: the new map, the batch it takes out, and whether it starts a timer. */
  function SubmitLocked(config: Config, pending: map<Domain, Batch>, domain: Domain, write: Write)
    : (map<Domain, Batch>, Option<Batch>, bool)
  {
    var entry := if domain in pending then pending[domain] else map[];
    var batch := entry[write.key := write.value];
    if |batch| >= config.maxKeys then (pending - {domain}, Some(batch), false)
    else (pending[domain := batch], None, entry == map[])
  }

  function SubmitTo(config: Config, s: State, domain: Domain, write: Write): State {
    var (pending, flush, startsTimer) := SubmitLocked(config, s.pending, domain, write);
    var writes := OpenOf(s.batched, domain) + [write];
    State(pending,
          if startsTimer then s.timers + [Timer(domain, s.now + config.window)] else s.timers,
          s.now,
          s.submitted + [(domain, write)],
          if flush.Some? then s.flushes + [Flush(domain, flush.value, writes)] else s.flushes,
          if flush.Some? then s.batched - {domain} else s.batched[domain := writes],
          if flush.Some? then s.since - {domain} else if startsTimer then s.since[domain := s.now] else s.since)
  }

  /** What a timer task takes from the map when it wakes. */
  function TakeLocked(pending: map<Domain, Batch>, domain: Domain): (map<Domain, Batch>, Option<Batch>) {
    (pending - {domain}, if domain in pending && pending[domain] != map[] then Some(pending[domain]) else None)
  }

  /** A timer task wakes up and takes whatever its domain has buffered by then. */
  function FireTimer(s: State, t: nat): State
    requires t < |s.timers|
  {
    var domain := s.timers[t].domain;
    var (pending, flush) := TakeLocked(s.pending, domain);
    State(pending,
          s.timers[..t] + s.timers[t + 1..],
          s.now,
          s.submitted,
          if flush.Some? then s.flushes + [Flush(domain, flush.value, OpenOf(s.batched, domain))] else s.flushes,
          s.batched - {domain},
          s.since - {domain})
  }

  /** Timers fire in any order, at their due time or later. */
  predicate Enabled(s: State, step: Step) {
    step.Fire? ==> step.timer < |s.timers| && s.timers[step.timer].due <= s.now
  }

  function Apply(config: Config, s: State, step: Step): State
    requires Enabled(s, step)
  {
    match step
    case Submit(domain, write) => SubmitTo(config, s, domain, write)
    case Fire(t) => FireTimer(s, t)
    case Elapse(duration) => s.(now := s.now + duration)
  }

  function Exec(config: Config, steps: seq<Step>): Option<State> {
    if steps == [] then Some(Start()) else
    match Exec(config, steps[..|steps| - 1])
    case None => None
    case Some(s) => if Enabled(s, steps[|steps| - 1]) then Some(Apply(config, s, steps[|steps| - 1])) else None
  }

  // ---- The object ----

  /** The debouncer itself: `submit` and the body of its timer task, on the shared map. */
  class StorageWriteDebouncer {
    var pending: map<Domain, Batch>
    const config: Config

    constructor (config: Config)
      ensures this.config == config && pending == map[]
    {
      this.config := config;
      pending := map[];
    }

    method Submit(domain: Domain, write: Write) returns (flush: Option<Batch>, startsTimer: bool)
      modifies this
      ensures (pending, flush, startsTimer) == SubmitLocked(config, old(pending), domain, write)
    {
      flush, startsTimer := None, false;
      ghost var before := pending;
      if domain !in pending {
        pending := pending[domain := map[]];
      }
      var wasEmpty := pending[domain] == map[];
      pending := pending[domain := pending[domain][write.key := write.value]];
      assert pending == before[domain := pending[domain]];
      if |pending[domain]| >= config.maxKeys {
        flush := Some(pending[domain]);
        pending := pending - {domain};
        assert pending == before - {domain};
      } else if wasEmpty {
        startsTimer := true;
      }
    }

    /** What a timer task does when its sleep ends. */
    method TimerWakes(domain: Domain) returns (flush: Option<Batch>)
      modifies this
      ensures (pending, flush) == TakeLocked(old(pending), domain)
    {
      var records := if domain in pending then Some(pending[domain]) else None;
      pending := pending - {domain};
      flush := if records.Some? && records.value != map[] then records else None;
    }
  }

  // ---- What every run keeps ----

  /** The writes submitted for one domain, in order. */
  function SubmittedTo(submitted: seq<(Domain, Write)>, domain: Domain): seq<Write> {
    if submitted == [] then []
    else SubmittedTo(submitted[..|submitted| - 1], domain) +
         var last := submitted[|submitted| - 1]; if last.0 == domain then [last.1] else []
  }

  /** The writes in the batches handed off for one domain, in order of removal. */
  function FlushedFor(flushes: seq<Flush>, domain: Domain): seq<Write> {
    if flushes == [] then []
    else FlushedFor(flushes[..|flushes| - 1], domain) +
         var last := flushes[|flushes| - 1]; if last.domain == domain then last.writes else []
  }

  /** The store after the batches handed off for one domain are committed in order of removal. */
  function Committed(flushes: seq<Flush>, domain: Domain): Batch {
    if flushes == [] then map[]
    else var before := Committed(flushes[..|flushes| - 1], domain);
         var last := flushes[|flushes| - 1];
         if last.domain == domain then before + last.records else before
  }

  /** Every submission of a domain is in exactly one batch: handed off, or still buffered. */
  ghost predicate Partitioned(submitted: seq<(Domain, Write)>, flushes: seq<Flush>, batched: map<Domain, seq<Write>>) {
    forall domain :: SubmittedTo(submitted, domain) == FlushedFor(flushes, domain) + OpenOf(batched, domain)
  }

  /** A batch is what its own submissions amount to. */
  ghost predicate BatchesOk(pending: map<Domain, Batch>, batched: map<Domain, seq<Write>>) {
    && pending.Keys == batched.Keys
    && forall domain <- pending :: pending[domain] == LastWriteWins(map[], batched[domain])
  }

  ghost predicate FlushesOk(flushes: seq<Flush>) {
    forall f <- flushes :: f.records == LastWriteWins(map[], f.writes)
  }

  /** Some sleeping timer will flush the domain by the deadline. */
  ghost predicate Covered(timers: seq<Timer>, domain: Domain, deadline: int) {
    exists t :: 0 <= t < |timers| && timers[t].domain == domain && timers[t].due <= deadline
  }

  /** Every buffered domain has a small, non-empty batch and a timer that will flush it in time. */
  ghost predicate TimersOk(config: Config, pending: map<Domain, Batch>, timers: seq<Timer>, since: map<Domain, int>) {
    && since.Keys == pending.Keys
    && forall domain <- pending ::
         0 < |pending[domain]| < config.maxKeys && Covered(timers, domain, since[domain] + config.window)
  }

  ghost predicate Inv(config: Config, s: State) {
    && Partitioned(s.submitted, s.flushes, s.batched)
    && BatchesOk(s.pending, s.batched)
    && FlushesOk(s.flushes)
    && TimersOk(config, s.pending, s.timers, s.since)
  }

  lemma LastWriteWinsExtended(base: Batch, writes: seq<Write>, write: Write)
    ensures LastWriteWins(base, writes + [write]) == LastWriteWins(base, writes)[write.key := write.value]
  {
    assert (writes + [write])[..|writes|] == writes;
  }

  lemma SubmittedExtended(submitted: seq<(Domain, Write)>, entry: (Domain, Write), domain: Domain)
    ensures SubmittedTo(submitted + [entry], domain)
         == SubmittedTo(submitted, domain) + if entry.0 == domain then [entry.1] else []
  {
    assert (submitted + [entry])[..|submitted|] == submitted;
  }

  lemma FlushedExtended(flushes: seq<Flush>, f: Flush, domain: Domain)
    ensures FlushedFor(flushes + [f], domain) == FlushedFor(flushes, domain) + if f.domain == domain then f.writes
      else []
  {
    assert (flushes + [f])[..|flushes|] == flushes;
  }

  /** Handing off a batch moves its submissions from the buffer to the flushed ones. */
  lemma HandOffKeepsPartition(
    submitted: seq<(Domain, Write)>, flushes: seq<Flush>, batched: map<Domain, seq<Write>>, f: Flush)
    requires Partitioned(submitted, flushes, batched[f.domain := f.writes])
    ensures Partitioned(submitted, flushes + [f], batched - {f.domain})
  {
    forall d ensures SubmittedTo(submitted, d) == FlushedFor(flushes + [f], d) + OpenOf(batched - {f.domain}, d) {
      FlushedExtended(flushes, f, d);
      assert SubmittedTo(submitted, d) == FlushedFor(flushes, d) + OpenOf(batched[f.domain := f.writes], d);
    }
  }

  lemma BufferedFor(submitted: seq<(Domain, Write)>, flushed: seq<Write>, batched: map<Domain, seq<Write>>,
                    domain: Domain, write: Write, d: Domain)
    requires SubmittedTo(submitted, d) == flushed + OpenOf(batched, d)
    ensures SubmittedTo(submitted + [(domain, write)], d)
         == flushed + OpenOf(batched[domain := OpenOf(batched, domain) + [write]], d)
  {
    SubmittedExtended(submitted, (domain, write), d);
  }

  lemma BufferKeepsPartition(submitted: seq<(Domain, Write)>, flushes: seq<Flush>, batched: map<Domain, seq<Write>>,
                             domain: Domain, write: Write)
    requires Partitioned(submitted, flushes, batched)
    ensures Partitioned(submitted + [(domain, write)], flushes, batched[domain := OpenOf(batched, domain) + [write]])
  {
    forall d
      ensures SubmittedTo(submitted + [(domain, write)], d)
           == FlushedFor(flushes, d) + OpenOf(batched[domain := OpenOf(batched, domain) + [write]], d)
    {
      BufferedFor(submitted, FlushedFor(flushes, d), batched, domain, write, d);
    }
  }

  lemma SubmitKeepsPartition(config: Config, s: State, domain: Domain, write: Write)
    requires Partitioned(s.submitted, s.flushes, s.batched)
    ensures var t := SubmitTo(config, s, domain, write); Partitioned(t.submitted, t.flushes, t.batched)
  {
    BufferKeepsPartition(s.submitted, s.flushes, s.batched, domain, write);
    var flush := SubmitLocked(config, s.pending, domain, write).1;
    if flush.Some? {
      HandOffKeepsPartition(s.submitted + [(domain, write)], s.flushes, s.batched,
                            Flush(domain, flush.value, OpenOf(s.batched, domain) + [write]));
    }
  }

  lemma PutKeepsBatches(
    pending: map<Domain, Batch>, batched: map<Domain, seq<Write>>, domain: Domain, batch: Batch, writes: seq<Write>)
    requires BatchesOk(pending, batched) && batch == LastWriteWins(map[], writes)
    ensures BatchesOk(pending[domain := batch], batched[domain := writes])
    ensures BatchesOk(pending - {domain}, batched - {domain})
  {
  }

  lemma FlushesExtended(flushes: seq<Flush>, f: Flush)
    requires FlushesOk(flushes) && f.records == LastWriteWins(map[], f.writes)
    ensures FlushesOk(flushes + [f])
  {
  }

  /** The batch that a submission makes is what its submissions amount to. */
  lemma NewBatchReplays(s: State, domain: Domain, write: Write)
    requires BatchesOk(s.pending, s.batched)
    ensures BatchOf(s, domain)[write.key := write.value] == LastWriteWins(map[], OpenOf(s.batched, domain) + [write])
  {
    LastWriteWinsExtended(map[], OpenOf(s.batched, domain), write);
  }

  lemma SubmitKeepsBatches(config: Config, s: State, domain: Domain, write: Write)
    requires BatchesOk(s.pending, s.batched)
    ensures var t := SubmitTo(config, s, domain, write); BatchesOk(t.pending, t.batched)
  {
    NewBatchReplays(s, domain, write);
    PutKeepsBatches(s.pending, s.batched, domain, BatchOf(s, domain)[write.key := write.value],
        OpenOf(s.batched, domain) + [write]);
  }

  lemma SubmitKeepsFlushes(config: Config, s: State, domain: Domain, write: Write)
    requires BatchesOk(s.pending, s.batched) && FlushesOk(s.flushes)
    ensures FlushesOk(SubmitTo(config, s, domain, write).flushes)
  {
    NewBatchReplays(s, domain, write);
    var batch := BatchOf(s, domain)[write.key := write.value];
    FlushesExtended(s.flushes, Flush(domain, batch, OpenOf(s.batched, domain) + [write]));
  }

  lemma CoveredByMore(timers: seq<Timer>, timer: Timer, domain: Domain, deadline: int)
    requires Covered(timers, domain, deadline)
    ensures Covered(timers + [timer], domain, deadline)
  {
    var t :| 0 <= t < |timers| && timers[t].domain == domain && timers[t].due <= deadline;
    assert (timers + [timer])[t] == timers[t];
  }

  lemma NewTimerCovers(config: Config, pending: map<Domain, Batch>, timers: seq<Timer>, since: map<Domain, int>,
                       domain: Domain, batch: Batch, now: int)
    requires TimersOk(config, pending, timers, since) && 0 < |batch| < config.maxKeys
    ensures TimersOk(config, pending[domain := batch], timers + [Timer(domain, now + config.window)],
      since[domain := now])
  {
    var timer := Timer(domain, now + config.window);
    assert (timers + [timer])[|timers|] == timer;
    forall d | d in pending && d != domain ensures Covered(timers + [timer], d, since[d] + config.window) {
      CoveredByMore(timers, timer, d, since[d] + config.window);
    }
  }

  lemma OldTimerCovers(config: Config, pending: map<Domain, Batch>, timers: seq<Timer>, since: map<Domain, int>,
                       domain: Domain, batch: Batch)
    requires TimersOk(config, pending, timers, since)
    ensures domain in pending && 0 < |batch| < config.maxKeys ==>
      TimersOk(config, pending[domain := batch], timers, since)
    ensures TimersOk(config, pending - {domain}, timers, since - {domain})
  {
  }

  lemma FlushKeepsTimers(config: Config, s: State, domain: Domain, write: Write)
    requires TimersOk(config, s.pending, s.timers, s.since)
    requires SubmitLocked(config, s.pending, domain, write).1.Some?
    ensures var t := SubmitTo(config, s, domain, write); TimersOk(config, t.pending, t.timers, t.since)
  {
    OldTimerCovers(config, s.pending, s.timers, s.since, domain, map[]);
  }

  lemma FirstWriteStartsTimer(config: Config, s: State, domain: Domain, write: Write)
    requires TimersOk(config, s.pending, s.timers, s.since)
    requires SubmitLocked(config, s.pending, domain, write).2
    ensures var t := SubmitTo(config, s, domain, write); TimersOk(config, t.pending, t.timers, t.since)
  {
    var batch := BatchOf(s, domain)[write.key := write.value];
    assert write.key in batch;
    NewTimerCovers(config, s.pending, s.timers, s.since, domain, batch, s.now);
  }

  lemma LaterWriteKeepsTimers(config: Config, s: State, domain: Domain, write: Write)
    requires TimersOk(config, s.pending, s.timers, s.since)
    requires var (_, flush, startsTimer) := SubmitLocked(config, s.pending, domain, write); flush.None? && !startsTimer
    ensures var t := SubmitTo(config, s, domain, write); TimersOk(config, t.pending, t.timers, t.since)
  {
    var batch := BatchOf(s, domain)[write.key := write.value];
    assert write.key in batch && domain in s.pending;
    OldTimerCovers(config, s.pending, s.timers, s.since, domain, batch);
  }

  lemma SubmitKeepsTimers(config: Config, s: State, domain: Domain, write: Write)
    requires TimersOk(config, s.pending, s.timers, s.since)
    ensures var t := SubmitTo(config, s, domain, write); TimersOk(config, t.pending, t.timers, t.since)
  {
    var (_, flush, startsTimer) := SubmitLocked(config, s.pending, domain, write);
    if flush.Some? {
      FlushKeepsTimers(config, s, domain, write);
    } else if startsTimer {
      FirstWriteStartsTimer(config, s, domain, write);
    } else {
      LaterWriteKeepsTimers(config, s, domain, write);
    }
  }

  lemma FireKeepsTimers(config: Config, s: State, t: nat)
    requires TimersOk(config, s.pending, s.timers, s.since) && t < |s.timers|
    ensures var after := FireTimer(s, t); TimersOk(config, after.pending, after.timers, after.since)
  {
    var rest := s.timers[..t] + s.timers[t + 1..];
    forall d | d in s.pending && d != s.timers[t].domain ensures Covered(rest, d, s.since[d] + config.window) {
      var k :| 0 <= k < |s.timers| && s.timers[k].domain == d && s.timers[k].due <= s.since[d] + config.window;
      assert rest[if k < t then k else k - 1] == s.timers[k];
    }
  }

  lemma FireKeepsPartition(s: State, t: nat)
    requires Partitioned(s.submitted, s.flushes, s.batched) && t < |s.timers|
    requires s.pending.Keys == s.batched.Keys
    requires s.timers[t].domain in s.pending ==> s.pending[s.timers[t].domain] != map[]
    ensures var after := FireTimer(s, t); Partitioned(after.submitted, after.flushes, after.batched)
  {
    var domain := s.timers[t].domain;
    if domain in s.pending {
      var f := Flush(domain, s.pending[domain], s.batched[domain]);
      assert s.batched[domain := f.writes] == s.batched;
      HandOffKeepsPartition(s.submitted, s.flushes, s.batched, f);
    } else {
      assert s.batched - {domain} == s.batched;
    }
  }

  lemma SubmitKeepsInv(config: Config, s: State, domain: Domain, write: Write)
    requires Inv(config, s)
    ensures Inv(config, SubmitTo(config, s, domain, write))
  {
    SubmitKeepsPartition(config, s, domain, write);
    SubmitKeepsBatches(config, s, domain, write);
    SubmitKeepsFlushes(config, s, domain, write);
    SubmitKeepsTimers(config, s, domain, write);
  }

  lemma FireKeepsInv(config: Config, s: State, t: nat)
    requires Inv(config, s) && t < |s.timers|
    ensures Inv(config, FireTimer(s, t))
  {
    FireKeepsPartition(s, t);
    FireKeepsTimers(config, s, t);
  }

  lemma {:induction false} EveryRunKeepsInv(config: Config, steps: seq<Step>)
    requires Exec(config, steps).Some?
    ensures Inv(config, Exec(config, steps).value)
  {
    if steps != [] {
      var before, step := steps[..|steps| - 1], steps[|steps| - 1];
      EveryRunKeepsInv(config, before);
      var s := Exec(config, before).value;
      match step
      case Submit(domain, write) => SubmitKeepsInv(config, s, domain, write);
      case Fire(t) => FireKeepsInv(config, s, t);
      case Elapse(_) =>
    }
  }

  // ---- What that means ----

  /** Merging a batch into a store is replaying the submissions it was built from. */
  lemma {:induction false} MergeReplays(base: Batch, first: seq<Write>, second: seq<Write>)
    ensures LastWriteWins(base, first + second) == LastWriteWins(base, first) + LastWriteWins(map[], second)
  {
    if second == [] {
      assert first + second == first;
    } else {
      var init, last := second[..|second| - 1], second[|second| - 1];
      MergeReplays(base, first, init);
      assert first + second == (first + init) + [last];
      LastWriteWinsExtended(base, first + init, last);
    }
  }

  lemma {:induction false} CommittedReplays(flushes: seq<Flush>, domain: Domain)
    requires FlushesOk(flushes)
    ensures Committed(flushes, domain) == LastWriteWins(map[], FlushedFor(flushes, domain))
  {
    if flushes != [] {
      var init, last := flushes[..|flushes| - 1], flushes[|flushes| - 1];
      CommittedReplays(init, domain);
      assert last in flushes;
      MergeReplays(map[], FlushedFor(init, domain), last.writes);
      assert FlushedFor(init, domain) + [] == FlushedFor(init, domain);
    }
  }

  /**
   * Nothing is lost, reordered or committed twice: for every interleaving of submissions and
   * timers, committing a domain's batches in order of removal and then what is still buffered
   * gives the last write to every key, and each submission is in exactly one batch.
   */
  lemma NothingIsLost(config: Config, steps: seq<Step>, domain: Domain)
    requires Exec(config, steps).Some?
    ensures var s := Exec(config, steps).value;
            && Committed(s.flushes, domain) + BatchOf(s, domain) ==
                LastWriteWins(map[], SubmittedTo(s.submitted, domain))
            && SubmittedTo(s.submitted, domain) == FlushedFor(s.flushes, domain) + OpenOf(s.batched, domain)
  {
    EveryRunKeepsInv(config, steps);
    var s := Exec(config, steps).value;
    CommittedReplays(s.flushes, domain);
    MergeReplays(map[], FlushedFor(s.flushes, domain), OpenOf(s.batched, domain));
  }

  /**
   * Bounded delay: in every reachable state a buffered domain has between one and max_keys - 1
   * keys, and a sleeping timer due no later than one window after the first write of its batch,
   * whatever timers earlier batches left behind.
   */
  lemma EveryBatchHasATimer(config: Config, steps: seq<Step>, domain: Domain) returns (t: nat)
    requires Exec(config, steps).Some? && domain in Exec(config, steps).value.pending
    ensures var s := Exec(config, steps).value;
            && 0 < |s.pending[domain]| < config.maxKeys
            && t < |s.timers| && s.timers[t].domain == domain
            && domain in s.since && s.timers[t].due <= s.since[domain] + config.window
  {
    EveryRunKeepsInv(config, steps);
    var s := Exec(config, steps).value;
    assert Covered(s.timers, domain, s.since[domain] + config.window);
    t :| 0 <= t < |s.timers| && s.timers[t].domain == domain && s.timers[t].due <= s.since[domain] + config.window;
  }

  // ---- When writes are handed off, and when they are not ----

  /** The keys a domain would have buffered with one more write. */
  function KeysWith(pending: map<Domain, Batch>, domain: Domain, write: Write): set<Key> {
    (if domain in pending then pending[domain].Keys else {}) + {write.key}
  }

  lemma KeysOfBatch(batch: Batch, write: Write)
    ensures batch[write.key := write.value].Keys == batch.Keys + {write.key}
    ensures |batch[write.key := write.value]| == |batch.Keys + {write.key}|
  {
    var longer := batch[write.key := write.value];
    assert longer.Keys == batch.Keys + {write.key};
    assert |longer| == |longer.Keys|;
  }

  ghost predicate NoneEmpty(pending: map<Domain, Batch>) {
    forall d <- pending :: pending[d] != map[]
  }

  /** The write makes the batch full, or else, as the first of its domain, asks for a timer. */
  lemma SubmissionIsExact(config: Config, pending: map<Domain, Batch>, domain: Domain, write: Write)
    requires NoneEmpty(pending)
    ensures var (_, flush, startsTimer) := SubmitLocked(config, pending, domain, write);
            var full := |KeysWith(pending, domain, write)| >= config.maxKeys;
            (flush.Some? <==> full) && (startsTimer <==> !full && domain !in pending)
  {
    KeysOfBatch(if domain in pending then pending[domain] else map[], write);
  }

  /** A full batch is taken out, one that is not stays, each with the write; other domains are untouched. */
  lemma BatchIsExact(config: Config, pending: map<Domain, Batch>, domain: Domain, write: Write)
    ensures var (after, flush, _) := SubmitLocked(config, pending, domain, write);
            var batch := if flush.Some? then flush else if domain in after then Some(after[domain]) else None;
            && (flush.Some? <==> domain !in after)
            && batch.Some? && batch.value.Keys == KeysWith(pending, domain, write) &&
                batch.value[write.key] == write.value
            && (forall key <- batch.value | key != write.key ::
                  domain in pending && key in pending[domain] && batch.value[key] == pending[domain][key])
            && (forall d | d != domain :: (d in after <==> d in pending) && (d in pending ==> after[d] == pending[d]))
  {
    KeysOfBatch(if domain in pending then pending[domain] else map[], write);
  }

  lemma BuffersAreNotEmpty(config: Config, steps: seq<Step>)
    requires Exec(config, steps).Some?
    ensures NoneEmpty(Exec(config, steps).value.pending)
  {
    EveryRunKeepsInv(config, steps);
  }

  /** The write makes its domain's batch full. */
  ghost predicate Fills(config: Config, pending: map<Domain, Batch>, domain: Domain, write: Write) {
    |KeysWith(pending, domain, write)| >= config.maxKeys
  }

  /** A write hands a batch off exactly when it makes it full. */
  lemma HandOffOf(config: Config, s: State, domain: Domain, write: Write)
    requires NoneEmpty(s.pending)
    ensures var t := SubmitTo(config, s, domain, write);
            && |t.flushes| == |s.flushes| + (if Fills(config, s.pending, domain, write) then 1 else 0)
            && (Fills(config, s.pending, domain, write) ==>
                  && t.flushes[|s.flushes|].domain == domain
                  && t.flushes[|s.flushes|].records.Keys == KeysWith(s.pending, domain, write))
  {
    SubmissionIsExact(config, s.pending, domain, write);
    BatchIsExact(config, s.pending, domain, write);
  }

  /** It sets a timer, for one window later, exactly when it does not and nothing was buffered for its domain. */
  lemma TimerOf(config: Config, s: State, domain: Domain, write: Write)
    requires NoneEmpty(s.pending)
    ensures var t := SubmitTo(config, s, domain, write);
            if !Fills(config, s.pending, domain, write) && domain !in s.pending
            then t.timers == s.timers + [Timer(domain, s.now + config.window)]
            else t.timers == s.timers
  {
    SubmissionIsExact(config, s.pending, domain, write);
  }

  /**
   * What a submission does: it hands off exactly the batch it fills, and sets a timer, for one window
   * later, exactly when it fills none and nothing was buffered for its domain.
   */
  ghost predicate SubmitsExactly(config: Config, s: State, domain: Domain, write: Write) {
    var t, keys := SubmitTo(config, s, domain, write), KeysWith(s.pending, domain, write);
    && (|t.flushes| > |s.flushes| <==> |keys| >= config.maxKeys)
    && (|t.timers| > |s.timers| <==> |keys| < config.maxKeys && domain !in s.pending)
    && (|t.timers| > |s.timers| ==> t.timers == s.timers + [Timer(domain, s.now + config.window)])
  }

  lemma SubmissionOf(config: Config, s: State, domain: Domain, write: Write)
    requires NoneEmpty(s.pending)
    ensures SubmitsExactly(config, s, domain, write)
  {
    HandOffOf(config, s, domain, write);
    TimerOf(config, s, domain, write);
  }

  /** From every state that a run reaches. */
  lemma SubmissionInARun(config: Config, steps: seq<Step>, domain: Domain, write: Write)
    requires Exec(config, steps).Some?
    ensures SubmitsExactly(config, Exec(config, steps).value, domain, write)
  {
    BuffersAreNotEmpty(config, steps);
    SubmissionOf(config, Exec(config, steps).value, domain, write);
  }

  /** Step k of a run is the first write to a domain with nothing buffered, and the timer is due one window later. */
  ghost predicate StartedBy(config: Config, steps: seq<Step>, k: nat, timer: Timer) {
    && k < |steps| && steps[k].Submit? && steps[k].domain == timer.domain
    && Exec(config, steps[..k]).Some?
    && timer.domain !in Exec(config, steps[..k]).value.pending
    && timer.due == Exec(config, steps[..k]).value.now + config.window
  }

  lemma StillStarted(config: Config, steps: seq<Step>, step: Step, k: nat, timer: Timer)
    requires StartedBy(config, steps, k, timer)
    ensures StartedBy(config, steps + [step], k, timer)
  {
    assert (steps + [step])[..k] == steps[..k];
  }

  /** A timer was there before a step, or the step is the write that started it. */
  ghost predicate WasThereOrStarts(config: Config, s: State, step: Step, timer: Timer, before: nat) {
    if before < |s.timers| then timer == s.timers[before] else
    && step.Submit? && step.domain == timer.domain && timer.domain !in s.pending
    && timer.due == s.now + config.window
  }

  lemma TimerBefore(config: Config, s: State, step: Step, t: nat) returns (before: nat)
    requires NoneEmpty(s.pending) && Enabled(s, step) && t < |Apply(config, s, step).timers|
    ensures WasThereOrStarts(config, s, step, Apply(config, s, step).timers[t], before)
  {
    before := t;
    if step.Fire? {
      before := TimerBeforeFiring(config, s, step.timer, t);
    } else if step.Submit? {
      TimerBeforeSubmission(config, s, step.domain, step.write, t);
    }
  }

  lemma TimerBeforeFiring(config: Config, s: State, fired: nat, t: nat) returns (before: nat)
    requires fired < |s.timers| && t < |FireTimer(s, fired).timers|
    ensures WasThereOrStarts(config, s, Fire(fired), FireTimer(s, fired).timers[t], before)
  {
    before := if t < fired then t else t + 1;
    assert FireTimer(s, fired).timers == s.timers[..fired] + s.timers[fired + 1..];
  }

  lemma TimerBeforeSubmission(config: Config, s: State, domain: Domain, write: Write, t: nat)
    requires NoneEmpty(s.pending) && t < |SubmitTo(config, s, domain, write).timers|
    ensures WasThereOrStarts(config, s, Submit(domain, write), SubmitTo(config, s, domain, write).timers[t], t)
  {
    TimerOf(config, s, domain, write);
  }

  lemma RunBefore(config: Config, steps: seq<Step>)
    requires Exec(config, steps).Some? && steps != []
    ensures var init, step := steps[..|steps| - 1], steps[|steps| - 1];
            && Exec(config, init).Some? && Enabled(Exec(config, init).value, step)
            && Exec(config, steps) == Some(Apply(config, Exec(config, init).value, step))
  {
  }

  /** Every sleeping timer was started by some such write, and is due exactly one window after it. */
  lemma {:induction false} EveryTimerWasStarted(config: Config, steps: seq<Step>, t: nat) returns (k: nat)
    requires Exec(config, steps).Some? && t < |Exec(config, steps).value.timers|
    ensures StartedBy(config, steps, k, Exec(config, steps).value.timers[t])
    decreases |steps|
  {
    var init, step := steps[..|steps| - 1], steps[|steps| - 1];
    assert steps == init + [step];
    RunBefore(config, steps);
    var s := Exec(config, init).value;
    BuffersAreNotEmpty(config, init);
    var before := TimerBefore(config, s, step, t);
    if before < |s.timers| {
      k := EveryTimerWasStarted(config, init, before);
      StillStarted(config, init, step, k, s.timers[before]);
    } else {
      k := |init|;
      StartedLast(config, init, step, Apply(config, s, step).timers[t]);
    }
  }

  lemma StartedLast(config: Config, init: seq<Step>, step: Step, timer: Timer)
    requires Exec(config, init).Some? && step.Submit? && step.domain == timer.domain
    requires timer.domain !in Exec(config, init).value.pending &&
      timer.due == Exec(config, init).value.now + config.window
    ensures StartedBy(config, init + [step], |init|, timer)
  {
    assert (init + [step])[..|init|] == init;
  }

  /**
   * Writes are debounced: a batch of fewer than max_keys keys is handed off by a timer and nothing
   * else, no earlier than one window after the first write of some batch of its domain.
   */
  lemma SmallBatchesWait(config: Config, steps: seq<Step>, step: Step) returns (k: nat)
    requires Exec(config, steps).Some? && Enabled(Exec(config, steps).value, step)
    requires var s, t := Exec(config, steps).value, Apply(config, Exec(config, steps).value, step);
             |t.flushes| > |s.flushes| && |t.flushes[|t.flushes| - 1].records| < config.maxKeys
    ensures var s, t := Exec(config, steps).value, Apply(config, Exec(config, steps).value, step);
            && step.Fire? && s.timers[step.timer].domain == t.flushes[|s.flushes|].domain
            && StartedBy(config, steps, k, s.timers[step.timer])
            && Exec(config, steps[..k]).value.now + config.window <= s.now
  {
    var s := Exec(config, steps).value;
    if step.Submit? {
      BuffersAreNotEmpty(config, steps);
      HandOffOf(config, s, step.domain, step.write);
      KeysOfBatch(if step.domain in s.pending then s.pending[step.domain] else map[], step.write);
    } else {
      k := EveryTimerWasStarted(config, steps, step.timer);
    }
  }

  /**
   * From every state a run reaches: after one window, a timer of each buffered domain may fire, and
   * hands its batch off.
   */
  lemma BufferedIsFlushedInTime(config: Config, steps: seq<Step>, domain: Domain) returns (t: nat)
    requires Exec(config, steps).Some? && domain in Exec(config, steps).value.pending
    ensures var s := Exec(config, steps).value;
            var later := s.(now := s.now + config.window);
            && domain in s.since && s.since[domain] <= s.now
            && Enabled(s, Elapse(config.window)) && Apply(config, s, Elapse(config.window)) == later
            && Enabled(later, Fire(t))
            && var fired := Apply(config, later, Fire(t));
               && domain !in fired.pending && |fired.flushes| == |s.flushes| + 1
               && fired.flushes[|s.flushes|].domain == domain && fired.flushes[|s.flushes|].records == s.pending[domain]
  {
    t := EveryBatchHasATimer(config, steps, domain);
    SinceIsPast(config, steps);
    BuffersAreNotEmpty(config, steps);
    var s := Exec(config, steps).value;
    FiringFlushes(config, s.(now := s.now + config.window), t);
  }

  /** A timer whose domain has something buffered hands exactly that off. */
  lemma FiringFlushes(config: Config, s: State, t: nat)
    requires t < |s.timers| && s.timers[t].due <= s.now && NoneEmpty(s.pending) && s.timers[t].domain in s.pending
    ensures Enabled(s, Fire(t))
    ensures var fired, domain := Apply(config, s, Fire(t)), s.timers[t].domain;
            && domain !in fired.pending && |fired.flushes| == |s.flushes| + 1
            && fired.flushes[|s.flushes|].domain == domain && fired.flushes[|s.flushes|].records == s.pending[domain]
  {
  }

  lemma {:induction false} SinceIsPast(config: Config, steps: seq<Step>)
    requires Exec(config, steps).Some?
    ensures IsPast(Exec(config, steps).value)
  {
    if steps != [] {
      RunBefore(config, steps);
      SinceIsPast(config, steps[..|steps| - 1]);
      StepKeepsPast(config, Exec(config, steps[..|steps| - 1]).value, steps[|steps| - 1]);
    }
  }

  ghost predicate IsPast(s: State) {
    forall d <- s.since :: s.since[d] <= s.now
  }

  lemma StepKeepsPast(config: Config, s: State, step: Step)
    requires IsPast(s) && Enabled(s, step)
    ensures IsPast(Apply(config, s, step))
  {
  }
}
