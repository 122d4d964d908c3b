/** Storage quotas: one ledger of bytes per origin, shared by the policies of every tab. */
module Quota {
  import opened Wrappers

  /** The storage identity of an origin. */
  type Origin(==, !new)

  const QUOTA_REMOTE := 512 * 1024
  const QUOTA_LOCAL_FILE := 1024 * 1024
  const QUOTA_LOCALHOST := 10 * 1024 * 1024
  const WRITES_PER_WINDOW := 10

  /** The clock counts nanoseconds. */
  const SECOND := 1_000_000_000

  const USIZE_MAX := 0xFFFF_FFFF_FFFF_FFFF

  type Usize = n: int | 0 <= n <= USIZE_MAX

  function SaturatingAdd(a: Usize, b: Usize): Usize {
    if a + b > USIZE_MAX then USIZE_MAX else a + b
  }

  /** What kind of origin a document's URL has. */
  datatype Tier = LocalFile | Localhost | Remote {
    function Bytes(): Usize {
      match this
      case LocalFile => QUOTA_LOCAL_FILE
      case Localhost => QUOTA_LOCALHOST
      case Remote => QUOTA_REMOTE
    }
  }

  datatype Denial = RateLimited | OverQuota(total: Usize, quota: Usize)

  /** The decision of one write: the origin's total, the count of the window, and the verdict. */
  datatype Decision = Decision(total: Usize, count: nat, verdict: Result<(), Denial>)

  function Decide(total: Usize, quota: Usize, count: nat, windowExpired: bool, bytes: Usize): Decision {
    var count' := if windowExpired then 0 else count;
    if count' >= WRITES_PER_WINDOW then Decision(total, count', Err(RateLimited))
    else if SaturatingAdd(total, bytes) > quota then Decision(total, count',
        Err(OverQuota(SaturatingAdd(total, bytes), quota)))
    else Decision(SaturatingAdd(total, bytes), count' + 1, Ok(()))
  }

  // ---- The objects ----

  class StorageUsageLedger {
    var used: map<Origin, Usize>

    constructor ()
      ensures used == map[]
    {
      used := map[];
    }

    function BytesUsed(origin: Origin): Usize
      reads this
    {
      if origin in used then used[origin] else 0
    }
  }

  class CapabilityPolicy {
    const originKey: Origin
    const ledger: StorageUsageLedger
    const quotaBytes: Usize
    var writeCountThisSecond: nat
    var windowStart: int

    constructor (tier: Tier, originKey: Origin, ledger: StorageUsageLedger, now: int)
      ensures this.originKey == originKey && this.ledger == ledger && quotaBytes == tier.Bytes()
      ensures View() == Policy(originKey, tier.Bytes(), 0, now)
    {
      this.originKey, this.ledger, quotaBytes := originKey, ledger, tier.Bytes();
      writeCountThisSecond, windowStart := 0, now;
    }

    function View(): Policy
      reads this
    {
      Policy(originKey, quotaBytes, writeCountThisSecond, windowStart)
    }

    /** One write, with the two readings of the clock that it takes. */
    method CheckStorageWrite(byteCount: Usize, now: int, later: int) returns (verdict: Result<(), Denial>)
      modifies this, ledger
      ensures var d := Checked(old(View()), old(ledger.BytesUsed(originKey)), byteCount, now, later);
              View() == d.0 && verdict == d.2 && ledger.used == old(ledger.used)[originKey := d.1]
    {
      var windowExpired := now - windowStart >= SECOND;
      if windowExpired {
        windowStart := later;
      }
      if originKey !in ledger.used {
        ledger.used := ledger.used[originKey := 0];
      }
      var total, count, v := CheckWriteBudget(ledger.used[originKey], quotaBytes, writeCountThisSecond, windowExpired,
          byteCount);
      ledger.used := ledger.used[originKey := total];
      writeCountThisSecond := count;
      verdict := v;
    }

    static method CheckWriteBudget(
      bytesStored: Usize, quotaBytes: Usize, writeCount: nat, windowExpired: bool, byteCount: Usize)
      returns (total: Usize, count: nat, verdict: Result<(), Denial>)
      ensures Decision(total, count, verdict) == Decide(bytesStored, quotaBytes, writeCount, windowExpired, byteCount)
      ensures verdict.Ok? ==> total <= quotaBytes && 0 < count <= WRITES_PER_WINDOW
      ensures verdict.Err? ==> total == bytesStored && (!windowExpired ==> count == writeCount)
    {
      total, count := bytesStored, writeCount;
      if windowExpired {
        count := 0;
      }
      if count >= WRITES_PER_WINDOW {
        return total, count, Err(RateLimited);
      }
      var newTotal := SaturatingAdd(total, byteCount);
      if newTotal > quotaBytes {
        return total, count, Err(OverQuota(newTotal, quotaBytes));
      }
      return newTotal, count + 1, Ok(());
    }
  }

  // ---- Any number of policies over one ledger ----

  datatype Policy = Policy(origin: Origin, quota: Usize, count: nat, windowStart: int)

  /** One write on a policy: the policy afterwards, its origin's total, and the verdict. */
  function Checked(
    policy: Policy, total: Usize, bytes: Usize, now: int, later: int): (Policy, Usize, Result<(), Denial>) {
    var windowExpired := now - policy.windowStart >= SECOND;
    var d := Decide(total, policy.quota, policy.count, windowExpired, bytes);
    (policy.(count := d.count, windowStart := if windowExpired then later else policy.windowStart), d.total, d.verdict)
  }

  /** An accepted write, and the origin and quota of the policy that accepted it. */
  datatype Accepted = Accepted(origin: Origin, quota: Usize, bytes: Usize)

  /** A window of a policy: the clock reading at which it began, and those at which writes were accepted in it. */
  datatype Window = Window(turn: int, at: seq<int>)

  /** `accepted` and `windows`, which holds each policy's windows, are history values: no step branches on them. */
  datatype State = State(used: map<Origin, Usize>, policies: seq<Policy>, now: int, accepted: seq<Accepted>,
                         windows: seq<seq<Window>>)

  /** A tab opens or navigates, or a document writes after some time, `lag` passing between the two clock readings. */
  datatype Step = Open(tier: Tier, origin: Origin) | Write(policy: nat, bytes: Usize, wait: nat, lag: nat)

  function Total(used: map<Origin, Usize>, origin: Origin): Usize {
    if origin in used then used[origin] else 0
  }

  predicate Enabled(s: State, step: Step) {
    |s.windows| == |s.policies| && (step.Write? ==> step.policy < |s.policies|)
  }

  function Apply(s: State, step: Step): State
    requires Enabled(s, step)
  {
    match step
    case Open(tier, origin) =>
      s.(policies := s.policies + [Policy(origin, tier.Bytes(), 0, s.now)],
          windows := s.windows + [[Window(s.now, [])]])
    case Write(p, bytes, wait, lag) =>
      var policy := s.policies[p];
      var now := s.now + wait;
      var (policy', total, verdict) := Checked(policy, Total(s.used, policy.origin), bytes, now, now + lag);
      State(s.used[policy.origin := total], s.policies[p := policy'], now + lag,
            if verdict.Ok? then s.accepted + [Accepted(policy.origin, policy.quota, bytes)] else s.accepted,
            s.windows[p := Noted(s.windows[p], policy, now, verdict.Ok?)])
  }

  /** An expired window gives way to a new one, and an accepted write is noted in the current one. */
  function Noted(windows: seq<Window>, policy: Policy, now: int, accepted: bool): seq<Window> {
    var current := if now - policy.windowStart >= SECOND then windows + [Window(now, [])] else windows;
    if accepted then WithWrite(current, now) else current
  }

  function WithWrite(windows: seq<Window>, now: int): seq<Window> {
    if windows == [] then [] else
    var last := windows[|windows| - 1];
    windows[|windows| - 1 := Window(last.turn, last.at + [now])]
  }

  function Exec(steps: seq<Step>): Option<State> {
    if steps == [] then Some(State(map[], [], 0, [], [])) else
    match Exec(steps[..|steps| - 1])
    case None => None
    case Some(s) => if Enabled(s, steps[|steps| - 1]) then Some(Apply(s, steps[|steps| - 1])) else None
  }

  // ---- Conservation ----

  /** The bytes accepted for an origin. */
  function AcceptedBytes(accepted: seq<Accepted>, origin: Origin): nat {
    if accepted == [] then 0 else
    var last := accepted[|accepted| - 1];
    AcceptedBytes(accepted[..|accepted| - 1], origin) + if last.origin == origin then last.bytes else 0
  }

  /** Some policy that wrote to the origin allows its total. */
  ghost predicate Allowed(accepted: seq<Accepted>, origin: Origin, total: nat) {
    total == 0 || exists k :: 0 <= k < |accepted| && accepted[k].origin == origin && total <= accepted[k].quota
  }

  ghost predicate LedgerOk(used: map<Origin, Usize>, accepted: seq<Accepted>) {
    forall origin ::
      && Total(used, origin) == AcceptedBytes(accepted, origin)
      && Allowed(accepted, origin, Total(used, origin))
  }

  ghost predicate QuotasOk(policies: seq<Policy>) {
    forall k | 0 <= k < |policies| :: policies[k].quota <= QUOTA_LOCALHOST
  }

  lemma AcceptedExtended(accepted: seq<Accepted>, a: Accepted, origin: Origin)
    ensures AcceptedBytes(accepted + [a], origin) == AcceptedBytes(accepted, origin) + if a.origin ==
      origin then a.bytes else 0
  {
    assert (accepted + [a])[..|accepted|] == accepted;
  }

  lemma AllowedByMore(accepted: seq<Accepted>, a: Accepted, origin: Origin, total: nat)
    requires Allowed(accepted, origin, total)
    ensures Allowed(accepted + [a], origin, total)
  {
    if total != 0 {
      var k :| 0 <= k < |accepted| && accepted[k].origin == origin && total <= accepted[k].quota;
      assert (accepted + [a])[k] == accepted[k];
    }
  }

  lemma AcceptanceKeepsLedger(used: map<Origin, Usize>, accepted: seq<Accepted>, a: Accepted, total: Usize)
    requires LedgerOk(used, accepted) && total == Total(used, a.origin) + a.bytes <= a.quota
    ensures LedgerOk(used[a.origin := total], accepted + [a])
  {
    forall origin
      ensures Total(used[a.origin := total], origin) == AcceptedBytes(accepted + [a], origin)
      ensures Allowed(accepted + [a], origin, Total(used[a.origin := total], origin))
    {
      AcceptedExtended(accepted, a, origin);
      if origin == a.origin {
        assert (accepted + [a])[|accepted|] == a;
      } else {
        AllowedByMore(accepted, a, origin, Total(used, origin));
      }
    }
  }

  lemma WriteKeepsLedger(s: State, p: nat, bytes: Usize, wait: nat, lag: nat)
    requires LedgerOk(s.used, s.accepted) && QuotasOk(s.policies) && Enabled(s, Write(p, bytes, wait, lag))
    ensures var t := Apply(s, Write(p, bytes, wait, lag)); LedgerOk(t.used, t.accepted)
  {
    var policy := s.policies[p];
    var now := s.now + wait;
    var total := Total(s.used, policy.origin);
    var (_, after, verdict) := Checked(policy, total, bytes, now, now + lag);
    assert policy.quota <= QUOTA_LOCALHOST;
    if verdict.Ok? {
      AcceptanceKeepsLedger(s.used, s.accepted, Accepted(policy.origin, policy.quota, bytes), after);
    } else {
      forall origin ensures Total(s.used[policy.origin := total], origin) == Total(s.used, origin) {
      }
    }
  }

  // ---- Rate ----

  /** At most ten writes to a window, none of them before it began. */
  ghost predicate WindowOk(w: Window) {
    |w.at| <= WRITES_PER_WINDOW && forall a <- w.at :: w.turn <= a
  }

  /** A window begins at least a second after the one before, whose writes are all over by then. */
  ghost predicate Apart(w: Window, later: Window) {
    w.turn + SECOND <= later.turn && forall a <- w.at :: a < later.turn
  }

  ghost predicate Spread(windows: seq<Window>) {
    && (forall i | 0 <= i < |windows| :: WindowOk(windows[i]))
    && (forall i, j | 0 <= i < j < |windows| :: Apart(windows[i], windows[j]))
  }

  /** The last window is the policy's, and no write was accepted a second after it began. */
  ghost predicate WindowsOk(windows: seq<Window>, policy: Policy, now: int) {
    && windows != [] && Spread(windows)
    && policy.count == |windows[|windows| - 1].at|
    && policy.windowStart <= now
    && (forall i | 0 <= i < |windows| :: EndsBefore(windows[i], policy.windowStart))
  }

  ghost predicate EndsBefore(w: Window, windowStart: int) {
    w.turn <= windowStart && forall a <- w.at :: a < windowStart + SECOND
  }

  lemma TurningKeepsWindows(windows: seq<Window>, policy: Policy, before: int, now: int, later: int)
    requires WindowsOk(windows, policy, before) && before <= now <= later && now - policy.windowStart >= SECOND
    ensures WindowsOk(windows + [Window(now, [])], policy.(count := 0, windowStart := later), later)
  {
    var turned := windows + [Window(now, [])];
    forall i | 0 <= i < |windows| ensures Apart(windows[i], Window(now, [])) && EndsBefore(windows[i], later) {
      assert EndsBefore(windows[i], policy.windowStart);
    }
    assert forall i | 0 <= i < |windows| :: turned[i] == windows[i];
  }

  lemma AcceptingKeepsWindows(windows: seq<Window>, policy: Policy, now: int, later: int)
    requires WindowsOk(windows, policy, later) && policy.count < WRITES_PER_WINDOW
    requires windows[|windows| - 1].turn <= now < policy.windowStart + SECOND
    ensures WindowsOk(WithWrite(windows, now), policy.(count := policy.count + 1), later)
  {
    var last, noted := |windows| - 1, WithWrite(windows, now);
    assert forall i | 0 <= i < last :: noted[i] == windows[i];
    assert WindowOk(windows[last]) && EndsBefore(windows[last], policy.windowStart);
    forall i | 0 <= i < last ensures Apart(noted[i], noted[last]) {
      assert Apart(windows[i], windows[last]);
    }
  }

  lemma WriteKeepsWindows(
    windows: seq<Window>, policy: Policy, total: Usize, bytes: Usize, before: int, now: int, later: int)
    requires WindowsOk(windows, policy, before) && before <= now <= later
    ensures var (policy', _, verdict) := Checked(policy, total, bytes, now, later);
            WindowsOk(Noted(windows, policy, now, verdict.Ok?), policy', later)
  {
    var (_, _, verdict) := Checked(policy, total, bytes, now, later);
    var turned, reset := windows, policy;
    assert EndsBefore(windows[|windows| - 1], policy.windowStart);
    if now - policy.windowStart >= SECOND {
      TurningKeepsWindows(windows, policy, before, now, later);
      turned, reset := windows + [Window(now, [])], policy.(count := 0, windowStart := later);
    }
    assert WindowsOk(turned, reset, later);
    if verdict.Ok? {
      AcceptingKeepsWindows(turned, reset, now, later);
    }
  }

  ghost predicate RatesOk(s: State) {
    && |s.windows| == |s.policies|
    && forall p | 0 <= p < |s.policies| :: WindowsOk(s.windows[p], s.policies[p], s.now)
  }

  lemma WriterKeepsWindows(s: State, p: nat, bytes: Usize, wait: nat, lag: nat)
    requires Enabled(s, Write(p, bytes, wait, lag)) && WindowsOk(s.windows[p], s.policies[p], s.now)
    ensures var t := Apply(s, Write(p, bytes, wait, lag)); WindowsOk(t.windows[p], t.policies[p], t.now)
  {
    var now := s.now + wait;
    var total := Total(s.used, s.policies[p].origin);
    WriteKeepsWindows(s.windows[p], s.policies[p], total, bytes, s.now, now, now + lag);
    var t := Apply(s, Write(p, bytes, wait, lag));
    var (policy, _, verdict) := Checked(s.policies[p], total, bytes, now, now + lag);
    assert t.policies[p] == policy && t.now == now + lag;
    assert t.windows[p] == Noted(s.windows[p], s.policies[p], now, verdict.Ok?);
  }

  lemma StepKeepsWindows(s: State, step: Step, p: nat)
    requires Enabled(s, step) && p < |Apply(s, step).policies|
    requires p < |s.policies| ==> WindowsOk(s.windows[p], s.policies[p], s.now)
    ensures var t := Apply(s, step); |t.windows| == |t.policies| && WindowsOk(t.windows[p], t.policies[p], t.now)
  {
    if step.Write? && p == step.policy {
      WriterKeepsWindows(s, p, step.bytes, step.wait, step.lag);
    }
  }

  lemma StepKeepsRates(s: State, step: Step)
    requires RatesOk(s) && Enabled(s, step)
    ensures RatesOk(Apply(s, step))
  {
    var t := Apply(s, step);
    forall p | 0 <= p < |t.policies| ensures WindowsOk(t.windows[p], t.policies[p], t.now) {
      StepKeepsWindows(s, step, p);
    }
  }

  lemma {:induction false} EveryRunKeepsInv(steps: seq<Step>)
    requires Exec(steps).Some?
    ensures var s := Exec(steps).value; LedgerOk(s.used, s.accepted) && QuotasOk(s.policies) && RatesOk(s)
  {
    if steps != [] {
      var before, step := steps[..|steps| - 1], steps[|steps| - 1];
      EveryRunKeepsInv(before);
      var s := Exec(before).value;
      StepKeepsRates(s, step);
      if step.Write? {
        WriteKeepsLedger(s, step.policy, step.bytes, step.wait, step.lag);
      }
    }
  }

  // ---- What that means ----

  /**
   * The quota holds per origin, not per tab or per page load: over any interleaving of any number
   * of policies on one ledger, an origin's total is the sum of the bytes accepted for it, some
   * policy that had a write accepted allows that total, and no step ever lowers it.
   */
  lemma TotalsAreConserved(steps: seq<Step>, origin: Origin)
    requires Exec(steps).Some?
    ensures var s := Exec(steps).value;
            && Total(s.used, origin) == AcceptedBytes(s.accepted, origin)
            && Allowed(s.accepted, origin, Total(s.used, origin))
            && (forall step | Enabled(s, step) :: Total(s.used, origin) <= Total(Apply(s, step).used, origin))
  {
    EveryRunKeepsInv(steps);
    var s := Exec(steps).value;
    forall step | Enabled(s, step) ensures Total(s.used, origin) <= Total(Apply(s, step).used, origin) {
    }
  }

  /** How many of some instants fall into the second that starts at t. */
  function CountIn(at: seq<int>, t: int): (n: nat)
    ensures n <= |at|
  {
    if at == [] then 0 else
    CountIn(at[..|at| - 1], t) + if t <= at[|at| - 1] < t + SECOND then 1 else 0
  }

  lemma {:induction false} SomeIn(at: seq<int>, t: int) returns (a: int)
    requires CountIn(at, t) > 0
    ensures a in at && t <= a < t + SECOND
  {
    a := at[|at| - 1];
    if !(t <= a < t + SECOND) {
      a := SomeIn(at[..|at| - 1], t);
    }
  }

  /** How many writes were accepted in that second. */
  function InSecond(windows: seq<Window>, t: int): nat {
    if windows == [] then 0 else
    InSecond(windows[..|windows| - 1], t) + CountIn(windows[|windows| - 1].at, t)
  }

  lemma {:induction false} NoneInSecond(windows: seq<Window>, t: int)
    requires forall i | 0 <= i < |windows| :: forall a <- windows[i].at :: a < t
    ensures InSecond(windows, t) == 0
  {
    if windows != [] {
      NoneInSecond(windows[..|windows| - 1], t);
      if CountIn(windows[|windows| - 1].at, t) > 0 {
        var a := SomeIn(windows[|windows| - 1].at, t);
      }
    }
  }

  /** No window gave way to another strictly inside the second that starts at t. */
  ghost predicate NoTurnIn(windows: seq<Window>, t: int) {
    forall i | 1 <= i < |windows| :: !(t < windows[i].turn < t + SECOND)
  }

  lemma {:induction false} TenWithoutTurn(windows: seq<Window>, t: int)
    requires Spread(windows) && NoTurnIn(windows, t)
    ensures InSecond(windows, t) <= WRITES_PER_WINDOW
  {
    if windows != [] {
      var init, last := windows[..|windows| - 1], windows[|windows| - 1];
      assert forall i | 0 <= i < |init| :: init[i] == windows[i];
      assert WindowOk(last);
      if CountIn(last.at, t) == 0 || init == [] {
        TenWithoutTurn(init, t);
      } else {
        var a := SomeIn(last.at, t);
        assert windows[|windows| - 1].turn <= t;
        assert forall i | 0 <= i < |init| :: Apart(init[i], last);
        NoneInSecond(init, t);
      }
    }
  }

  lemma {:induction false} TwentyAtMost(windows: seq<Window>, t: int)
    requires Spread(windows)
    ensures InSecond(windows, t) <= 2 * WRITES_PER_WINDOW
  {
    if windows != [] {
      var init, last := windows[..|windows| - 1], windows[|windows| - 1];
      assert forall i | 0 <= i < |init| :: init[i] == windows[i];
      assert WindowOk(last);
      if CountIn(last.at, t) == 0 {
        TwentyAtMost(init, t);
      } else {
        var a := SomeIn(last.at, t);
        assert forall i | 0 <= i < |init| :: Apart(init[i], last);
        TenWithoutTurn(init, t);
      }
    }
  }

  /**
   * A document may burst across a window boundary, but no further: a policy accepts at most ten
   * writes in its current window, and at most twenty in any second whatsoever.
   */
  lemma AtMostTwentyPerSecond(steps: seq<Step>, p: nat, t: int)
    requires Exec(steps).Some? && p < |Exec(steps).value.policies|
    ensures var s := Exec(steps).value;
            && s.policies[p].count <= WRITES_PER_WINDOW
            && |s.windows| == |s.policies|
            && InSecond(s.windows[p], t) <= 2 * WRITES_PER_WINDOW
  {
    EveryRunKeepsInv(steps);
    var s := Exec(steps).value;
    assert WindowsOk(s.windows[p], s.policies[p], s.now);
    assert WindowOk(s.windows[p][|s.windows[p]| - 1]);
    TwentyAtMost(s.windows[p], t);
  }

  /** Ten a second holds in every second of every run inside which no write turned the window. */
  lemma AtMostTenWithoutTurn(steps: seq<Step>, p: nat, t: int)
    requires Exec(steps).Some? && p < |Exec(steps).value.policies|
    ensures var s := Exec(steps).value;
            && |s.windows| == |s.policies|
            && (NoTurnIn(s.windows[p], t) ==> InSecond(s.windows[p], t) <= WRITES_PER_WINDOW)
  {
    EveryRunKeepsInv(steps);
    var s := Exec(steps).value;
    assert WindowsOk(s.windows[p], s.policies[p], s.now);
    if NoTurnIn(s.windows[p], t) {
      TenWithoutTurn(s.windows[p], t);
    }
  }

  // ---- The bound is reached ----

  const EMPTY_WRITE := Write(0, 0, 0, 0)

  function Repeat<T>(x: T, k: nat): (r: seq<T>)
    ensures |r| == k && forall i | 0 <= i < k :: r[i] == x
  {
    if k == 0 then [] else Repeat(x, k - 1) + [x]
  }

  /** There is one policy, with room in its window for the given number of writes. */
  ghost predicate HasRoom(s: State, room: nat) {
    && |s.policies| == 1 && |s.windows| == 1 && s.windows[0] != []
    && s.policies[0].count + room <= WRITES_PER_WINDOW && s.now - s.policies[0].windowStart < SECOND
    && Total(s.used, s.policies[0].origin) <= s.policies[0].quota
  }

  /** What k writes in one instant make of a state. */
  ghost predicate Wrote(s: State, t: State, k: nat) {
    && |s.policies| == |t.policies| == 1 && |s.windows| == |t.windows| == 1 && t.now == s.now && s.windows[0] != []
    && t.policies[0] == s.policies[0].(count := s.policies[0].count + k)
    && t.windows[0] == WithWrites(s.windows[0], s.now, k)
    && Total(t.used, s.policies[0].origin) <= s.policies[0].quota
  }

  function WithWrites(windows: seq<Window>, now: int, k: nat): (r: seq<Window>)
    requires windows != []
    ensures r != []
  {
    var last := windows[|windows| - 1];
    windows[|windows| - 1 := Window(last.turn, last.at + Repeat(now, k))]
  }

  lemma OneEmptyWrite(s: State, t: State, k: nat)
    requires HasRoom(s, k + 1) && Wrote(s, t, k)
    ensures Enabled(t, EMPTY_WRITE) && Wrote(s, Apply(t, EMPTY_WRITE), k + 1)
  {
    OneMoreWrite(s.windows[0], s.now, k);
  }

  lemma OneMoreWrite(windows: seq<Window>, now: int, k: nat)
    requires windows != []
    ensures WithWrites(windows, now, 0) == windows
    ensures WithWrite(WithWrites(windows, now, k), now) == WithWrites(windows, now, k + 1)
  {
    var at := windows[|windows| - 1].at;
    assert at + Repeat(now, 0) == at;
    assert (at + Repeat(now, k)) + [now] == at + Repeat(now, k + 1);
  }

  /** One more step, taken by a run. */
  lemma OneMoreStep(steps: seq<Step>, step: Step)
    requires Exec(steps).Some? && Enabled(Exec(steps).value, step)
    ensures Exec(steps + [step]) == Some(Apply(Exec(steps).value, step))
  {
    assert (steps + [step])[..|steps|] == steps;
  }

  lemma {:induction false} WritesInOneInstant(steps: seq<Step>, k: nat)
    requires Exec(steps).Some? && HasRoom(Exec(steps).value, k)
    ensures var t := Exec(steps + Repeat(EMPTY_WRITE, k)); t.Some? && Wrote(Exec(steps).value, t.value, k)
  {
    if k == 0 {
      assert steps + Repeat(EMPTY_WRITE, 0) == steps;
      OneMoreWrite(Exec(steps).value.windows[0], Exec(steps).value.now, 0);
    } else {
      var before := steps + Repeat(EMPTY_WRITE, k - 1);
      assert steps + Repeat(EMPTY_WRITE, k) == before + [EMPTY_WRITE];
      WritesInOneInstant(steps, k - 1);
      OneEmptyWrite(Exec(steps).value, Exec(before).value, k - 1);
      OneMoreStep(before, EMPTY_WRITE);
    }
  }

  lemma {:induction false} AllIn(x: int, t: int, k: nat)
    requires t <= x < t + SECOND
    ensures CountIn(Repeat(x, k), t) == k
  {
    if k > 0 {
      AllIn(x, t, k - 1);
      assert Repeat(x, k)[..k - 1] == Repeat(x, k - 1) && Repeat(x, k)[k - 1] == x;
    }
  }

  /** The one policy of a run, with full windows. */
  ghost predicate Full(steps: seq<Step>, windowStart: int, now: int, windows: seq<Window>) {
    Exec(steps).Some? && var s := Exec(steps).value;
    && |s.policies| == 1 && |s.windows| == 1 && s.windows[0] == windows != [] && s.now == now
    && s.policies[0].count == WRITES_PER_WINDOW && s.policies[0].windowStart == windowStart
    && Total(s.used, s.policies[0].origin) <= s.policies[0].quota
  }

  /** A write, which may turn the window, and nine more in the same instant. */
  lemma FillWindow(steps: seq<Step>, wait: nat) returns (full: seq<Step>)
    requires Exec(steps).Some? && Enabled(Exec(steps).value, Write(0, 0, wait, 0))
    requires HasRoom(Apply(Exec(steps).value, Write(0, 0, wait, 0)), WRITES_PER_WINDOW - 1)
    ensures Exec(full).Some?
    ensures Wrote(Apply(Exec(steps).value, Write(0, 0, wait, 0)), Exec(full).value, WRITES_PER_WINDOW - 1)
  {
    var first := steps + [Write(0, 0, wait, 0)];
    OneMoreStep(steps, Write(0, 0, wait, 0));
    WritesInOneInstant(first, WRITES_PER_WINDOW - 1);
    full := first + Repeat(EMPTY_WRITE, WRITES_PER_WINDOW - 1);
  }

  lemma FillFirstWindow(origin: Origin, t: nat) returns (full: seq<Step>)
    requires t < SECOND
    ensures Full(full, 0, t, [Window(0, Repeat(t, WRITES_PER_WINDOW))])
  {
    var start := [Open(Remote, origin)];
    OneMoreStep([], start[0]);
    assert [] + start == start;
    FirstWritten(t);
    var s := Exec(start).value;
    assert s == State(map[], [Policy(origin, QUOTA_REMOTE, 0, 0)], 0, [], [[Window(0, [])]]);
    assert Apply(s, Write(0, 0, t, 0)).windows[0] == [Window(0, [t])];
    full := FillWindow(start, t);
  }

  lemma FirstWritten(now: int)
    ensures WithWrite([Window(0, [])], now) == [Window(0, [now])]
    ensures WithWrites([Window(0, [now])], now, WRITES_PER_WINDOW - 1) == [Window(0, Repeat(now, WRITES_PER_WINDOW))]
  {
    LastWritten([], 0, now);
    assert [] + [Window(0, [])] == [Window(0, [])] && [] + [Window(0, [now])] == [Window(0, [now])];
  }

  lemma FillNextWindow(steps: seq<Step>, now: int, windows: seq<Window>) returns (full: seq<Step>)
    requires now <= SECOND && Full(steps, 0, now, windows)
    ensures Full(full, SECOND, SECOND, windows + [Window(SECOND, Repeat(SECOND, WRITES_PER_WINDOW))])
  {
    var s, wait := Exec(steps).value, SECOND - now;
    LastWritten(windows, SECOND, SECOND);
    assert Apply(s, Write(0, 0, wait, 0)).windows[0] == windows + [Window(SECOND, [SECOND])];
    full := FillWindow(steps, wait);
  }

  lemma LastWritten(windows: seq<Window>, turn: int, now: int)
    ensures WithWrite(windows + [Window(turn, [])], now) == windows + [Window(turn, [now])]
    ensures WithWrites(windows + [Window(turn, [now])], now, WRITES_PER_WINDOW - 1) ==
            windows + [Window(turn, Repeat(now, WRITES_PER_WINDOW))]
  {
    assert [] + [now] == [now];
    assert [now] + Repeat(now, WRITES_PER_WINDOW - 1) == Repeat(now, WRITES_PER_WINDOW);
  }

  /**
   * The refusal says "max 10 writes/s", and the code may accept twice as many: wherever inside a
   * second the window turns, ten writes before and ten after may all be accepted in that second.
   */
  lemma TwentyInOneSecond(origin: Origin, d: nat) returns (steps: seq<Step>)
    requires 0 < d < SECOND
    ensures Exec(steps).Some? && |Exec(steps).value.windows| == 1
    ensures var windows, t := Exec(steps).value.windows[0], SECOND - d;
            && |windows| == 2 && windows[1].turn == t + d
            && InSecond(windows, t) == 2 * WRITES_PER_WINDOW
  {
    var t := SECOND - d;
    steps := FillFirstWindow(origin, t);
    var first, second := Window(0, Repeat(t, WRITES_PER_WINDOW)), Window(SECOND, Repeat(SECOND, WRITES_PER_WINDOW));
    steps := FillNextWindow(steps, t, [first]);
    TwoWindows(first, second, t);
    AllIn(t, t, WRITES_PER_WINDOW);
    AllIn(SECOND, t, WRITES_PER_WINDOW);
  }

  lemma TwoWindows(first: Window, second: Window, t: int)
    ensures InSecond([first] + [second], t) == CountIn(first.at, t) + CountIn(second.at, t)
  {
    var windows := [first] + [second];
    assert windows[..1] == [first] && [first][..0] == [];
    assert InSecond([first], t) == CountIn(first.at, t);
  }

  // ---- Which writes are accepted ----

  /** The quotas in bytes. */
  lemma TierQuotas(tier: Tier, origin: Origin, s: State)
    requires Enabled(s, Open(tier, origin))
    ensures var t := Apply(s, Open(tier, origin));
            && |t.policies| == |s.policies| + 1 && s.policies <= t.policies && t.used == s.used
            && t.policies[|s.policies|].origin == origin && t.policies[|s.policies|].count == 0
            && t.policies[|s.policies|].windowStart == s.now
            && t.policies[|s.policies|].quota ==
               match tier case Remote => 524288 case LocalFile => 1048576 case Localhost => 10485760
  {
  }

  /** How many writes the current window of a policy has accepted, at an instant. */
  ghost function AcceptedInWindow(windows: seq<Window>, windowStart: int, now: int): nat {
    if windows == [] || windowStart + 1_000_000_000 <= now then 0 else |windows[|windows| - 1].at|
  }

  /**
   * From every state that a run reaches: a write is accepted if and only if fewer than ten were
   * accepted in the window then current and the bytes fit the quota; it then adds its bytes to its
   * origin's total, and otherwise it changes no total; a second-old window starts anew either way.
   */
  lemma AcceptanceIsExact(steps: seq<Step>, p: nat, bytes: Usize, wait: nat, lag: nat)
    requires Exec(steps).Some? && p < |Exec(steps).value.policies|
    ensures var s := Exec(steps).value;
            && |s.windows| == |s.policies|
            && var t, policy, now := Apply(s, Write(p, bytes, wait, lag)), s.policies[p], s.now + wait;
               var accepted := AcceptedInWindow(s.windows[p], policy.windowStart, now) < 10
                               && Total(s.used, policy.origin) + bytes <= policy.quota;
               && t.accepted == (if accepted then s.accepted + [Accepted(policy.origin, policy.quota, bytes)]
                   else s.accepted)
               && Total(t.used, policy.origin) == Total(s.used, policy.origin) + (if accepted then bytes else 0)
               && (forall origin | origin != policy.origin :: Total(t.used, origin) == Total(s.used, origin))
               && t.policies[p].windowStart ==
                   (if policy.windowStart + 1_000_000_000 <= now then now + lag else policy.windowStart)
  {
    EveryRunKeepsInv(steps);
    var s := Exec(steps).value;
    WriteOfPolicy(s, p, bytes, wait, lag);
  }

  lemma WriteOfPolicy(s: State, p: nat, bytes: Usize, wait: nat, lag: nat)
    requires p < |s.policies| == |s.windows| && QuotasOk(s.policies) && WindowsOk(s.windows[p], s.policies[p], s.now)
    ensures var t, policy, now := Apply(s, Write(p, bytes, wait, lag)), s.policies[p], s.now + wait;
            var accepted := AcceptedInWindow(s.windows[p], policy.windowStart, now) < 10
                            && Total(s.used, policy.origin) + bytes <= policy.quota;
            && t.accepted == (if accepted then s.accepted + [Accepted(policy.origin, policy.quota, bytes)]
                else s.accepted)
            && Total(t.used, policy.origin) == Total(s.used, policy.origin) + (if accepted then bytes else 0)
            && (forall origin | origin != policy.origin :: Total(t.used, origin) == Total(s.used, origin))
            && t.policies[p].windowStart ==
                (if policy.windowStart + 1_000_000_000 <= now then now + lag else policy.windowStart)
  {
    var policy, total, now := s.policies[p], Total(s.used, s.policies[p].origin), s.now + wait;
    DecisionIsExact(policy, total, bytes, now, now + lag);
  }

  lemma DecisionIsExact(policy: Policy, total: Usize, bytes: Usize, now: int, later: int)
    requires policy.quota <= QUOTA_LOCALHOST
    ensures var (after, total', verdict) := Checked(policy, total, bytes, now, later);
            var expired := policy.windowStart + 1_000_000_000 <= now;
            && (verdict.Ok? <==> (expired || policy.count < 10) && total + bytes <= policy.quota)
            && total' == (if verdict.Ok? then total + bytes else total)
            && after.windowStart == (if expired then later else policy.windowStart)
  {
  }
}
