/** The pool of HTTP/3 connections: one per domain, least recently used first to go. */
module Pool {
  import opened Wrappers

  /** A domain name and a connection handle: compared and stored, never looked into. */
  type Domain(==, !new)
  type Client(==, !new)

  datatype Entry = Entry(client: Client, lastUsed: int)

  type Connections = map<Domain, Entry>

  datatype Limits = Limits(maxIdle: nat, maxPoolSize: nat)

  /** `Instant::duration_since`, which is zero for an instant in the future. */
  function DurationSince(now: int, earlier: int): nat {
    if now < earlier then 0 else now - earlier
  }

  predicate IsIdle(entry: Entry, now: int, maxIdle: nat) {
    DurationSince(now, entry.lastUsed) >= maxIdle
  }

  /** The entries that are not idle. */
  function Young(connections: Connections, now: int, maxIdle: nat): Connections {
    map d | d in connections && !IsIdle(connections[d], now, maxIdle) :: connections[d]
  }

  /** `after` is `before` without some of its entries, none of them more recently used than one that stayed. */
  ghost predicate LruPruned(before: Connections, after: Connections) {
    && after.Keys <= before.Keys
    && (forall d <- after :: after[d] == before[d])
    && (forall d, other | d in before && d !in after && other in after :: before[d].lastUsed <= before[other].lastUsed)
  }

  /** Room is made: idle entries go, then as many of the least recently used as leave one slot free. */
  ghost predicate RoomMade(limits: Limits, before: Connections, after: Connections, now: int) {
    var young := Young(before, now, limits.maxIdle);
    && LruPruned(young, after)
    && |after| == if |young| < limits.maxPoolSize then |young| else if limits.maxPoolSize == 0 then 0
        else limits.maxPoolSize - 1
  }

  datatype Request = Get(domain: Domain, connected: Option<Client>, now: int, later: int) | Drop(domain: Domain)

  /**
   * What a request does to the pool. A hit refreshes its entry; a miss makes room and then connects,
   * and only a handshake that succeeds (`connected`) adds an entry.
   */
  ghost predicate Served(limits: Limits, before: Connections, after: Connections, request: Request) {
    match request
    case Drop(domain) => after == before - {domain}
    case Get(domain, connected, now, later) =>
      if domain in before then after == before[domain := before[domain].(lastUsed := now)]
      else
        exists kept ::
          && RoomMade(limits, before, kept, now)
          && after == if connected.Some? then kept[domain := Entry(connected.value, later)] else kept
  }

  class H3ConnectionPool {
    var connections: Connections
    const limits: Limits

    constructor (limits: Limits)
      ensures connections == map[] && this.limits == limits
    {
      connections := map[];
      this.limits := limits;
    }

    /** The least recently used entry. */
    method LeastRecentlyUsed() returns (lru: Domain)
      requires connections != map[]
      ensures lru in connections && forall d <- connections :: connections[lru].lastUsed <= connections[d].lastUsed
    {
      lru :| lru in connections;
      var rest := connections.Keys - {lru};
      while rest != {}
        invariant lru in connections && rest <= connections.Keys
        invariant forall d | d in connections && d !in rest :: connections[lru].lastUsed <= connections[d].lastUsed
        decreases rest
      {
        var d :| d in rest;
        if connections[d].lastUsed < connections[lru].lastUsed {
          lru := d;
        }
        rest := rest - {d};
      }
    }

    method MakeRoom(now: int)
      modifies this
      ensures RoomMade(limits, old(connections), connections, now)
    {
      connections := map d | d in connections && !IsIdle(connections[d], now, limits.maxIdle) :: connections[d];
      ghost var young := connections;
      assert young == Young(old(connections), now, limits.maxIdle);
      while |connections| >= limits.maxPoolSize && connections != map[]
        invariant LruPruned(young, connections)
        invariant |connections| <= |young|
        invariant connections == young || |connections| + 1 >= limits.maxPoolSize
        decreases |connections|
      {
        var lru := LeastRecentlyUsed();
        WithoutOne(connections, lru);
        connections := connections - {lru};
      }
    }

    method GetOrConnect(
      domain: Domain, connected: Option<Client>, now: int, later: int) returns (client: Option<Client>)
      modifies this
      ensures Served(limits, old(connections), connections, Get(domain, connected, now, later))
      ensures client == if domain in old(connections) then Some(old(connections)[domain].client) else connected
    {
      if domain in connections {
        client := Some(connections[domain].client);
        connections := connections[domain := connections[domain].(lastUsed := now)];
        return;
      }
      MakeRoom(now);
      client := connected;
      if connected.Some? {
        connections := connections[domain := Entry(connected.value, later)];
      }
    }

    method Evict(domain: Domain)
      modifies this
      ensures Served(limits, old(connections), connections, Drop(domain))
    {
      connections := connections - {domain};
    }
  }

  lemma WithoutOne(connections: Connections, domain: Domain)
    ensures |connections - {domain}| == |connections| - if domain in connections then 1 else 0
  {
    assert connections.Keys - {domain} == (connections - {domain}).Keys;
  }

  lemma WithOne(connections: Connections, domain: Domain, entry: Entry)
    ensures |connections[domain := entry]| == |connections| + if domain in connections then 0 else 1
  {
    assert connections[domain := entry].Keys == connections.Keys + {domain};
  }

  /** What making room drops was idle past the limit, or no more recently used than everything that stayed. */
  lemma DroppedForAReason(limits: Limits, before: Connections, after: Connections, now: int, d: Domain)
    requires RoomMade(limits, before, after, now) && d in before && d !in after
    ensures IsIdle(before[d], now, limits.maxIdle) ||
      forall other <- after :: before[d].lastUsed <= after[other].lastUsed
    ensures forall other <- after ::
      other in before && after[other] == before[other] && !IsIdle(after[other], now, limits.maxIdle)
  {
    var young := Young(before, now, limits.maxIdle);
    assert d in young || IsIdle(before[d], now, limits.maxIdle);
  }

  lemma RequestKeepsLimit(limits: Limits, before: Connections, after: Connections, request: Request)
    requires limits.maxPoolSize >= 1 && |before| <= limits.maxPoolSize && Served(limits, before, after, request)
    ensures |after| <= limits.maxPoolSize
  {
    match request
    case Drop(domain) => WithoutOne(before, domain);
    case Get(domain, connected, now, later) =>
      if domain in before {
        WithOne(before, domain, before[domain].(lastUsed := now));
      } else {
        var kept :| RoomMade(limits, before, kept, now)
          && after == if connected.Some? then kept[domain := Entry(connected.value, later)] else kept;
        if connected.Some? {
          WithOne(kept, domain, Entry(connected.value, later));
        }
      }
  }

  /** A run of the pool from empty. */
  ghost predicate IsRun(limits: Limits, states: seq<Connections>, requests: seq<Request>) {
    && |states| == |requests| + 1 && states[0] == map[]
    && forall k | 0 <= k < |requests| :: Served(limits, states[k], states[k + 1], requests[k])
  }

  /** The pool never holds more than its limit, whatever is asked of it and whichever handshakes fail. */
  lemma {:induction false} EveryRunIsBounded(limits: Limits, states: seq<Connections>, requests: seq<Request>, k: nat)
    requires limits.maxPoolSize >= 1 && IsRun(limits, states, requests) && k < |states|
    ensures |states[k]| <= limits.maxPoolSize
  {
    if k > 0 {
      EveryRunIsBounded(limits, states, requests, k - 1);
      RequestKeepsLimit(limits, states[k - 1], states[k], requests[k - 1]);
    }
  }

  /** With a limit of zero the first handshake that succeeds exceeds it: a limit of at least one is needed. */
  lemma ZeroLimitIsExceeded(limits: Limits, domain: Domain, client: Client, now: int, later: int, after: Connections)
    requires limits.maxPoolSize == 0 && Served(limits, map[], after, Get(domain, Some(client), now, later))
    ensures |after| == 1 > limits.maxPoolSize
  {
    var kept :| RoomMade(limits, map[], kept, now) && after == kept[domain := Entry(client, later)];
    assert kept == map[];
    WithOne(kept, domain, Entry(client, later));
  }

  // ---- In so many words ----

  /** An entry has not been used for the given time. */
  ghost predicate UnusedFor(entry: Entry, now: int, time: nat) {
    time == 0 || entry.lastUsed + time <= now
  }

  /**
   * Making room: every entry not used for the limit goes; of the others, the least recently used, and
   * no more than it takes to have one slot free; all that stays, stays as it was.
   */
  lemma RoomIsExact(limits: Limits, before: Connections, after: Connections, now: int)
    requires RoomMade(limits, before, after, now)
    ensures forall d <- after :: d in before && after[d] == before[d] && !UnusedFor(after[d], now, limits.maxIdle)
    ensures limits.maxPoolSize >= 1 ==> |after| < limits.maxPoolSize
    ensures forall d | d in before && d !in after && !UnusedFor(before[d], now, limits.maxIdle) ::
      && (limits.maxPoolSize >= 1 ==> |after| == limits.maxPoolSize - 1)
      && forall other <- after :: before[d].lastUsed <= before[other].lastUsed
  {
    var young := Young(before, now, limits.maxIdle);
    forall d | d in before && d !in after && !UnusedFor(before[d], now, limits.maxIdle)
      ensures limits.maxPoolSize >= 1 ==> |after| == limits.maxPoolSize - 1
    {
      assert d in young;
      SmallerWithout(young, after, d);
    }
  }

  lemma SmallerWithout(young: Connections, after: Connections, d: Domain)
    requires d in young && d !in after && after.Keys <= young.Keys
    ensures |after| < |young|
  {
    assert |after.Keys| <= |young.Keys - {d}| by {
      SubsetSize(after.Keys, young.Keys - {d});
    }
    assert |after| == |after.Keys| && |young| == |young.Keys|;
  }

  lemma {:induction false} SubsetSize(a: set<Domain>, b: set<Domain>)
    requires a <= b
    ensures |a| <= |b|
  {
    if a != {} {
      var x :| x in a;
      SubsetSize(a - {x}, b - {x});
    }
  }

  /**
   * A hit refreshes its entry and nothing else; a handshake adds one, of its own time, or none;
   * eviction takes one out.
   */
  lemma RequestIsExact(limits: Limits, before: Connections, after: Connections, request: Request)
    requires Served(limits, before, after, request)
    ensures match request
            case Drop(domain) => domain !in after && after.Keys == before.Keys - {domain}
            case Get(domain, connected, now, later) =>
              if domain in before then
                after.Keys == before.Keys && after[domain].client == before[domain].client &&
                    after[domain].lastUsed == now
              else
                && (domain in after <==> connected.Some?)
                && (connected.Some? ==> after[domain].client == connected.value && after[domain].lastUsed == later)
                && after.Keys <= before.Keys + {domain}
    ensures forall d <- after | d != request.domain :: d in before && after[d] == before[d]
  {
  }
}
