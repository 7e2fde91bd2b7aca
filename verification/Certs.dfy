/** The leaf certificate cache: a map and an insertion order kept in step, bounded in
    size, renewing entries before they expire. Times are nanoseconds. */
module Certs {
  import opened Common

  const SECOND: nat := 1_000_000_000
  const HOUR: nat := 3600 * SECOND
  const RENEW_MARGIN: nat := HOUR
  const LEAF_LIFETIME: nat := 24 * HOUR

  /** The NotAfter of a leaf generated at `now`: certificates store whole seconds. */
  function NotAfterAt(now: nat): nat {
    (now + LEAF_LIFETIME) / SECOND * SECOND
  }

  /** The cached NotAfter of every host, and the hosts in order of generation. */
  datatype State = State(cache: map<string, nat>, order: seq<string>)

  /** One GetOrCreate: the clock is read at `asked` and, if a leaf is generated, again
      at `made`; generation may fail. */
  datatype Call = Call(host: string, asked: nat, made: nat, fails: bool)

  function Remove(order: seq<string>, host: string): seq<string> {
    if order == [] then []
    else if order[0] == host then order[1..]
    else [order[0]] + Remove(order[1..], host)
  }

  predicate IsFresh(s: State, call: Call) {
    call.host in s.cache && call.asked + RENEW_MARGIN < s.cache[call.host]
  }

  /** The state once a stale entry of the host, if any, is dropped. */
  function Dropped(s: State, host: string): State {
    if host in s.cache then State(s.cache - {host}, Remove(s.order, host)) else s
  }

  function Added(s: State, host: string, notAfter: nat): State {
    State(s.cache[host := notAfter], s.order + [host])
  }

  /** The oldest entry goes when the cache is over its bound. */
  function Bounded(s: State, maxSize: nat): State {
    if |s.order| > maxSize then State(s.cache - {s.order[0]}, s.order[1..]) else s
  }

  function Next(s: State, call: Call, maxSize: nat): State {
    if IsFresh(s, call) then s
    else if call.fails then Dropped(s, call.host)
    else Bounded(Added(Dropped(s, call.host), call.host, NotAfterAt(call.made)), maxSize)
  }

  function Answer(s: State, call: Call): Option<nat> {
    if IsFresh(s, call) then Some(s.cache[call.host])
    else if call.fails then None
    else Some(NotAfterAt(call.made))
  }

  // ---- the invariant ----

  ghost predicate InStep(s: State) {
    Distinct(s.order) && Elements(s.order) == s.cache.Keys
  }

  ghost predicate SortedByExpiry(s: State)
    requires InStep(s)
  {
    forall i, j :: 0 <= i < j < |s.order| ==>
      s.order[i] in s.cache && s.order[j] in s.cache && s.cache[s.order[i]] <= s.cache[s.order[j]]
  }

  /** Map and order in step, sorted by expiry, nothing made later than `clock`. */
  ghost predicate Ordered(s: State, clock: nat) {
    InStep(s) && SortedByExpiry(s) && forall h <- s.cache :: s.cache[h] <= NotAfterAt(clock)
  }

  ghost predicate Valid(s: State, clock: nat, maxSize: nat) {
    Ordered(s, clock) && |s.order| <= maxSize
  }

  lemma {:induction false} RemoveFrom(order: seq<string>, host: string)
    requires Distinct(order)
    ensures Distinct(Remove(order, host))
    ensures Elements(Remove(order, host)) == Elements(order) - {host}
    ensures |Remove(order, host)| == |order| - if host in order then 1 else 0
  {
    if order != [] {
      RemoveFrom(order[1..], host);
      assert Elements(order) == {order[0]} + Elements(order[1..]);
      var rest := Remove(order[1..], host);
      if order[0] == host {
        assert host !in order[1..];
      } else {
        assert Elements([order[0]] + rest) == {order[0]} + Elements(rest);
        assert order[0] !in Elements(rest);
      }
    }
  }

  /** Removing a host keeps the others in their order. */
  lemma {:induction false} RemoveKeepsOrder(order: seq<string>, host: string, i: nat, j: nat)
    requires Distinct(order) && i < j < |Remove(order, host)|
    ensures exists a, b :: 0 <= a < b < |order| && order[a] == Remove(order, host)[i] && order[b] == Remove(order, host)[j]
    decreases |order|
  {
    var rest := Remove(order, host);
    if order[0] == host {
      assert order[i + 1] == rest[i] && order[j + 1] == rest[j];
    } else if i > 0 {
      RemoveKeepsOrder(order[1..], host, i - 1, j - 1);
      var a, b :| 0 <= a < b < |order[1..]| && order[1..][a] == rest[i] && order[1..][b] == rest[j];
      assert order[a + 1] == rest[i] && order[b + 1] == rest[j];
    } else {
      RemoveFrom(order[1..], host);
      assert rest[j] in Elements(Remove(order[1..], host));
      var b :| 0 <= b < |order[1..]| && order[1..][b] == rest[j];
      assert order[0] == rest[i] && order[b + 1] == rest[j];
    }
  }

  lemma DropKeepsOrder(s: State, clock: nat, host: string)
    requires Ordered(s, clock)
    ensures Ordered(Dropped(s, host), clock)
    ensures host !in Dropped(s, host).cache
    ensures |Dropped(s, host).order| <= |s.order|
  {
    if host in s.cache {
      RemoveFrom(s.order, host);
      var t := Dropped(s, host);
      forall i, j | 0 <= i < j < |t.order|
        ensures t.order[i] in t.cache && t.order[j] in t.cache && t.cache[t.order[i]] <= t.cache[t.order[j]]
      {
        RemoveKeepsOrder(s.order, host, i, j);
        assert t.order[i] in Elements(t.order) && t.order[j] in Elements(t.order);
      }
    }
  }

  lemma LaterExpiresLater(a: nat, b: nat)
    requires a <= b
    ensures NotAfterAt(a) <= NotAfterAt(b)
  {
    DivMonotonic(a + LEAF_LIFETIME, b + LEAF_LIFETIME);
  }

  lemma DivMonotonic(x: nat, y: nat)
    requires x <= y
    ensures x / SECOND <= y / SECOND
  {
  }

  lemma AddKeepsOrder(s: State, clock: nat, host: string, made: nat)
    requires Ordered(s, clock) && clock <= made && host !in s.cache
    ensures Ordered(Added(s, host, NotAfterAt(made)), made)
  {
    LaterExpiresLater(clock, made);
    var t := Added(s, host, NotAfterAt(made));
    ElementsAppend(s.order, host);
    forall i | 0 <= i < |s.order|
      ensures s.order[i] in s.cache && s.order[i] != host
    {
      assert s.order[i] in Elements(s.order);
    }
  }

  /** The evicted host is one that expires first, the new one included. */
  predicate IsEarliest(s: State, host: string) {
    host in s.cache && forall h <- s.cache :: s.cache[host] <= s.cache[h]
  }

  lemma DistinctTail(order: seq<string>)
    requires Distinct(order) && order != []
    ensures Distinct(order[1..]) && Elements(order[1..]) == Elements(order) - {order[0]}
  {
    assert Elements(order) == {order[0]} + Elements(order[1..]);
    assert order[0] !in order[1..];
  }

  /** Sorted by expiry, the first host expires first. */
  lemma FirstIsEarliest(s: State)
    requires InStep(s) && SortedByExpiry(s) && s.order != []
    ensures IsEarliest(s, s.order[0])
  {
    assert s.order[0] in Elements(s.order);
    forall h | h in s.cache
      ensures s.cache[s.order[0]] <= s.cache[h]
    {
      assert h in Elements(s.order);
      var k :| 0 <= k < |s.order| && s.order[k] == h;
    }
  }

  lemma BoundKeepsOrder(s: State, clock: nat, maxSize: nat)
    requires Ordered(s, clock) && |s.order| <= maxSize + 1
    ensures Valid(Bounded(s, maxSize), clock, maxSize)
    ensures |s.order| > maxSize ==> IsEarliest(s, s.order[0])
  {
    if |s.order| > maxSize {
      FirstIsEarliest(s);
      DistinctTail(s.order);
      var t := Bounded(s, maxSize);
      forall i, j | 0 <= i < j < |t.order|
        ensures t.order[i] in t.cache && t.order[j] in t.cache && t.cache[t.order[i]] <= t.cache[t.order[j]]
      {
        assert t.order[i] == s.order[i + 1] && t.order[j] == s.order[j + 1];
        assert t.order[i] in Elements(t.order) && t.order[j] in Elements(t.order);
      }
    }
  }

  /** One call keeps the invariant, whether or not generation fails, and what it drops
      to stay in bounds expires first. */
  lemma CallKeepsInvariant(s: State, clock: nat, call: Call, maxSize: nat)
    requires Valid(s, clock, maxSize) && clock <= call.asked <= call.made
    ensures Valid(Next(s, call, maxSize), call.made, maxSize)
    ensures !IsFresh(s, call) && !call.fails ==>
              var grown := Added(Dropped(s, call.host), call.host, NotAfterAt(call.made));
              forall h <- grown.cache :: h !in Next(s, call, maxSize).cache ==> IsEarliest(grown, h)
  {
    LaterExpiresLater(clock, call.made);
    if !IsFresh(s, call) {
      DropKeepsOrder(s, clock, call.host);
      if !call.fails {
        AddKeepsOrder(Dropped(s, call.host), clock, call.host, call.made);
        BoundKeepsOrder(Added(Dropped(s, call.host), call.host, NotAfterAt(call.made)), call.made, maxSize);
      }
    }
  }

  /** No certificate handed out expires within the renewal margin. */
  lemma AnswersOutliveMargin(s: State, call: Call)
    requires call.asked <= call.made
    ensures Answer(s, call).Some? ==> Answer(s, call).value > call.asked + RENEW_MARGIN
    ensures Answer(s, call).None? <==> !IsFresh(s, call) && call.fails
  {
    var t := call.made + LEAF_LIFETIME;
    assert t / SECOND * SECOND > t - SECOND;
  }

  // ---- runs ----

  /** Each call starts no earlier than the previous one ended. */
  ghost predicate InTime(calls: seq<Call>, clock: nat) {
    calls == [] || (clock <= calls[0].asked <= calls[0].made && InTime(calls[1..], calls[0].made))
  }

  function Run(s: State, calls: seq<Call>, maxSize: nat): State
    decreases |calls|
  {
    if calls == [] then s else Run(Next(s, calls[0], maxSize), calls[1..], maxSize)
  }

  function LastClock(calls: seq<Call>, clock: nat): nat {
    if calls == [] then clock else calls[|calls| - 1].made
  }

  /** After every run from empty, failures included: the order has no duplicates and
      lists exactly the cached hosts, the size is within bounds, and entries are
      sorted by expiry. */
  lemma {:induction false} InvariantOverRuns(s: State, clock: nat, calls: seq<Call>, maxSize: nat)
    requires Valid(s, clock, maxSize) && InTime(calls, clock)
    ensures Valid(Run(s, calls, maxSize), LastClock(calls, clock), maxSize)
    decreases |calls|
  {
    if calls != [] {
      CallKeepsInvariant(s, clock, calls[0], maxSize);
      InvariantOverRuns(Next(s, calls[0], maxSize), calls[0].made, calls[1..], maxSize);
    }
  }

  /** A cache starts empty, so the invariant holds after every run of a cache. */
  lemma InvariantFromEmpty(calls: seq<Call>, maxSize: nat)
    requires InTime(calls, 0)
    ensures Valid(Run(State(map[], []), calls, maxSize), LastClock(calls, 0), maxSize)
  {
    InvariantOverRuns(State(map[], []), 0, calls, maxSize);
  }

  class CertCache {
    const maxSize: nat
    var cache: map<string, nat>
    var order: seq<string>

    constructor (maxSize: nat)
      ensures this.maxSize == maxSize && cache == map[] && order == []
    {
      this.maxSize := maxSize;
      cache, order := map[], [];
    }

    method GetOrCreate(call: Call) returns (r: Option<nat>)
      modifies this
      ensures r == Answer(old(State(cache, order)), call)
      ensures State(cache, order) == Next(old(State(cache, order)), call, maxSize)
    {
      var host := call.host;
      if host in cache {
        if call.asked + RENEW_MARGIN < cache[host] {
          return Some(cache[host]);
        }
        cache := cache - {host};
        RemoveFromOrder(host);
      }
      if call.fails {
        return None;
      }
      var notAfter := NotAfterAt(call.made);
      cache := cache[host := notAfter];
      order := order + [host];
      if |order| > maxSize {
        var evict := order[0];
        order := order[1..];
        cache := cache - {evict};
      }
      return Some(notAfter);
    }

    method RemoveFromOrder(host: string)
      modifies `order
      ensures order == Remove(old(order), host)
    {
      ghost var before := order;
      assert order[0..] == order && order[..0] + Remove(order, host) == Remove(order, host);
      for i := 0 to |order|
        invariant order == before
        invariant Remove(before, host) == before[..i] + Remove(before[i..], host)
      {
        RemoveStep(before, i, host);
        if order[i] == host {
          order := order[..i] + order[i + 1..];
          return;
        }
      }
      assert before[..|before|] + [] == before;
    }
  }

  /** One element of the order looked at. */
  lemma RemoveStep(order: seq<string>, i: nat, host: string)
    requires i < |order|
    ensures order[..i] + Remove(order[i..], host) ==
            if order[i] == host then order[..i] + order[i + 1..]
            else order[..i + 1] + Remove(order[i + 1..], host)
  {
    assert order[i..][0] == order[i] && order[i..][1..] == order[i + 1..];
    assert order[..i + 1] == order[..i] + [order[i]];
  }
}
