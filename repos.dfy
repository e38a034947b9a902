/** The three record sources the GeoIP handler consults: the in-memory
    repository, the Redis repository and the remote GeoIP API, together with
    the background repair writes that warm the two caches. */
module Repos {

  datatype Option<T> = None | Some(value: T)

  /** A geolocation record. The lookup never inspects its attributes; it only
      moves whole records between tiers. */
  datatype GeoRecord = GeoRecord(attributes: map<string, string>)

  /** The tiers, fastest first. */
  datatype Tier = InMemory | Redis | Remote

  /** The tiers a repair may write to: the remote API is read-only. */
  type CacheTier = t: Tier | t != Remote witness InMemory

  /** The fixed order in which a lookup consults the tiers. */
  const TierOrder: seq<Tier> := [InMemory, Redis, Remote]

  /** A snapshot of everything the lookup can observe. A cache whose `Up` flag
      is false answers every Get and every Save with an error; a key absent
      from `remote` is a failing remote call. */
  datatype Stores = Stores(
    inMemory: map<string, GeoRecord>, inMemoryUp: bool,
    redis: map<string, GeoRecord>, redisUp: bool,
    remote: map<string, GeoRecord>)

  /** Whether a tier can answer at all. The remote API has no flag: its
      failures are the keys it lacks. */
  predicate Available(s: Stores, t: Tier)
  {
    match t
    case InMemory => s.inMemoryUp
    case Redis => s.redisUp
    case Remote => true
  }

  /** The records a tier holds, whether or not it is available. */
  function Contents(s: Stores, t: Tier): map<string, GeoRecord>
  {
    match t
    case InMemory => s.inMemory
    case Redis => s.redis
    case Remote => s.remote
  }

  /** `Get` on one tier: `None` stands for a non-nil error, which the handler
      treats the same whether the key is absent or the tier is degraded. */
  function Get(s: Stores, t: Tier, key: string): (r: Option<GeoRecord>)
    // a hit returns the record the tier holds for the key
    ensures r.Some? ==> key in Contents(s, t) && r.value == Contents(s, t)[key]
    // a miss means the key is absent or the tier is down, and nothing else
    ensures r == None <==> key !in Contents(s, t) || !Available(s, t)
    // a cache that is down misses every key
    ensures !Available(s, t) ==> r == None
  {
    match t
    case InMemory => if s.inMemoryUp && key in s.inMemory then Some(s.inMemory[key]) else None
    case Redis => if s.redisUp && key in s.redis then Some(s.redis[key]) else None
    case Remote => if key in s.remote then Some(s.remote[key]) else None
  }

  /** `Save` on one cache, storing the record under the lookup key. A failing
      Save is only logged, so the stores stay as they were. */
  function Save(s: Stores, t: CacheTier, key: string, g: GeoRecord): (r: Stores)
    ensures Get(r, t, key) == (if Available(s, t) then Some(g) else None)
    // a Save on a cache that is down fails and leaves every store as it was
    ensures !Available(s, t) ==> r == s
    // a Save on a cache that is up writes the key and nothing else
    ensures Available(s, t) ==> Contents(r, t) == Contents(s, t)[key := g]
    ensures forall u: Tier :: u != t ==> Contents(r, u) == Contents(s, u)
    ensures forall u: Tier :: Available(r, u) == Available(s, u)
    ensures forall u: Tier, k: string :: (u != t || k != key) ==> Get(r, u, k) == Get(s, u, k)
  {
    match t
    case InMemory => if s.inMemoryUp then s.(inMemory := s.inMemory[key := g]) else s
    case Redis => if s.redisUp then s.(redis := s.redis[key := g]) else s
  }

  /** A pending background write scheduled by a lookup. `Overwrite` saves
      unconditionally; `FillIfMissing` first reads the target and saves only
      when that read fails. */
  datatype Repair =
    | Overwrite(target: CacheTier, key: string, rec: GeoRecord)
    | FillIfMissing(target: CacheTier, key: string, rec: GeoRecord)

  /** The effect of running one repair against the stores as they are when it
      runs. */
  function Step(s: Stores, rep: Repair): (r: Stores)
    ensures r.remote == s.remote && r.inMemoryUp == s.inMemoryUp && r.redisUp == s.redisUp
    ensures rep.FillIfMissing? && Get(s, rep.target, rep.key).Some? ==> r == s
    ensures forall u: Tier, k: string :: (u != rep.target || k != rep.key) ==> Get(r, u, k) == Get(s, u, k)
  {
    match rep
    case Overwrite(t, k, g) => Save(s, t, k, g)
    case FillIfMissing(t, k, g) => if Get(s, t, k).None? then Save(s, t, k, g) else s
  }

  /** The stores once every repair of `rs` has run, one after the other, in
      the order of `rs`. */
  function Settle(s: Stores, rs: seq<Repair>): (r: Stores)
    ensures r.remote == s.remote && r.inMemoryUp == s.inMemoryUp && r.redisUp == s.redisUp
    decreases |rs|
  {
    if rs == [] then s else Settle(Step(s, rs[0]), rs[1..])
  }

  /** `order` runs the repairs of `rs` in some order, each exactly once. */
  ghost predicate IsOrdering(order: seq<Repair>, rs: seq<Repair>)
  {
    multiset(order) == multiset(rs)
  }

  /** Repairs aimed at one key never disturb any other key. */
  lemma {:induction false} SettleKeepsOtherKeys(s: Stores, rs: seq<Repair>, key: string, other: string, t: Tier)
    requires forall i :: 0 <= i < |rs| ==> rs[i].key == key
    requires other != key
    ensures Get(Settle(s, rs), t, other) == Get(s, t, other)
    decreases |rs|
  {
    if rs != [] {
      SettleKeepsOtherKeys(Step(s, rs[0]), rs[1..], key, other, t);
    }
  }

  /** When both caches are down while the repairs run, every Save fails and
      is only logged: the stores end as they started. */
  lemma {:induction false} FailedRepairsChangeNothing(s: Stores, rs: seq<Repair>)
    requires !s.inMemoryUp && !s.redisUp
    ensures Settle(s, rs) == s
    decreases |rs|
  {
    if rs != [] {
      FailedRepairsChangeNothing(Step(s, rs[0]), rs[1..]);
    }
  }

  /** A reordering of two repairs is one of the two sequences. */
  lemma OrderingOfTwo(order: seq<Repair>, a: Repair, b: Repair)
    requires IsOrdering(order, [a, b])
    ensures order == [a, b] || order == [b, a]
  {
    assert |order| == |multiset(order)| == 2;
    assert order[0] in multiset(order) && order[1] in multiset(order);
    assert multiset(order) == multiset([order[0], order[1]]) by { assert order == [order[0], order[1]]; }
    if order[0] == a {
      assert multiset([order[1]]) == multiset(order) - multiset{a};
      assert order[1] in multiset([b]);
    } else {
      assert order[0] == b;
      assert multiset([order[1]]) == multiset(order) - multiset{b};
      assert order[1] in multiset([a]);
    }
  }
}
