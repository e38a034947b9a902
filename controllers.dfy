/** The GeoIP handler: validate the address, walk the tiers fastest first,
    answer with the first record found, and schedule background writes that
    warm the caches which missed. */
module Controllers {
  import opened Repos

  /** What the handler reports to the transport layer: a bad request, the
      record, or an internal error because no tier could answer. */
  datatype Outcome = InvalidKey | Found(rec: GeoRecord) | LookupFailed

  /** Everything one lookup decides: its outcome, the tiers it read before
      answering (in the order read), and the repairs it left running. */
  datatype Decision = Decision(outcome: Outcome, probed: seq<Tier>, repairs: seq<Repair>)

  /** The address check: the key is accepted when the address parser yields
      an address. The parser also accepts IPv6 text, so this is not an IPv4
      test whatever its name says. */
  function IsIpv4(host: string, parseIP: string -> Option<seq<bv8>>): bool
  {
    parseIP(host).Some?
  }

  /** The lookup decision for `key` against the stores `s`. */
  function Resolve(parseIP: string -> Option<seq<bv8>>, key: string, s: Stores): (d: Decision)
    // a rejected key reads nothing and schedules nothing
    ensures d.outcome == InvalidKey <==> !IsIpv4(key, parseIP)
    ensures d.outcome == InvalidKey ==> d.probed == [] && d.repairs == []
    // tiers are read fastest first, never skipping one, and a valid key always reads the in-memory tier
    ensures IsIpv4(key, parseIP) ==> |d.probed| > 0
    ensures d.probed <= TierOrder
    // a tier below is read only after every tier above it missed
    ensures forall i :: 0 <= i < |d.probed| - 1 ==> Get(s, d.probed[i], key) == None
    // the answer is the record of the last tier read
    ensures d.outcome.Found? ==> Get(s, d.probed[|d.probed| - 1], key) == Some(d.outcome.rec)
    // a valid key fails only when every tier missed, and then nothing is repaired
    ensures d.outcome == LookupFailed <==>
              IsIpv4(key, parseIP) && forall t: Tier :: Get(s, t, key) == None
    ensures d.outcome == LookupFailed ==> d.probed == TierOrder && d.repairs == []
    // every repair writes the returned record under the lookup key
    ensures forall rep :: rep in d.repairs ==> d.outcome.Found? && rep.key == key && rep.rec == d.outcome.rec
    // an unconditional write goes only to a cache that was read and missed;
    // a conditional one only to a cache that was not read
    ensures forall rep :: rep in d.repairs && rep.Overwrite? ==> rep.target in d.probed && Get(s, rep.target, key) == None
    ensures forall rep :: rep in d.repairs && rep.FillIfMissing? ==> rep.target !in d.probed
    // every cache other than the one that answered receives exactly one repair
    ensures d.outcome.Found? && d.probed[|d.probed| - 1] != InMemory ==>
              exists rep :: rep in d.repairs && rep.target == InMemory
    ensures d.outcome.Found? && d.probed[|d.probed| - 1] != Redis ==>
              exists rep :: rep in d.repairs && rep.target == Redis
    ensures forall i, j :: 0 <= i < j < |d.repairs| ==> d.repairs[i].target != d.repairs[j].target
  {
    if !IsIpv4(key, parseIP) then Decision(InvalidKey, [], [])
    else match Get(s, InMemory, key)
      case Some(g) => Decision(Found(g), [InMemory], [FillIfMissing(Redis, key, g)])
      case None => match Get(s, Redis, key)
        case Some(g) => Decision(Found(g), [InMemory, Redis], [Overwrite(InMemory, key, g)])
        case None => match Get(s, Remote, key)
          case Some(g) => Decision(Found(g), TierOrder, [Overwrite(InMemory, key, g), Overwrite(Redis, key, g)])
          case None => Decision(LookupFailed, TierOrder, [])
  }

  /** The handler holding the two cache repositories and the remote API. */
  class BaseHandler {
    var inMemory: map<string, GeoRecord>
    var inMemoryUp: bool
    var redis: map<string, GeoRecord>
    var redisUp: bool
    var remote: map<string, GeoRecord>
    const parseIP: string -> Option<seq<bv8>>

    /** What a lookup run now would observe. */
    function State(): Stores
      reads this
    {
      Stores(inMemory, inMemoryUp, redis, redisUp, remote)
    }

    constructor (inMemory: map<string, GeoRecord>, redis: map<string, GeoRecord>,
                 remote: map<string, GeoRecord>, parseIP: string -> Option<seq<bv8>>)
      ensures State() == Stores(inMemory, true, redis, true, remote)
      ensures this.parseIP == parseIP
    {
      this.inMemory := inMemory;
      this.inMemoryUp := true;
      this.redis := redis;
      this.redisUp := true;
      this.remote := remote;
      this.parseIP := parseIP;
    }

    /** Looks `ip` up. Nothing is written here: the writes the lookup
        schedules are returned in `repairs` and run later, in any order, via
        `ApplyRepair`. */
    method GetGeoIP(ip: string) returns (outcome: Outcome, probed: seq<Tier>, repairs: seq<Repair>)
      ensures Decision(outcome, probed, repairs) == Resolve(parseIP, ip, State())
      ensures !IsIpv4(ip, parseIP) ==> outcome == InvalidKey && probed == [] && repairs == []
      ensures IsIpv4(ip, parseIP) && ip in inMemory && inMemoryUp ==>
                outcome == Found(inMemory[ip]) && probed == [InMemory] &&
                repairs == [FillIfMissing(Redis, ip, inMemory[ip])]
      ensures IsIpv4(ip, parseIP) && !(ip in inMemory && inMemoryUp) && ip in redis && redisUp ==>
                outcome == Found(redis[ip]) && probed == [InMemory, Redis] &&
                repairs == [Overwrite(InMemory, ip, redis[ip])]
      ensures IsIpv4(ip, parseIP) && !(ip in inMemory && inMemoryUp) && !(ip in redis && redisUp) && ip in remote ==>
                outcome == Found(remote[ip]) && probed == [InMemory, Redis, Remote] &&
                repairs == [Overwrite(InMemory, ip, remote[ip]), Overwrite(Redis, ip, remote[ip])]
      ensures IsIpv4(ip, parseIP) && !(ip in inMemory && inMemoryUp) && !(ip in redis && redisUp) && ip !in remote ==>
                outcome == LookupFailed && probed == [InMemory, Redis, Remote] && repairs == []
    {
      if !IsIpv4(ip, parseIP) {
        return InvalidKey, [], [];
      }
      var g: Option<GeoRecord>;
      g := Get(State(), InMemory, ip);
      probed := [InMemory];
      if g == None {
        g := Get(State(), Redis, ip);
        probed := probed + [Redis];
        if g == None {
          g := Get(State(), Remote, ip);
          probed := probed + [Remote];
          if g == None {
            return LookupFailed, probed, [];
          }
          repairs := [Overwrite(InMemory, ip, g.value), Overwrite(Redis, ip, g.value)];
        } else {
          repairs := [Overwrite(InMemory, ip, g.value)];
        }
      } else {
        repairs := [FillIfMissing(Redis, ip, g.value)];
      }
      outcome := Found(g.value);
    }

    /** Runs one scheduled repair against the stores as they are now. A Save
        on a cache that is down fails, is only logged, and changes nothing. */
    method ApplyRepair(rep: Repair)
      modifies this
      ensures State() == Step(old(State()), rep)
      ensures remote == old(remote) && inMemoryUp == old(inMemoryUp) && redisUp == old(redisUp)
      ensures rep.target == InMemory && !inMemoryUp ==> inMemory == old(inMemory)
      ensures rep.target == Redis && !redisUp ==> redis == old(redis)
      ensures rep.FillIfMissing? && rep.target == Redis && rep.key in old(redis) && redisUp ==> redis == old(redis)
    {
      match rep
      case Overwrite(t, k, g) =>
        SaveTo(t, k, g);
      case FillIfMissing(t, k, g) =>
        var current := Get(State(), t, k);
        if current == None {
          SaveTo(t, k, g);
        }
    }

    /** The repository Save on one cache, keyed by the lookup key. */
    method SaveTo(t: CacheTier, key: string, g: GeoRecord)
      modifies this
      ensures State() == Save(old(State()), t, key, g)
    {
      if t == InMemory {
        if inMemoryUp {
          inMemory := inMemory[key := g];
        }
      } else if redisUp {
        redis := redis[key := g];
      }
    }
  }

  /** Every cache write a lookup schedules carries the record it returned:
      however the repairs fare, a cache ends holding what it held before or
      that record, so a failing repair cannot alter the answer given. */
  lemma {:induction false} RepairsWriteOnlyTheAnswer(s: Stores, rs: seq<Repair>, g: GeoRecord, t: Tier, key: string)
    requires forall i :: 0 <= i < |rs| ==> rs[i].rec == g
    ensures Get(Settle(s, rs), t, key) == Get(s, t, key) || Get(Settle(s, rs), t, key) == Some(g)
    decreases |rs|
  {
    if rs != [] {
      var s1 := Step(s, rs[0]);
      RepairsWriteOnlyTheAnswer(s1, rs[1..], g, t, key);
      if Get(Settle(s1, rs[1..]), t, key) == Get(s1, t, key) {
        assert Get(s1, t, key) == Get(s, t, key) || Get(s1, t, key) == Some(g);
      }
    }
  }

  /** After a remote answer, once both repairs have run in either order with
      the in-memory cache up, the in-memory cache holds the record (and so
      does Redis when it is up), and a second lookup answers the same record
      from memory without reading Redis or calling the remote API. */
  lemma RemoteHitThenSettled(parseIP: string -> Option<seq<bv8>>, key: string, s: Stores, g: GeoRecord, order: seq<Repair>)
    requires IsIpv4(key, parseIP)
    requires Get(s, InMemory, key) == None && Get(s, Redis, key) == None && Get(s, Remote, key) == Some(g)
    requires IsOrdering(order, Resolve(parseIP, key, s).repairs)
    requires s.inMemoryUp
    ensures Resolve(parseIP, key, s).outcome == Found(g)
    ensures Get(Settle(s, order), InMemory, key) == Some(g)
    ensures s.redisUp ==> Get(Settle(s, order), Redis, key) == Some(g)
    ensures Resolve(parseIP, key, Settle(s, order)) == Decision(Found(g), [InMemory], [FillIfMissing(Redis, key, g)])
  {
    var a, b := Overwrite(InMemory, key, g), Overwrite(Redis, key, g);
    OrderingOfTwo(order, a, b);
    if order == [a, b] {
      assert order[1..] == [b] && order[1..][1..] == [];
      assert Settle(s, order) == Settle(Step(s, a), [b]) == Step(Step(s, a), b);
    } else {
      assert order[1..] == [a] && order[1..][1..] == [];
      assert Settle(s, order) == Settle(Step(s, b), [a]) == Step(Step(s, b), a);
    }
  }

  /** After a Redis answer, once its repair has run with the in-memory cache
      up, the in-memory cache holds the record, Redis is as it was, and a
      second lookup answers the same record from memory. */
  lemma RedisHitThenSettled(parseIP: string -> Option<seq<bv8>>, key: string, s: Stores, g: GeoRecord, order: seq<Repair>)
    requires IsIpv4(key, parseIP)
    requires Get(s, InMemory, key) == None && Get(s, Redis, key) == Some(g)
    requires IsOrdering(order, Resolve(parseIP, key, s).repairs)
    requires s.inMemoryUp
    ensures Resolve(parseIP, key, s).outcome == Found(g)
    ensures Get(Settle(s, order), InMemory, key) == Some(g)
    ensures Get(Settle(s, order), Redis, key) == Some(g)
    ensures Resolve(parseIP, key, Settle(s, order)) == Decision(Found(g), [InMemory], [FillIfMissing(Redis, key, g)])
  {
  }

  /** After an in-memory answer, its repair leaves the in-memory cache as it
      was, writes Redis only when Redis lacked the key (and is up), and a
      repeated lookup decides exactly as the first did. */
  lemma InMemoryHitThenSettled(parseIP: string -> Option<seq<bv8>>, key: string, s: Stores, g: GeoRecord, order: seq<Repair>)
    requires IsIpv4(key, parseIP)
    requires Get(s, InMemory, key) == Some(g)
    requires IsOrdering(order, Resolve(parseIP, key, s).repairs)
    ensures Resolve(parseIP, key, s) == Decision(Found(g), [InMemory], [FillIfMissing(Redis, key, g)])
    ensures Get(s, Redis, key).Some? ==> Settle(s, order) == s
    ensures s.redisUp ==> Get(Settle(s, order), Redis, key).Some?
    ensures Get(s, Redis, key) == None && s.redisUp ==> Get(Settle(s, order), Redis, key) == Some(g)
    ensures Get(Settle(s, order), InMemory, key) == Some(g)
    ensures Resolve(parseIP, key, Settle(s, order)) == Resolve(parseIP, key, s)
  {
  }

  /** A lookup that fails, or a rejected key, leaves no repair behind: the
      stores after it are exactly the stores before it. */
  lemma NoAnswerNoWrites(parseIP: string -> Option<seq<bv8>>, key: string, s: Stores, order: seq<Repair>)
    requires !Resolve(parseIP, key, s).outcome.Found?
    requires IsOrdering(order, Resolve(parseIP, key, s).repairs)
    ensures order == []
    ensures Settle(s, order) == s
  {
  }

  /** Once a remote answer has propagated, every later lookup of that key
      (with the in-memory cache up) is served from memory with the same
      record, however many times it is repeated: its own repair changes
      nothing the next lookup reads. */
  lemma {:induction false} RepeatedLookupsServedFromMemory(parseIP: string -> Option<seq<bv8>>, key: string, s: Stores, g: GeoRecord, n: nat)
    requires IsIpv4(key, parseIP)
    requires Get(s, InMemory, key) == Some(g)
    ensures Get(Repeat(parseIP, key, s, n), InMemory, key) == Some(g)
    ensures Resolve(parseIP, key, Repeat(parseIP, key, s, n)) == Decision(Found(g), [InMemory], [FillIfMissing(Redis, key, g)])
    decreases n
  {
    if n > 0 {
      var s1 := Settle(s, Resolve(parseIP, key, s).repairs);
      InMemoryHitThenSettled(parseIP, key, s, g, Resolve(parseIP, key, s).repairs);
      RepeatedLookupsServedFromMemory(parseIP, key, s1, g, n - 1);
    }
  }

  /** The stores after `n` lookups of `key`, each followed by its repairs. */
  function Repeat(parseIP: string -> Option<seq<bv8>>, key: string, s: Stores, n: nat): Stores
    decreases n
  {
    if n == 0 then s else Repeat(parseIP, key, Settle(s, Resolve(parseIP, key, s).repairs), n - 1)
  }
}
