/**
 * The in-process key-value cache of redis-cache/redis_cache.go with its worker pool,
 * channels and lock removed: SET, GET and the periodic sweep act directly on the two maps,
 * and the wall clock is an explicit instant `now` (Go's time in nanoseconds).
 */
module RedisCache {
  import opened Wrappers

  /** One second, in the nanoseconds that Go's time.Duration counts. */
  const Second: int := 1_000_000_000

  /** The cache's two parallel maps: value by key, and expiry instant by key. */
  datatype Store<V> = Store(data: map<string, V>, ttl: map<string, int>)

  /** A key with an expiry is also a key with a value. */
  predicate Consistent<V>(s: Store<V>) {
    s.ttl.Keys <= s.data.Keys
  }

  /** Go's `now.After(expiry)`: strictly later. */
  predicate After(now: int, expiry: int) {
    now > expiry
  }

  /** A key is expired at `now` when it has an expiry that `now` is strictly after. */
  predicate ExpiredAt<V>(s: Store<V>, key: string, now: int) {
    key in s.ttl && After(now, s.ttl[key])
  }

  /** The keys a sweep at `now` finds expired. */
  function ExpiredKeys(ttl: map<string, int>, now: int): set<string> {
    set k | k in ttl && After(now, ttl[k])
  }

  /** The state after a SET request (the SET branch of handleRequest). */
  function Put<V>(s: Store<V>, key: string, value: V, d: int, now: int): (r: Store<V>)
    ensures r.data.Keys == s.data.Keys + {key} && r.data[key] == value
    ensures d > 0 ==> r.ttl.Keys == s.ttl.Keys + {key} && r.ttl[key] == now + d
    ensures d <= 0 ==> r.ttl == s.ttl
    ensures Consistent(s) ==> Consistent(r)
  {
    Store(s.data[key := value], if d > 0 then s.ttl[key := now + d] else s.ttl)
  }

  /**
   * The intended reply to a GET request (the GET branch of handleRequest); None stands for nil.
   * On a stored but expired key the source never replies: see GetAsWritten below.
   */
  function Lookup<V>(s: Store<V>, key: string, now: int): (r: Option<V>)
    ensures r.Some? ==> key in s.data && r.value == s.data[key]
    ensures key in s.data && key !in s.ttl ==> r == Some(s.data[key])
    ensures key in s.ttl && After(now, s.ttl[key]) ==> r == None
  {
    if key in s.data && !ExpiredAt(s, key, now) then Some(s.data[key]) else None
  }

  /** The state after one pass of cleanExpiredKeys at instant `now`. */
  function Swept<V>(s: Store<V>, now: int): (r: Store<V>)
    ensures r.data.Keys <= s.data.Keys && r.ttl.Keys <= s.ttl.Keys
    ensures forall k :: k in r.ttl ==> !After(now, r.ttl[k])
    ensures forall k :: k in s.data && !ExpiredAt(s, k, now) ==> k in r.data && r.data[k] == s.data[k]
    ensures Consistent(s) ==> Consistent(r)
  {
    var gone := ExpiredKeys(s.ttl, now);
    Store(s.data - gone, s.ttl - gone)
  }

  /**
   * The state after the evidently intended DEL: the key leaves both maps. The source's
   * DEL handler never gets this far (see DelNeverReplies); this is the corrected operation.
   */
  function Removed<V>(s: Store<V>, key: string): (r: Store<V>)
    ensures key !in r.data && key !in r.ttl
    ensures r.data.Keys == s.data.Keys - {key} && r.ttl.Keys == s.ttl.Keys - {key}
    ensures forall k :: k in r.data ==> r.data[k] == s.data[k]
    ensures forall k :: k in r.ttl ==> r.ttl[k] == s.ttl[k]
    ensures Consistent(s) ==> Consistent(r)
  {
    Store(s.data - {key}, s.ttl - {key})
  }

  /** A request the cache applies to its maps; the sweep is the expirer's periodic step. */
  datatype Step<V> = SetStep(key: string, value: V, d: int, now: int) | DelStep(key: string) | SweepStep(now: int)

  /** The state after applying `steps` in order, starting from `s`. */
  function Run<V>(s: Store<V>, steps: seq<Step<V>>): Store<V>
    decreases |steps|
  {
    if steps == [] then s
    else
      var t := match steps[0]
        case SetStep(k, v, d, now) => Put(s, k, v, d, now)
        case DelStep(k) => Removed(s, k)
        case SweepStep(now) => Swept(s, now);
      Run(t, steps[1..])
  }

  /** Every state reachable from a consistent one (the empty store, say) by SETs, DELs and sweeps is consistent. */
  lemma {:induction false} RunConsistent<V>(s: Store<V>, steps: seq<Step<V>>)
    requires Consistent(s)
    ensures Consistent(Run(s, steps))
    decreases |steps|
  {
    if steps != [] {
      match steps[0]
      case SetStep(k, v, d, now) =>
        RunConsistent(Put(s, k, v, d, now), steps[1..]);
      case DelStep(k) =>
        RunConsistent(Removed(s, k), steps[1..]);
      case SweepStep(now) =>
        RunConsistent(Swept(s, now), steps[1..]);
    }
  }

  /** SET with d > 0: the value is read back up to and including the instant now + d, and not after it. */
  lemma LookupAfterTimedPut<V>(s: Store<V>, key: string, value: V, d: int, now: int, later: int)
    requires d > 0
    ensures Lookup(Put(s, key, value, d, now), key, later) == if later <= now + d then Some(value) else None
  {
  }

  /**
   * SET with d <= 0 does not clear an earlier expiry: the new value is read back exactly when
   * the expiry left from before (if any) has not passed.
   */
  lemma LookupAfterUntimedPut<V>(s: Store<V>, key: string, value: V, d: int, now: int, later: int)
    requires d <= 0
    ensures Put(s, key, value, d, now).ttl == s.ttl
    ensures Lookup(Put(s, key, value, d, now), key, later) == if ExpiredAt(s, key, later) then None else Some(value)
  {
  }

  /** SET on one key changes neither the value nor the expiry of any other key. */
  lemma PutLeavesOtherKeys<V>(s: Store<V>, key: string, value: V, d: int, now: int, other: string, later: int)
    requires other != key
    ensures var t := Put(s, key, value, d, now);
      && (other in t.data <==> other in s.data)
      && (other in s.data ==> t.data[other] == s.data[other])
      && (other in t.ttl <==> other in s.ttl)
      && (other in s.ttl ==> t.ttl[other] == s.ttl[other])
      && Lookup(t, other, later) == Lookup(s, other, later)
  {
  }

  /** GET never returns a value whose expiry `now` is strictly after, and returns every other stored value. */
  lemma LookupLive<V>(s: Store<V>, key: string, now: int)
    ensures Lookup(s, key, now).Some? <==> key in s.data && !ExpiredAt(s, key, now)
    ensures Lookup(s, key, now).Some? ==> Lookup(s, key, now).value == s.data[key]
  {
  }

  /** A sweep at `now` removes from both maps exactly the keys expired at `now`; the rest keep value and expiry. */
  lemma SweptExactly<V>(s: Store<V>, now: int, key: string)
    ensures var t := Swept(s, now);
      && (key in t.data <==> key in s.data && !ExpiredAt(s, key, now))
      && (key in t.ttl <==> key in s.ttl && !After(now, s.ttl[key]))
      && (key in t.data ==> t.data[key] == s.data[key])
      && (key in t.ttl ==> t.ttl[key] == s.ttl[key])
  {
  }

  /** A second sweep at the same instant changes nothing. */
  lemma SweptIdempotent<V>(s: Store<V>, now: int)
    ensures Swept(Swept(s, now), now) == Swept(s, now)
  {
  }

  /** A sweep at `now` cannot be observed by any GET at `now` or later. */
  lemma SweptUnobservable<V>(s: Store<V>, now: int, later: int, key: string)
    requires now <= later
    ensures Lookup(Swept(s, now), key, later) == Lookup(s, key, later)
  {
  }

  /** A key stored without an expiry survives every sweep, whenever it runs. */
  lemma SweptKeepsImmortal<V>(s: Store<V>, now: int, key: string)
    requires key in s.data && key !in s.ttl
    ensures Lookup(Swept(s, now), key, now) == Some(s.data[key])
  {
  }

  /** Some step of `steps` is a SET or a DEL of `key`. */
  predicate TouchesKey<V>(steps: seq<Step<V>>, key: string) {
    exists i :: 0 <= i < |steps| && !steps[i].SweepStep? && steps[i].key == key
  }

  /**
   * A key stored without an expiry stays stored, with the same value and still without an expiry,
   * through any sequence of sweeps and of SETs and DELs of other keys; so GET returns it at every instant.
   */
  lemma {:induction false} ImmortalUntilTouched<V>(s: Store<V>, steps: seq<Step<V>>, key: string, later: int)
    requires key in s.data && key !in s.ttl
    requires !TouchesKey(steps, key)
    ensures key in Run(s, steps).data && key !in Run(s, steps).ttl
    ensures Run(s, steps).data[key] == s.data[key]
    ensures Lookup(Run(s, steps), key, later) == Some(s.data[key])
    decreases |steps|
  {
    if steps != [] {
      var t := match steps[0]
        case SetStep(k, v, d, now) => Put(s, k, v, d, now)
        case DelStep(k) => Removed(s, k)
        case SweepStep(now) => Swept(s, now);
      ImmortalUntilTouched(t, steps[1..], key, later);
    }
  }

  /** After the intended DEL, GET of that key gives nil at every instant, and every other key reads as before. */
  lemma LookupAfterRemoved<V>(s: Store<V>, key: string, other: string, now: int)
    ensures Lookup(Removed(s, key), key, now) == None
    ensures other != key ==> Lookup(Removed(s, key), other, now) == Lookup(s, other, now)
  {
  }

  /** The intended DEL is idempotent, and a DEL of an absent key changes nothing. */
  lemma RemovedIdempotent<V>(s: Store<V>, key: string)
    ensures Removed(Removed(s, key), key) == Removed(s, key)
    ensures key !in s.data && Consistent(s) ==> Removed(s, key) == s
  {
  }

  /** What the source's handler sends back, if anything: a reply on the result channel, or none ever. */
  datatype Reply<V> = Replied(value: Option<V>) | NoReply

  /**
   * Whether a DEL request ever gets its reply, as handleRequest is written, when `idle` other workers
   * are free to take requests. The DEL branch calls the public Del, which sends a fresh DEL request
   * (it needs a free worker to receive it, or it blocks forever) and replies only once that one has.
   * The branch has no case that replies without waiting on an inner DEL first, so the definition has
   * no case that yields true: the no-reply result is built in, and DelNeverReplies only spells it out.
   */
  function DelReplies(idle: nat): (r: bool)
    ensures r ==> idle > 0
    decreases idle
  {
    idle > 0 && DelReplies(idle - 1)
  }

  /** As written, no DEL request is ever answered, however many workers the pool has. */
  lemma {:induction false} DelNeverReplies(idle: nat)
    ensures !DelReplies(idle)
    decreases idle
  {
    if idle > 0 {
      DelNeverReplies(idle - 1);
    }
  }

  /**
   * The GET branch as written, with `idle` other workers free: a stored but expired key makes the
   * handler call Del before it replies nil, so it replies only if that DEL does.
   */
  function GetAsWritten<V>(s: Store<V>, key: string, now: int, idle: nat): (r: Reply<V>)
    ensures r.Replied? ==> r.value == Lookup(s, key, now)
  {
    if key in s.data && ExpiredAt(s, key, now) then
      if DelReplies(idle) then Replied(None) else NoReply
    else Replied(Lookup(s, key, now))
  }

  /** As written, a GET of a stored key whose expiry has passed, before a sweep removes it, never replies. */
  lemma ExpiredGetNeverReplies<V>(s: Store<V>, key: string, now: int, idle: nat)
    requires key in s.data && ExpiredAt(s, key, now)
    ensures GetAsWritten(s, key, now, idle) == NoReply
  {
    DelNeverReplies(idle);
  }

  /** On every other key the source's GET replies, and its reply is the intended one. */
  lemma GetAsWrittenElsewhere<V>(s: Store<V>, key: string, now: int, idle: nat)
    requires !(key in s.data && ExpiredAt(s, key, now))
    ensures GetAsWritten(s, key, now, idle) == Replied(Lookup(s, key, now))
  {
  }

  /**
   * As written, the sweep is observable. Two separate requests are compared. A GET of an expired key
   * sent before the sweep at `now` never replies: it blocks in the DEL chain for good, and the sweep
   * does not unblock it. A GET sent after that sweep instead, on a cache not yet wedged, replies nil,
   * at `now` or any later instant.
   */
  lemma SweepObservableAsWritten<V>(s: Store<V>, key: string, now: int, later: int, idle: nat)
    requires key in s.data && ExpiredAt(s, key, now) && now <= later
    ensures GetAsWritten(s, key, later, idle) == NoReply
    ensures GetAsWritten(Swept(s, now), key, later, idle) == Replied(None)
  {
    DelNeverReplies(idle);
  }

  class Cache<V> {
    var data: map<string, V>
    var ttl: map<string, int>

    /** The cache's invariant, recorded and preserved by every operation; no operation relies on it. */
    ghost predicate Valid()
      reads this
    {
      Consistent(Contents())
    }

    function Contents(): Store<V>
      reads this
    {
      Store(data, ttl)
    }

    /** NewRedisCache: both maps start empty. */
    constructor ()
      ensures Valid()
      ensures data == map[] && ttl == map[]
    {
      data := map[];
      ttl := map[];
    }

    /** SET: store the value; record an expiry only when d > 0, otherwise leave any earlier one. */
    method Set(key: string, value: V, d: int, now: int)
      requires Valid()
      modifies this
      ensures Valid()
      ensures data == old(data)[key := value]
      ensures ttl == if d > 0 then old(ttl)[key := now + d] else old(ttl)
      ensures Contents() == Put(old(Contents()), key, value, d, now)
    {
      data := data[key := value];
      if d > 0 {
        ttl := ttl[key := now + d];
      }
    }

    /**
     * GET with the intended reply: the stored value unless its expiry is strictly before `now`, and nil
     * then (where the source hangs, see ExpiredGetNeverReplies); no map changes.
     */
    method Get(key: string, now: int) returns (r: Option<V>)
      ensures key !in data ==> r == None
      ensures key in data && key !in ttl ==> r == Some(data[key])
      ensures key in data && key in ttl && now <= ttl[key] ==> r == Some(data[key])
      ensures key in ttl && now > ttl[key] ==> r == None
      ensures r == Lookup(Contents(), key, now)
    {
      if key in data {
        if key in ttl && After(now, ttl[key]) {
          r := None;
        } else {
          r := Some(data[key]);
        }
      } else {
        r := None;
      }
    }

    /** DEL as intended: the key leaves both maps. The source's DEL never deletes (see DelNeverReplies). */
    method Del(key: string)
      requires Valid()
      modifies this
      ensures Valid()
      ensures data == old(data) - {key}
      ensures ttl == old(ttl) - {key}
      ensures Contents() == Removed(old(Contents()), key)
    {
      data := data - {key};
      ttl := ttl - {key};
    }

    /** One pass of cleanExpiredKeys: visit every key with an expiry and delete the expired ones from both maps. */
    method Sweep(now: int)
      requires Valid()
      modifies this
      ensures Valid()
      ensures data == old(data) - ExpiredKeys(old(ttl), now)
      ensures ttl == old(ttl) - ExpiredKeys(old(ttl), now)
      ensures Contents() == Swept(old(Contents()), now)
    {
      ghost var gone := ExpiredKeys(ttl, now);
      var pending := ttl.Keys;
      while pending != {}
        invariant pending <= old(ttl).Keys
        invariant data == old(data) - (gone - pending)
        invariant ttl == old(ttl) - (gone - pending)
        decreases pending
      {
        var key :| key in pending;
        if After(now, ttl[key]) {
          data := data - {key};
          ttl := ttl - {key};
        }
        pending := pending - {key};
      }
    }
  }
}

/** Client scenarios driving the cache through its public operations, one instant at a time. */
module RedisCacheScenarios {
  import opened Wrappers
  import opened RedisCache

  /**
   * The sequence of the cache's race-condition test after its concurrent phase: a key set for one
   * second is gone after the sweep two seconds later, a key set without expiry is still there.
   */
  method ExpiryScenario() returns (r100: Option<string>, r101: Option<string>, before: Option<string>)
    ensures before == Some("value100")
    ensures r100 == None
    ensures r101 == Some("value101")
  {
    var c := new Cache<string>();
    c.Set("key100", "value100", Second, 0);
    c.Set("key101", "value101", 0, 0);
    before := c.Get("key100", Second);
    c.Sweep(2 * Second);
    assert "key100" !in c.data;
    r100 := c.Get("key100", 2 * Second);
    r101 := c.Get("key101", 2 * Second);
  }

  /** The intended DEL: a key set without expiry is gone after DEL, and a second DEL changes nothing. */
  method DelScenario() returns (before: Option<string>, after: Option<string>)
    ensures before == Some("1")
    ensures after == None
  {
    var c := new Cache<string>();
    c.Set("a", "1", 0, 0);
    before := c.Get("a", Second);
    c.Del("a");
    c.Del("a");
    after := c.Get("a", 2 * Second);
  }

  /**
   * Overwriting a timed key without a TTL keeps the old expiry, so the sweep still removes
   * the overwritten value once that expiry has passed.
   */
  method StaleExpiryScenario() returns (r: Option<string>)
    ensures r == None
  {
    var c := new Cache<string>();
    c.Set("k", "old", 5 * Second, 0);
    c.Set("k", "new", 0, Second);
    c.Sweep(6 * Second);
    assert "k" !in c.data;
    r := c.Get("k", 6 * Second);
  }
}
