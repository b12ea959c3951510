/**
 * The token-name cache: entries expire by age, and a full cache evicts its
 * oldest entry before every store, even one that overwrites.
 */
module TtlCache {
  import opened Prelude
  import opened Dicts

  datatype Stamped<V> = Stamped(at: real, value: V)

  type Store<V> = map<string, Stamped<V>>

  ghost predicate IsOldest<V>(store: Store<V>, key: string) {
    key in store && forall k | k in store :: store[key].at <= store[k].at
  }

  function Lookup<V>(ttl: real, store: Store<V>, key: string, now: real): Option<V> {
    if key in store && now - store[key].at <= ttl then Some(store[key].value) else None
  }

  // A lookup that finds an expired entry drops it.
  function AfterGet<V>(ttl: real, store: Store<V>, key: string, now: real): Store<V> {
    if key in store && now - store[key].at > ttl then store - {key} else store
  }

  ghost predicate Sets<V>(maxsize: nat, before: Store<V>, key: string, value: V, now: real, after: Store<V>) {
    if |before| < maxsize then after == before[key := Stamped(now, value)]
    else exists oldest :: IsOldest(before, oldest) && after == (before - {oldest})[key := Stamped(now, value)]
  }

  class Cache<V> {
    const ttl: real
    const maxsize: nat
    var store: Store<V>

    constructor (ttl: real, maxsize: nat)
      ensures this.ttl == ttl && this.maxsize == maxsize && store == map[]
    {
      this.ttl, this.maxsize, store := ttl, maxsize, map[];
    }

    method Get(key: string, now: real) returns (value: Option<V>)
      modifies this
      ensures value == Lookup(ttl, old(store), key, now)
      ensures store == AfterGet(ttl, old(store), key, now)
    {
      if key !in store {
        return None;
      }
      var entry := store[key];
      if now - entry.at > ttl {
        store := store - {key};
        return None;
      }
      return Some(entry.value);
    }

    // Fails (the source's ValueError) when there is nothing to evict from a cache of size 0.
    method Set(key: string, value: V, now: real) returns (stored: bool)
      modifies this
      ensures stored <==> maxsize > 0 || old(store) != map[]
      ensures stored ==> Sets(maxsize, old(store), key, value, now, store)
      ensures !stored ==> store == old(store)
    {
      if |store| >= maxsize {
        if store == map[] {
          return false;
        }
        var oldest := Oldest();
        store := store - {oldest};
      }
      store := store[key := Stamped(now, value)];
      return true;
    }

    method Oldest() returns (oldest: string)
      requires store != map[]
      ensures IsOldest(store, oldest)
    {
      assert store.Keys == {} ==> store == map[];
      var rest := store.Keys;
      oldest :| oldest in rest;
      while rest != {}
        invariant rest <= store.Keys && oldest in store
        invariant forall k | k in store && k !in rest :: store[oldest].at <= store[k].at
        decreases rest
      {
        var k :| k in rest;
        if store[k].at < store[oldest].at {
          oldest := k;
        }
        rest := rest - {k};
      }
    }
  }

  // --------------------------------------------------------------- whole runs

  datatype Event<V> = SetEvent(key: string, value: V, at: real) | GetEvent(key: string, at: real)

  ghost predicate Step<V>(ttl: real, maxsize: nat, before: Store<V>, e: Event<V>, after: Store<V>) {
    match e
    case SetEvent(key, value, at) => Sets(maxsize, before, key, value, at, after)
    case GetEvent(key, at) => after == AfterGet(ttl, before, key, at)
  }

  ghost predicate IsRun<V>(ttl: real, maxsize: nat, states: seq<Store<V>>, events: seq<Event<V>>) {
    && |states| == |events| + 1
    && states[0] == map[]
    && forall i, j | 0 <= i < |events| && j == i + 1 :: Step(ttl, maxsize, states[i], events[i], states[j])
  }

  ghost predicate ClockIncreases<V>(events: seq<Event<V>>) {
    forall i, j | 0 <= i < j < |events| :: events[i].at < events[j].at
  }

  // The last of the first n events that stored the key.
  function LastSet<V>(events: seq<Event<V>>, n: nat, key: string): Option<nat>
    requires n <= |events|
  {
    if n == 0 then None
    else if events[n - 1].SetEvent? && events[n - 1].key == key then Some(n - 1)
    else LastSet(events, n - 1, key)
  }

  // How many stores happen after event j and before event n.
  function SetsBetween<V>(events: seq<Event<V>>, j: nat, n: nat): nat
    requires n <= |events|
  {
    if n <= j + 1 then 0
    else SetsBetween(events, j, n - 1) + if events[n - 1].SetEvent? then 1 else 0
  }

  /** The cache never holds more than maxsize entries. */
  lemma {:induction false} CapacityIsKept<V>(ttl: real, maxsize: nat, states: seq<Store<V>>, events: seq<Event<V>>,
                                             n: nat)
    requires IsRun(ttl, maxsize, states, events) && n <= |events| && maxsize >= 1
    ensures |states[n]| <= maxsize
  {
    if n == 0 {
    } else {
      CapacityIsKept(ttl, maxsize, states, events, n - 1);
      RunStep(ttl, maxsize, states, events, n - 1);
      StepKeepsCapacity(ttl, maxsize, states[n - 1], events[n - 1], states[n]);
    }
  }

  lemma StepKeepsCapacity<V>(ttl: real, maxsize: nat, before: Store<V>, e: Event<V>, after: Store<V>)
    requires Step(ttl, maxsize, before, e, after) && |before| <= maxsize && maxsize >= 1
    ensures |after| <= maxsize
  {
    if e.SetEvent? && |before| >= maxsize {
      var oldest :| IsOldest(before, oldest) && after == (before - {oldest})[e.key := Stamped(e.at, e.value)];
      assert |before - {oldest}| == |before| - 1;
    }
  }

  /** Whatever is stored under a key is what was last set for it. */
  lemma {:induction false} HitIsLatest<V>(ttl: real, maxsize: nat, states: seq<Store<V>>, events: seq<Event<V>>,
                                          n: nat, key: string)
    requires IsRun(ttl, maxsize, states, events) && n <= |events| && key in states[n]
    ensures var last := LastSet(events, n, key);
      && last.Some? && last.value < n && events[last.value].SetEvent? && events[last.value].key == key
      && states[n][key] == Stamped(events[last.value].at, events[last.value].value)
  {
    RunStep(ttl, maxsize, states, events, n - 1);
    if !(events[n - 1].SetEvent? && events[n - 1].key == key) {
      HitIsLatest(ttl, maxsize, states, events, n - 1, key);
    }
  }

  ghost function Newer<V>(store: Store<V>, at: real): set<string> {
    set k | k in store && store[k].at > at
  }

  // One event adds at most one newer entry, and only if it is a set.
  lemma NewerStep<V>(ttl: real, maxsize: nat, before: Store<V>, e: Event<V>, after: Store<V>, at: real)
    requires Step(ttl, maxsize, before, e, after)
    ensures |Newer(after, at)| <= |Newer(before, at)| + if e.SetEvent? then 1 else 0
  {
    if e.SetEvent? {
      assert Newer(after, at) <= Newer(before, at) + {e.key};
      SubsetIsNoLarger(Newer(after, at), Newer(before, at) + {e.key});
    } else {
      assert Newer(after, at) <= Newer(before, at);
      SubsetIsNoLarger(Newer(after, at), Newer(before, at));
    }
  }

  lemma NothingNewerYet<V>(ttl: real, maxsize: nat, states: seq<Store<V>>, events: seq<Event<V>>, j: nat)
    requires IsRun(ttl, maxsize, states, events) && ClockIncreases(events) && j < |events|
    ensures Newer(states[j + 1], events[j].at) == {}
  {
    var store := states[j + 1];
    forall k | k in store
      ensures store[k].at <= events[j].at
    {
      HitIsLatest(ttl, maxsize, states, events, j + 1, k);
    }
  }

  lemma RunStep<V>(ttl: real, maxsize: nat, states: seq<Store<V>>, events: seq<Event<V>>, n: nat)
    requires IsRun(ttl, maxsize, states, events) && n < |events|
    ensures Step(ttl, maxsize, states[n], events[n], states[n + 1])
  {
  }

  // Entries newer than the j-th event are no more than the stores since.
  lemma {:induction false} NewerAreFew<V>(ttl: real, maxsize: nat, states: seq<Store<V>>, events: seq<Event<V>>,
                                          j: nat, n: nat)
    requires IsRun(ttl, maxsize, states, events) && ClockIncreases(events) && j < n <= |events|
    ensures |Newer(states[n], events[j].at)| <= SetsBetween(events, j, n)
  {
    if n == j + 1 {
      NothingNewerYet(ttl, maxsize, states, events, j);
    } else {
      NewerAreFew(ttl, maxsize, states, events, j, n - 1);
      RunStep(ttl, maxsize, states, events, n - 1);
      NewerStep(ttl, maxsize, states[n - 1], events[n - 1], states[n], events[j].at);
    }
  }

  // An entry can only be evicted once maxsize - 1 others are newer.
  lemma EvictionNeedsNewer<V>(ttl: real, maxsize: nat, states: seq<Store<V>>, events: seq<Event<V>>, j: nat, n: nat,
                              key: string)
    requires IsRun(ttl, maxsize, states, events) && ClockIncreases(events)
    requires j < n <= |events| && LastSet(events, n, key) == Some(j)
    requires key in states[n] && IsOldest(states[n], key)
    ensures |states[n]| - 1 <= SetsBetween(events, j, n)
  {
    var store := states[n];
    HitIsLatest(ttl, maxsize, states, events, n, key);
    forall k | k in store && k != key
      ensures store[k].at > events[j].at
    {
      HitIsLatest(ttl, maxsize, states, events, n, k);
      var i := LastSet(events, n, k).value;
      assert events[i].key != events[j].key;
      assert i != j && store[key].at <= store[k].at;
    }
    assert Newer(store, events[j].at) == store.Keys - {key};
    NewerAreFew(ttl, maxsize, states, events, j, n);
  }

  // Event j set the key, nothing has since; it is young, and few sets have come after it.
  predicate IsRecent<V>(ttl: real, maxsize: nat, events: seq<Event<V>>, j: nat, n: nat, key: string) {
    && j < n <= |events| && LastSet(events, n, key) == Some(j)
    && SetsBetween(events, j, n) < maxsize
    && events[n - 1].at - events[j].at <= ttl
  }

  // A set spares what is not the oldest entry of a full cache, a read what is young.
  ghost predicate IsSpared<V>(ttl: real, maxsize: nat, before: Store<V>, e: Event<V>, key: string) {
    key in before &&
      if e.SetEvent? then |before| >= maxsize ==> !IsOldest(before, key)
      else e.at - before[key].at <= ttl
  }

  lemma SparedStays<V>(ttl: real, maxsize: nat, before: Store<V>, e: Event<V>, after: Store<V>, key: string)
    requires Step(ttl, maxsize, before, e, after) && IsSpared(ttl, maxsize, before, e, key)
    ensures key in after
  {
  }

  lemma FewSetsSpareIt<V>(ttl: real, maxsize: nat, states: seq<Store<V>>, events: seq<Event<V>>, j: nat, n: nat,
                          key: string)
    requires IsRun(ttl, maxsize, states, events) && ClockIncreases(events)
    requires j < n <= |events| && LastSet(events, n, key) == Some(j)
    requires SetsBetween(events, j, n) + 1 < maxsize && key in states[n] && |states[n]| >= maxsize
    ensures !IsOldest(states[n], key)
  {
    if IsOldest(states[n], key) {
      EvictionNeedsNewer(ttl, maxsize, states, events, j, n, key);
      assert false;
    }
  }

  lemma RecentIsSpared<V>(ttl: real, maxsize: nat, states: seq<Store<V>>, events: seq<Event<V>>, j: nat, n: nat,
                          key: string)
    requires IsRun(ttl, maxsize, states, events) && ClockIncreases(events)
    requires n < |events| && j < n && LastSet(events, n, key) == Some(j) && key in states[n]
    requires events[n].at - events[j].at <= ttl
    requires SetsBetween(events, j, n) + (if events[n].SetEvent? then 1 else 0) < maxsize
    ensures IsSpared(ttl, maxsize, states[n], events[n], key)
  {
    if events[n].GetEvent? {
      HitIsLatest(ttl, maxsize, states, events, n, key);
    } else if |states[n]| >= maxsize {
      FewSetsSpareIt(ttl, maxsize, states, events, j, n, key);
    }
  }

  // One event leaves a recent entry in place.
  lemma RecentSurvives<V>(ttl: real, maxsize: nat, states: seq<Store<V>>, events: seq<Event<V>>, j: nat, n: nat,
                          next: nat, key: string)
    requires IsRun(ttl, maxsize, states, events) && ClockIncreases(events)
    requires next == n + 1 && IsRecent(ttl, maxsize, events, j, n, key)
    requires IsRecent(ttl, maxsize, events, j, next, key) && key in states[n]
    ensures key in states[next]
  {
    RecentIsSpared(ttl, maxsize, states, events, j, n, key);
    RunStep(ttl, maxsize, states, events, n);
    SparedStays(ttl, maxsize, states[n], events[n], states[next], key);
  }

  lemma JustStored<V>(ttl: real, maxsize: nat, states: seq<Store<V>>, events: seq<Event<V>>, j: nat)
    requires IsRun(ttl, maxsize, states, events) && j < |events| && events[j].SetEvent?
    ensures events[j].key in states[j + 1]
  {
    RunStep(ttl, maxsize, states, events, j);
  }

  lemma RecentAtOnce<V>(ttl: real, maxsize: nat, states: seq<Store<V>>, events: seq<Event<V>>, j: nat, key: string)
    requires IsRun(ttl, maxsize, states, events) && IsRecent(ttl, maxsize, events, j, j + 1, key)
    ensures key in states[j + 1]
  {
    StoredAtOnce(events, j + 1, key);
    JustStored(ttl, maxsize, states, events, j);
  }

  // What was recent after n events was so one event before.
  lemma RecentBefore<V>(ttl: real, maxsize: nat, events: seq<Event<V>>, j: nat, n: nat, key: string)
    requires ClockIncreases(events) && IsRecent(ttl, maxsize, events, j, n, key) && j + 1 < n
    ensures IsRecent(ttl, maxsize, events, j, n - 1, key)
  {
  }

  lemma {:induction false} RecentIsStored<V>(ttl: real, maxsize: nat, states: seq<Store<V>>, events: seq<Event<V>>,
                                             j: nat, n: nat, key: string)
    requires IsRun(ttl, maxsize, states, events) && ClockIncreases(events)
    requires IsRecent(ttl, maxsize, events, j, n, key)
    ensures key in states[n]
    decreases n
  {
    if n == j + 1 {
      RecentAtOnce(ttl, maxsize, states, events, j, key);
    } else {
      var before := n - 1;
      RecentBefore(ttl, maxsize, events, j, n, key);
      RecentIsStored(ttl, maxsize, states, events, j, before, key);
      RecentSurvives(ttl, maxsize, states, events, j, before, n, key);
    }
  }

  lemma {:induction false} StoredAtOnce<V>(events: seq<Event<V>>, n: nat, key: string)
    requires n <= |events| && LastSet(events, n, key).Some?
    ensures var j := LastSet(events, n, key).value;
      j < n && events[j].SetEvent? && events[j].key == key
  {
    if !(events[n - 1].SetEvent? && events[n - 1].key == key) {
      StoredAtOnce(events, n - 1, key);
    }
  }

  /** A key whose last store is at most ttl old and has been followed by fewer
      than maxsize stores is found, with the value last set. */
  lemma RecentAlwaysHits<V>(ttl: real, maxsize: nat, states: seq<Store<V>>, events: seq<Event<V>>, j: nat,
                            key: string, now: real)
    requires IsRun(ttl, maxsize, states, events) && ClockIncreases(events)
    requires j < |events| && LastSet(events, |events|, key) == Some(j)
    requires SetsBetween(events, j, |events|) < maxsize
    requires now - events[j].at <= ttl && forall i | 0 <= i < |events| :: events[i].at < now
    ensures events[j].SetEvent?
    ensures Lookup(ttl, states[|events|], key, now) == Some(events[j].value)
  {
    RecentIsStored(ttl, maxsize, states, events, j, |events|, key);
    HitIsLatest(ttl, maxsize, states, events, |events|, key);
  }

  /** What is found is never older than ttl, and is the value of the last set of its
      key; what is found to be older is gone afterwards, and nothing else is. */
  lemma HitIsFresh<V>(ttl: real, maxsize: nat, states: seq<Store<V>>, events: seq<Event<V>>, key: string, now: real)
    requires IsRun(ttl, maxsize, states, events)
    ensures var store := states[|events|];
      var last := LastSet(events, |events|, key);
      && (Lookup(ttl, store, key, now).Some? ==>
            && last.Some? && last.value < |events| && events[last.value].SetEvent?
            && Lookup(ttl, store, key, now) == Some(events[last.value].value)
            && now - events[last.value].at <= ttl)
      && (key in store && last.Some? && last.value < |events| && now - events[last.value].at > ttl ==>
            key !in AfterGet(ttl, store, key, now))
      && forall k | k in store && (k != key || now - store[k].at <= ttl) ::
           k in AfterGet(ttl, store, key, now) && AfterGet(ttl, store, key, now)[k] == store[k]
  {
    if key in states[|events|] {
      HitIsLatest(ttl, maxsize, states, events, |events|, key);
    }
  }

  /** Overwriting a stored key of a full cache: the cache loses another entry
      exactly when the key itself was not the oldest one chosen.  So it loses one
      whenever the key is not oldest, and none when the key alone is. */
  lemma OverwriteOfFullCacheEvicts<V>(maxsize: nat, before: Store<V>, key: string, value: V, now: real, after: Store<V>)
    requires Sets(maxsize, before, key, value, now, after) && |before| >= maxsize && key in before
    ensures after.Keys == before.Keys || exists k :: IsOldest(before, k) && k != key && after.Keys == before.Keys - {k}
    ensures !IsOldest(before, key) ==> |after| == |before| - 1
    ensures (forall k :: IsOldest(before, k) ==> k == key) ==> after.Keys == before.Keys
  {
    var oldest :| IsOldest(before, oldest) && after == (before - {oldest})[key := Stamped(now, value)];
    assert after.Keys == before.Keys - {oldest} + {key};
    if oldest == key {
      assert after.Keys == before.Keys;
    } else {
      assert after.Keys == before.Keys - {oldest};
    }
  }
}
