/**
  The TTL cache of pkg/cache/cache.go.

  An expired item stays in the map until `DeleteExpired` or an overwrite removes it. The module has
  the cache as a class over an explicit clock, and proves that removing expired items, at any moments
  of any run, is invisible to every operation that respects expiration.
 */
module Cache {
  import opened Wrappers

  type Key = string
  type Time = int
  type Duration = int

  const NO_EXPIRATION: Duration := -1
  const DEFAULT_EXPIRATION: Duration := 0

  datatype Item<V> = Item(value: V, expiration: Time) {

    /** Item.Expired, used by Load. */
    predicate Expired(now: Time) {
      expiration != 0 && now > expiration
    }

    /** The test inlined everywhere else; it never expires a negative expiration. */
    predicate Dead(now: Time) {
      expiration > 0 && now > expiration
    }
  }

  type Items<V> = map<Key, Item<V>>

  /** The items that are not expired. */
  function Live<V>(items: Items<V>, now: Time): Items<V> {
    map k | k in items && !items[k].Dead(now) :: items[k]
  }

  /** The expiration of an item stored at `now` for duration d. */
  function Expiry(d: Duration, defaultExpiration: Duration, now: Time): Time {
    var d' := if d == DEFAULT_EXPIRATION then defaultExpiration else d;
    if d' > 0 then now + d' else 0
  }

  /** What GetWithExpiration reports: the object and, if it ever expires, when. */
  datatype Hit<V> = Hit(value: V, expiration: Option<Time>)

  function Lookup<V>(items: Items<V>, k: Key): Option<Hit<V>> {
    if k !in items then None
    else Some(Hit(items[k].value, if items[k].expiration > 0 then Some(items[k].expiration) else None))
  }

  /** Items loaded over a cache: they only replace missing and expired items. `at(k)` is when Load
      looks at key k. */
  function Merge<V>(items: Items<V>, loaded: Items<V>, at: Key -> Time): Items<V> {
    map k | k in items.Keys + loaded.Keys ::
      if Takes(items, loaded, at, k) then loaded[k] else items[k]
  }

  /** `evicted` has every item that has gone, with its object, and has it once. */
  ghost predicate EvictsEachOnce<V>(was: Items<V>, items: Items<V>, evicted: seq<(Key, V)>) {
    && (forall i, j | 0 <= i < j < |evicted| :: evicted[i].0 != evicted[j].0)
    && (forall i | 0 <= i < |evicted| ::
          evicted[i].0 in was && evicted[i].0 !in items && evicted[i].1 == was[evicted[i].0].value)
    && (forall k | k in was && k !in items :: exists i :: 0 <= i < |evicted| && evicted[i].0 == k)
  }

  lemma EvictOne<V>(was: Items<V>, items: Items<V>, evicted: seq<(Key, V)>, k: Key)
    requires EvictsEachOnce(was, items, evicted) && k in items && k in was && items[k] == was[k]
    ensures EvictsEachOnce(was, items - {k}, evicted + [(k, items[k].value)])
  {
    var more := evicted + [(k, items[k].value)];
    assert more[|evicted|].0 == k;
    forall k' | k' in was && k' !in items - {k} ensures exists i :: 0 <= i < |more| && more[i].0 == k' {
      if k' != k {
        var i :| 0 <= i < |evicted| && evicted[i].0 == k';
        assert more[i].0 == k';
      }
    }
  }

  class TtlCache<V> {
    var items: Items<V>
    const defaultExpiration: Duration

    constructor (expiration: Duration)
      ensures items == map[]
      ensures defaultExpiration == if expiration == 0 then NO_EXPIRATION else expiration
    {
      items := map[];
      defaultExpiration := if expiration == 0 then NO_EXPIRATION else expiration;
    }

    method Set(k: Key, x: V, d: Duration, now: Time)
      modifies this
      ensures items == old(items)[k := Item(x, Expiry(d, defaultExpiration, now))]
      ensures forall clock :: items == After(old(items), defaultExpiration, Event(clock, Op.Set(k, x, d, now)))
    {
      var e := 0;
      var d' := d;
      if d' == DEFAULT_EXPIRATION {
        d' := defaultExpiration;
      }
      if d' > 0 {
        e := now + d';
      }
      items := items[k := Item(x, e)];
    }

    /** Get does not look at the expiration. */
    method Get(k: Key) returns (r: Option<V>)
      ensures r == if k in items then Some(items[k].value) else None
    {
      if k !in items {
        return None;
      }
      r := Some(items[k].value);
    }

    method GetWithExpiration(k: Key, now: Time) returns (r: Option<Hit<V>>)
      ensures r == Lookup(Live(items, now), k)
      ensures [Found(r)] == Reports(items, defaultExpiration, Event(now, Op.GetWithExpiration(k)))
    {
      if k !in items {
        return None;
      }
      var item := items[k];
      if item.expiration > 0 {
        if now > item.expiration {
          return None;
        }
        return Some(Hit(item.value, Some(item.expiration)));
      }
      r := Some(Hit(item.value, None));
    }

    method Add(k: Key, x: V, d: Duration, now: Time, later: Time) returns (ok: bool)
      modifies this
      ensures ok <==> k !in Live(old(items), now)
      ensures items == if ok then old(items)[k := Item(x, Expiry(d, defaultExpiration, later))] else old(items)
      ensures items == After(old(items), defaultExpiration, Event(now, Op.Add(k, x, d, later)))
      ensures [Added(ok)] == Reports(old(items), defaultExpiration, Event(now, Op.Add(k, x, d, later)))
    {
      var found := GetWithExpiration(k, now);
      if found.Some? {
        return false;
      }
      Set(k, x, d, later);
      ok := true;
    }

    method Delete(k: Key)
      modifies this
      ensures items == old(items) - {k}
      ensures forall clock :: items == After(old(items), defaultExpiration, Event(clock, Op.Delete(k)))
    {
      items := items - {k};
    }

    /** DeleteExpired, with the keys and objects it hands to onEvicted. */
    method DeleteExpired(now: Time) returns (evicted: seq<(Key, V)>)
      modifies this
      ensures items == Live(old(items), now)
      ensures forall clock :: items == After(old(items), defaultExpiration, Event(clock, Op.DeleteExpired(now)))
      ensures EvictsEachOnce(old(items), items, evicted)
    {
      evicted := [];
      var keys := items.Keys;
      while keys != {}
        invariant keys <= items.Keys <= old(items).Keys
        invariant forall k | k in items :: items[k] == old(items)[k]
        invariant forall k | k in old(items) && k !in keys :: k in items <==> !old(items)[k].Dead(now)
        invariant EvictsEachOnce(old(items), items, evicted)
        decreases keys
      {
        var k :| k in keys;
        keys := keys - {k};
        if items[k].expiration > 0 && now > items[k].expiration {
          EvictOne(old(items), items, evicted, k);
          evicted := evicted + [(k, items[k].value)];
          items := items - {k};
        }
      }
    }

    method Load(loaded: Items<V>, at: Key -> Time)
      modifies this
      ensures items == Merge(old(items), loaded, at)
      ensures forall clock :: items == After(old(items), defaultExpiration, Event(clock, Op.Load(loaded, at)))
    {
      var keys := loaded.Keys;
      while keys != {}
        invariant keys <= loaded.Keys
        invariant items.Keys == old(items).Keys + (loaded.Keys - keys)
        invariant forall k | k in old(items) && k in keys :: items[k] == old(items)[k]
        invariant forall k | k in items && k !in keys :: items[k] == Merge(old(items), loaded, at)[k]
        decreases keys
      {
        var k :| k in keys;
        if k !in items || items[k].Expired(at(k)) {
          items := items[k := loaded[k]];
        }
        keys := keys - {k};
      }
    }

    /** The unexpired items, copied. */
    method Items(now: Time) returns (m: Items<V>)
      ensures m == Live(items, now)
      ensures [Listed(m)] == Reports(items, defaultExpiration, Event(now, Op.Items))
    {
      m := map[];
      var keys := items.Keys;
      while keys != {}
        invariant keys <= items.Keys
        invariant m == map k | k in Live(items, now) && k !in keys :: items[k]
        decreases keys
      {
        var k :| k in keys;
        keys := keys - {k};
        if !(items[k].expiration > 0 && now > items[k].expiration) {
          m := m[k := items[k]];
        }
      }
    }

    method Flush()
      modifies this
      ensures items == map[]
      ensures forall clock :: items == After(old(items), defaultExpiration, Event(clock, Op.Flush))
    {
      items := map[];
    }
  }

  // ---------------------------------------------------------------------------------------------
  // Cleaning is invisible
  // ---------------------------------------------------------------------------------------------

  /** The operations, in the order in which they take the lock. `stamp` is the clock read by a Set
      before it takes the lock, `now` the one read by DeleteExpired before it does. */
  datatype Op<V> =
    | Set(k: Key, x: V, d: Duration, stamp: Time)
    | Add(k: Key, x: V, d: Duration, stamp: Time)
    | GetWithExpiration(k: Key)
    | Delete(k: Key)
    | DeleteExpired(now: Time)
    | Load(loaded: Items<V>, at: Key -> Time)
    | Items
    | Flush

  datatype Event<V> = Event(clock: Time, op: Op<V>)

  datatype Report<V> = Found(hit: Option<Hit<V>>) | Added(ok: bool) | Listed(live: Items<V>)

  ghost function After<V>(items: Items<V>, de: Duration, e: Event<V>): Items<V> {
    match e.op
    case Set(k, x, d, stamp) => items[k := Item(x, Expiry(d, de, stamp))]
    case Add(k, x, d, stamp) => if k in Live(items, e.clock) then items else items[k := Item(x, Expiry(d, de, stamp))]
    case GetWithExpiration(_) => items
    case Delete(k) => items - {k}
    case DeleteExpired(now) => Live(items, now)
    case Load(loaded, at) => Merge(items, loaded, at)
    case Items => items
    case Flush => map[]
  }

  /** What an operation tells its caller; for Load, the live items it leaves. */
  ghost function Reports<V>(items: Items<V>, de: Duration, e: Event<V>): seq<Report<V>> {
    match e.op
    case Add(k, _, _, _) => [Added(k !in Live(items, e.clock))]
    case GetWithExpiration(k) => [Found(Lookup(Live(items, e.clock), k))]
    case Load(_, _) => [Listed(Live(After(items, de, e), e.clock))]
    case Items => [Listed(Live(items, e.clock))]
    case _ => []
  }

  ghost function Observe<V>(items: Items<V>, de: Duration, events: seq<Event<V>>): seq<Report<V>>
    decreases |events|
  {
    if events == [] then []
    else Reports(items, de, events[0]) + Observe(After(items, de, events[0]), de, events[1..])
  }

  /** Load takes the item of a key from what it loads. */
  predicate Takes<V>(items: Items<V>, loaded: Items<V>, at: Key -> Time, k: Key) {
    k in loaded && (k !in items || items[k].Expired(at(k)))
  }

  /** The two tests differ exactly on a negative expiration that has passed. */
  lemma TestsDiffer<V>(item: Item<V>, now: Time)
    ensures item.Expired(now) != item.Dead(now) <==> item.expiration < 0 && now > item.expiration
  {
  }

  /** So Load replaces an item that every other operation still reports exactly when its expiration is
      negative and has passed. */
  lemma LoadReplacesLive<V>(items: Items<V>, loaded: Items<V>, at: Key -> Time, k: Key)
    requires k in Live(items, at(k)) && k in loaded
    ensures Takes(items, loaded, at, k) <==> items[k].expiration < 0 && at(k) > items[k].expiration
    ensures Merge(items, loaded, at)[k] == if Takes(items, loaded, at, k) then loaded[k] else items[k]
  {
    TestsDiffer(items[k], at(k));
  }

  /** It does happen: a file with a negative expiration is loaded, and then another file. */
  lemma LoadReplacesLiveExample<V>(de: Duration, k: Key, x: V, y: V) returns (run: seq<Event<V>>)
    ensures |run| == 2 && InTime(run) && run[0].op.Load? && run[1].op.Load?
    ensures k in Live(ItemsAt(de, run, 1), run[1].clock) && ItemsAt(de, run, 1)[k] == Item(x, -1)
    ensures k in ItemsAt(de, run, 2) && ItemsAt(de, run, 2)[k] == Item(y, 0)
  {
    var first := Event(0, Load(map[k := Item(x, -1)], _ => 0));
    var second := Event(0, Load(map[k := Item(y, 0)], _ => 0));
    run := [first, second];
    assert ItemsAt(de, run, 0) == map[];
    assert ItemsAt(de, run, 1) == Merge(map[], first.op.loaded, first.op.at);
    assert ItemsAt(de, run, 2) == Merge(ItemsAt(de, run, 1), second.op.loaded, second.op.at);
  }

  // What Get finds

  /** The cache after the first n events of a run that starts empty. */
  ghost function ItemsAt<V>(de: Duration, run: seq<Event<V>>, n: nat): Items<V>
    requires n <= |run|
  {
    if n == 0 then map[] else After(ItemsAt(de, run, n - 1), de, run[n - 1])
  }

  /** The item that an operation stores under a key. */
  ghost function Stored<V>(items: Items<V>, de: Duration, e: Event<V>, k: Key): Option<Item<V>> {
    match e.op
    case Set(k', x, d, stamp) => if k == k' then Some(Item(x, Expiry(d, de, stamp))) else None
    case Add(k', x, d, stamp) => if k == k' && k !in Live(items, e.clock) then Some(Item(x, Expiry(d, de, stamp))) else None
    case Load(loaded, at) => if Takes(items, loaded, at, k) then Some(loaded[k]) else None
    case _ => None
  }

  ghost predicate Removed<V>(items: Items<V>, e: Event<V>, k: Key) {
    || (e.op.Delete? && e.op.k == k)
    || e.op.Flush?
    || (e.op.DeleteExpired? && k in items && items[k].Dead(e.op.now))
  }

  lemma EventAt<V>(items: Items<V>, de: Duration, e: Event<V>, k: Key)
    ensures var stored, q := Stored(items, de, e, k), After(items, de, e);
            if stored.Some? then k in q && q[k] == stored.value
            else if Removed(items, e, k) then k !in q
            else (k in q <==> k in items) && (k in q ==> q[k] == items[k])
  {
  }

  /** Event m neither stores nor removes anything under the key. */
  ghost predicate LeavesAlone<V>(de: Duration, run: seq<Event<V>>, m: nat, k: Key)
    requires m < |run|
  {
    Stored(ItemsAt(de, run, m), de, run[m], k).None? && !Removed(ItemsAt(de, run, m), run[m], k)
  }

  /** Event j stored the item that is under the key after n events: nothing has stored or removed
      anything there since. */
  ghost predicate StoredLast<V>(de: Duration, run: seq<Event<V>>, n: nat, k: Key, j: nat)
    requires n <= |run|
  {
    && j < n && Stored(ItemsAt(de, run, j), de, run[j], k).Some?
    && forall m | j < m < n :: LeavesAlone(de, run, m, k)
  }

  lemma {:induction false} FoundIsStoredLast<V>(de: Duration, run: seq<Event<V>>, n: nat, k: Key) returns (j: nat)
    requires n <= |run| && k in ItemsAt(de, run, n)
    ensures StoredLast(de, run, n, k, j)
  {
    var items, e := ItemsAt(de, run, n - 1), run[n - 1];
    EventAt(items, de, e, k);
    if Stored(items, de, e, k).Some? {
      j := n - 1;
    } else {
      j := FoundIsStoredLast(de, run, n - 1, k);
      assert LeavesAlone(de, run, n - 1, k);
    }
  }

  lemma {:induction false} StoredLastIsFound<V>(de: Duration, run: seq<Event<V>>, n: nat, k: Key, j: nat)
    requires n <= |run| && StoredLast(de, run, n, k, j)
    ensures k in ItemsAt(de, run, n) && ItemsAt(de, run, n)[k] == Stored(ItemsAt(de, run, j), de, run[j], k).value
  {
    EventAt(ItemsAt(de, run, n - 1), de, run[n - 1], k);
    if j < n - 1 {
      assert LeavesAlone(de, run, n - 1, k);
      StoredLastIsFound(de, run, n - 1, k, j);
    }
  }

  /** At any point of any run Get finds an object, expired or not, exactly when one has been stored
      and nothing was stored or removed under its key since, and it finds that object. */
  lemma GetFindsLastStored<V>(de: Duration, run: seq<Event<V>>, n: nat, k: Key, item: Item<V>)
    requires n <= |run|
    ensures k in ItemsAt(de, run, n) && ItemsAt(de, run, n)[k] == item
            <==> exists j: nat :: StoredLast(de, run, n, k, j) && Stored(ItemsAt(de, run, j), de, run[j], k) == Some(item)
  {
    if k in ItemsAt(de, run, n) && ItemsAt(de, run, n)[k] == item {
      var j := FoundIsStoredLast(de, run, n, k);
      StoredLastIsFound(de, run, n, k, j);
    }
    if j: nat :| StoredLast(de, run, n, k, j) && Stored(ItemsAt(de, run, j), de, run[j], k) == Some(item) {
      StoredLastIsFound(de, run, n, k, j);
    }
  }

  /** How long a stored object is read: after a Set, or an Add that stores, at time t for duration d, and
      as long as nothing else is stored or removed under the key, GetWithExpiration reports the object
      with its expiration up to and including t + d, and nothing after; a negative duration never
      expires, and zero stands for the default duration. */
  lemma ReadUntilExpired<V>(de: Duration, run: seq<Event<V>>, n: nat, k: Key, j: nat, x: V, d: Duration, t: Time, now: Time)
    requires n <= |run| && StoredLast(de, run, n, k, j) && 0 <= t
    requires run[j].op == Op.Set(k, x, d, t) || run[j].op == Op.Add(k, x, d, t)
    ensures var reported := Reports(ItemsAt(de, run, n), de, Event(now, Op.GetWithExpiration(k)));
            && (d > 0 && now <= t + d ==> reported == [Found(Some(Hit(x, Some(t + d))))])
            && (d > 0 && now > t + d ==> reported == [Found(None)])
            && (d < 0 ==> reported == [Found(Some(Hit(x, None)))])
            && (d == 0 && de > 0 && now <= t + de ==> reported == [Found(Some(Hit(x, Some(t + de))))])
            && (d == 0 && de > 0 && now > t + de ==> reported == [Found(None)])
            && (d == 0 && de <= 0 ==> reported == [Found(Some(Hit(x, None)))])
  {
    StoredLastIsFound(de, run, n, k, j);
  }

  /** The clock never goes back, and every clock read inside an operation is no earlier than the
      operation, except those taken before the lock, which are no later. */
  ghost predicate InTime<V>(events: seq<Event<V>>) {
    && (forall i, j | 0 <= i < j < |events| :: events[i].clock <= events[j].clock)
    && (forall i | 0 <= i < |events| :: WellTimed(events[i]))
  }

  ghost predicate WellTimed<V>(e: Event<V>) {
    && (e.op.DeleteExpired? ==> e.op.now <= e.clock)
    && (e.op.Load? ==> forall k: Key :: e.clock <= e.op.at(k))
  }

  /** The same run without any cleaning. */
  ghost function Uncleaned<V>(events: seq<Event<V>>): seq<Event<V>> {
    if events == [] then []
    else (if events[0].op.DeleteExpired? then [] else [events[0]]) + Uncleaned(events[1..])
  }

  /** Two caches that differ only in items already expired at time t. */
  ghost predicate Similar<V>(a: Items<V>, b: Items<V>, t: Time) {
    Live(a, t) == Live(b, t)
  }

  lemma SimilarLater<V>(a: Items<V>, b: Items<V>, t: Time, t': Time)
    requires Similar(a, b, t) && t <= t'
    ensures Similar(a, b, t')
  {
    forall k ensures k in Live(a, t') <==> k in Live(b, t') {
      assert k in Live(a, t') <==> k in Live(a, t) && !Live(a, t)[k].Dead(t');
      assert k in Live(b, t') <==> k in Live(b, t) && !Live(b, t)[k].Dead(t');
    }
    forall k | k in Live(a, t') ensures Live(a, t')[k] == Live(b, t')[k] {
      assert Live(a, t)[k] == Live(b, t)[k];
    }
  }

  lemma CleaningKeepsSimilar<V>(a: Items<V>, b: Items<V>, now: Time, t: Time)
    requires Similar(a, b, t) && now <= t
    ensures Similar(Live(a, now), b, t)
  {
    assert Live(Live(a, now), t) == Live(a, t);
  }

  lemma MergeKeepsSimilar<V>(a: Items<V>, b: Items<V>, loaded: Items<V>, at: Key -> Time, t: Time)
    requires Similar(a, b, t) && forall k: Key :: t <= at(k)
    ensures Similar(Merge(a, loaded, at), Merge(b, loaded, at), t)
  {
    var a', b' := Merge(a, loaded, at), Merge(b, loaded, at);
    forall k ensures k in Live(a', t) <==> k in Live(b', t)
             ensures k in Live(a', t) ==> Live(a', t)[k] == Live(b', t)[k] {
      assert t <= at(k);
      if k in Live(a, t) {
        assert Live(a, t)[k] == Live(b, t)[k];
        assert a[k] == b[k];
      } else {
        assert k !in Live(b, t);
      }
    }
  }

  lemma StepKeepsSimilar<V>(a: Items<V>, b: Items<V>, de: Duration, e: Event<V>)
    requires Similar(a, b, e.clock) && WellTimed(e) && !e.op.DeleteExpired?
    ensures Similar(After(a, de, e), After(b, de, e), e.clock)
    ensures Reports(a, de, e) == Reports(b, de, e)
  {
    match e.op
    case Load(loaded, at) => MergeKeepsSimilar(a, b, loaded, at, e.clock);
    case Set(k, _, _, _) => UpdateKeepsSimilar(a, b, k, After(a, de, e)[k], e.clock);
    case Add(k, x, d, stamp) => UpdateKeepsSimilar(a, b, k, Item(x, Expiry(d, de, stamp)), e.clock);
    case Delete(k) =>
      assert Live(a - {k}, e.clock) == Live(a, e.clock) - {k};
      assert Live(b - {k}, e.clock) == Live(b, e.clock) - {k};
    case _ =>
  }

  lemma UpdateKeepsSimilar<V>(a: Items<V>, b: Items<V>, k: Key, item: Item<V>, t: Time)
    requires Similar(a, b, t)
    ensures Similar(a[k := item], b[k := item], t)
  {
    var rest := if item.Dead(t) then map[] else map[k := item];
    assert Live(a[k := item], t) == (Live(a, t) - {k}) + rest;
    assert Live(b[k := item], t) == (Live(b, t) - {k}) + rest;
  }

  lemma {:induction false} SimilarRunsReportTheSame<V>(a: Items<V>, b: Items<V>, de: Duration, events: seq<Event<V>>)
    requires InTime(events)
    requires events != [] ==> Similar(a, b, events[0].clock)
    ensures Observe(a, de, events) == Observe(b, de, Uncleaned(events))
    decreases |events|
  {
    if events != [] {
      var e, rest := events[0], events[1..];
      assert WellTimed(e);
      if e.op.DeleteExpired? {
        CleaningKeepsSimilar(a, b, e.op.now, e.clock);
        if rest != [] { SimilarLater(After(a, de, e), b, e.clock, rest[0].clock); }
        SimilarRunsReportTheSame(After(a, de, e), b, de, rest);
        assert Uncleaned(events) == Uncleaned(rest);
      } else {
        StepKeepsSimilar(a, b, de, e);
        if rest != [] { SimilarLater(After(a, de, e), After(b, de, e), e.clock, rest[0].clock); }
        SimilarRunsReportTheSame(After(a, de, e), After(b, de, e), de, rest);
        assert ([e] + Uncleaned(rest))[1..] == Uncleaned(rest);
      }
    }
  }

  /** Two runs that differ only in when, and whether, expired items are deleted report the same. */
  lemma CleaningIsInvisible<V>(items: Items<V>, de: Duration, run: seq<Event<V>>, run': seq<Event<V>>)
    requires InTime(run) && InTime(run') && Uncleaned(run) == Uncleaned(run')
    ensures Observe(items, de, run) == Observe(items, de, run')
  {
    SimilarRunsReportTheSame(items, items, de, run);
    SimilarRunsReportTheSame(items, items, de, run');
  }
}
