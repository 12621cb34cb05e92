/**
  The stale-tolerant configuration reader of internal/dynconfig/dynconfig_manager.go.

  A `DynconfigManager` keeps one entry in a TTL cache, refreshes it from the manager service when it
  has expired, and goes on serving the expired entry while the service does not answer. The answers
  of the service, the outcome of writing the cache file and the clock are parameters.
 */
module Dynconfig {
  import opened Cache
  import opened Wrappers

  const CACHE_KEY: Key := "dynconfig"

  /** What one call of get meets: the clock at its two reads, the answer of the service if it is
      asked, and whether the cache file could be written. */
  datatype World<V> = World(checked: Time, stored: Time, answer: Option<V>, saved: bool)

  /** The call asks the service: it found no unexpired entry. */
  predicate Asks<V>(items: Items<V>, w: World<V>) {
    CACHE_KEY !in Live(items, w.checked)
  }

  /** The last time the call looks at the clock. */
  function LastRead<V>(items: Items<V>, w: World<V>): Time {
    if Asks(items, w) && w.answer.Some? then w.stored else w.checked
  }

  class DynconfigManager<V> {
    const cache: TtlCache<V>
    const expire: Duration
    /** The content of the cache file, None when it cannot be read. */
    var file: Option<Items<V>>

    /** Everything but the fallible part of newDynconfigManager. */
    constructor (expire: Duration, file: Option<Items<V>>)
      ensures fresh(cache) && cache.items == map[] && this.expire == expire && this.file == file
      ensures cache.defaultExpiration == if expire == 0 then NO_EXPIRATION else expire
    {
      cache := new TtlCache(expire);
      this.expire, this.file := expire, file;
    }

    method LoadFromManager(w: World<V>, damaged: Option<Items<V>>) returns (ok: bool)
      modifies this, cache
      ensures ok <==> w.answer.Some? && w.saved
      ensures cache.items == if w.answer.Some?
                             then old(cache.items)[CACHE_KEY := Item(w.answer.value, Expiry(expire, cache.defaultExpiration, w.stored))]
                             else old(cache.items)
      ensures file == if w.answer.None? then old(file) else if w.saved then Some(cache.items) else damaged
    {
      if w.answer.None? {
        return false;
      }
      cache.Set(CACHE_KEY, w.answer.value, expire, w.stored);
      if !w.saved {
        file := damaged;
        return false;
      }
      file := Some(cache.items);
      ok := true;
    }

    /** newDynconfigManager after the cache is made: read the file, or else ask the service. */
    method Start(w: World<V>, damaged: Option<Items<V>>, at: Key -> Time) returns (ok: bool)
      requires cache.items == map[]
      modifies this, cache
      ensures ok <==> old(file).Some? || (w.answer.Some? && w.saved)
      ensures old(file).Some? ==> cache.items == old(file).value
      ensures old(file).None? && ok ==> CACHE_KEY in cache.items && cache.items[CACHE_KEY].value == w.answer.value
    {
      if file.Some? {
        cache.Load(file.value, at);
        ok := true;
      } else {
        ok := LoadFromManager(w, damaged);
      }
    }

    method Get(w: World<V>, damaged: Option<Items<V>>) returns (r: Option<V>)
      modifies this, cache
      ensures cache.items == AfterGet(old(cache.items), expire, cache.defaultExpiration, w)
      ensures r == Result(cache.items)
      ensures var was := old(cache.items);
              if CACHE_KEY in was && (was[CACHE_KEY].expiration <= 0 || w.checked <= was[CACHE_KEY].expiration)
              then r == Some(was[CACHE_KEY].value) && cache.items == was && file == old(file)
              else if w.answer.Some? then r == w.answer
              else r == (if CACHE_KEY in was then Some(was[CACHE_KEY].value) else None) && cache.items == was && file == old(file)
    {
      var found := cache.GetWithExpiration(CACHE_KEY, w.checked);
      if found.Some? {
        return Some(found.value.value);
      }
      var _ := LoadFromManager(w, damaged);
      r := cache.Get(CACHE_KEY);
    }
  }

  // ---------------------------------------------------------------------------------------------
  // Every sequence of calls
  // ---------------------------------------------------------------------------------------------

  /** The cache after one call of get. */
  function AfterGet<V>(items: Items<V>, expire: Duration, de: Duration, w: World<V>): Items<V> {
    if Asks(items, w) && w.answer.Some? then items[CACHE_KEY := Item(w.answer.value, Expiry(expire, de, w.stored))]
    else items
  }

  function Result<V>(items: Items<V>): Option<V> {
    if CACHE_KEY in items then Some(items[CACHE_KEY].value) else None
  }

  /** The cache before call i. */
  function Before<V>(items: Items<V>, expire: Duration, de: Duration, calls: seq<World<V>>, i: nat): Items<V>
    requires i <= |calls|
  {
    if i == 0 then items else AfterGet(Before(items, expire, de, calls, i - 1), expire, de, calls[i - 1])
  }

  /** Call i fetched a value. */
  predicate Fetches<V>(items: Items<V>, expire: Duration, de: Duration, calls: seq<World<V>>, i: nat)
    requires i < |calls|
  {
    Asks(Before(items, expire, de, calls, i), calls[i]) && calls[i].answer.Some?
  }

  /** Which calls fetched a value. */
  ghost function Log<V>(items: Items<V>, expire: Duration, de: Duration, calls: seq<World<V>>): seq<bool> {
    seq(|calls|, i requires 0 <= i < |calls| => Fetches(items, expire, de, calls, i))
  }

  /** Of the first n calls, call j is the last that fetched. */
  ghost predicate FetchedLast(log: seq<bool>, n: nat, j: nat) {
    j < n <= |log| && log[j] && forall i | j < i < n :: !log[i]
  }

  /** v is the newest value fetched by the first n calls, or `initial` if none of them fetched. */
  ghost predicate IsNewest<V>(initial: Option<V>, log: seq<bool>, calls: seq<World<V>>, n: nat, v: Option<V>)
    requires n <= |calls| == |log|
  {
    || (v == initial && forall i | 0 <= i < n :: !log[i])
    || (exists j: nat :: FetchedLast(log, n, j) && v == calls[j].answer)
  }

  lemma NewestStays<V>(initial: Option<V>, log: seq<bool>, calls: seq<World<V>>, n: nat, v: Option<V>)
    requires n < |calls| == |log| && IsNewest(initial, log, calls, n, v) && !log[n]
    ensures IsNewest(initial, log, calls, n + 1, v)
  {
    if j: nat :| FetchedLast(log, n, j) && v == calls[j].answer {
      assert FetchedLast(log, n + 1, j);
    }
  }

  lemma FetchedIsNewest<V>(initial: Option<V>, log: seq<bool>, calls: seq<World<V>>, n: nat)
    requires n < |calls| == |log| && log[n]
    ensures IsNewest(initial, log, calls, n + 1, calls[n].answer)
  {
    assert FetchedLast(log, n + 1, n);
  }

  lemma StepOfLog<V>(items: Items<V>, expire: Duration, de: Duration, calls: seq<World<V>>, n: nat)
    requires n < |calls|
    ensures if Log(items, expire, de, calls)[n] then Result(Before(items, expire, de, calls, n + 1)) == calls[n].answer
            else Before(items, expire, de, calls, n + 1) == Before(items, expire, de, calls, n)
  {
  }

  /** What the cache has after n calls. */
  function Value<V>(items: Items<V>, expire: Duration, de: Duration, calls: seq<World<V>>, n: nat): Option<V>
    requires n <= |calls|
  {
    Result(Before(items, expire, de, calls, n))
  }

  lemma NewestByOne<V>(items: Items<V>, expire: Duration, de: Duration, calls: seq<World<V>>, n: nat, log: seq<bool>)
    requires n < |calls| && log == Log(items, expire, de, calls)
    requires IsNewest(Result(items), log, calls, n, Value(items, expire, de, calls, n))
    ensures IsNewest(Result(items), log, calls, n + 1, Value(items, expire, de, calls, n + 1))
  {
    StepOfLog(items, expire, de, calls, n);
    if log[n] {
      FetchedIsNewest(Result(items), log, calls, n);
    } else {
      NewestStays(Result(items), log, calls, n, Value(items, expire, de, calls, n));
    }
  }

  lemma InitialIsNewest<V>(initial: Option<V>, log: seq<bool>, calls: seq<World<V>>)
    requires |calls| == |log|
    ensures IsNewest(initial, log, calls, 0, initial)
  {
  }

  lemma {:induction false} CacheHoldsNewest<V>(items: Items<V>, expire: Duration, de: Duration, calls: seq<World<V>>, n: nat,
                                               log: seq<bool>)
    requires n <= |calls| == |log| && log == Log(items, expire, de, calls)
    ensures IsNewest(Result(items), log, calls, n, Value(items, expire, de, calls, n))
  {
    if n == 0 {
      InitialIsNewest(Result(items), log, calls);
    } else {
      CacheHoldsNewest(items, expire, de, calls, n - 1, log);
      NewestByOne(items, expire, de, calls, n - 1, log);
    }
  }

  lemma {:induction false} HoldsLastFetched<V>(items: Items<V>, expire: Duration, de: Duration, calls: seq<World<V>>, n: nat, j: nat)
    requires n <= |calls| && FetchedLast(Log(items, expire, de, calls), n, j)
    ensures var now := Before(items, expire, de, calls, n);
            CACHE_KEY in now && now[CACHE_KEY] == Item(calls[j].answer.value, Expiry(expire, de, calls[j].stored))
  {
    var log := Log(items, expire, de, calls);
    assert log[j] == Fetches(items, expire, de, calls, j);
    if j < n - 1 {
      assert FetchedLast(log, n - 1, j);
      HoldsLastFetched(items, expire, de, calls, n - 1, j);
      assert !log[n - 1];
    }
  }

  /** After a fetch, get asks the service again exactly when the expiry time has passed since it stored
      the value, and never if that time is negative; zero stands for the default of the cache. */
  lemma AsksExactlyWhenExpired<V>(items: Items<V>, expire: Duration, de: Duration, calls: seq<World<V>>, n: nat, j: nat)
    requires n < |calls| && FetchedLast(Log(items, expire, de, calls), n, j) && 0 <= calls[j].stored
    ensures var asks := Asks(Before(items, expire, de, calls, n), calls[n]);
            && (expire > 0 ==> (asks <==> calls[n].checked > calls[j].stored + expire))
            && (expire < 0 ==> !asks)
            && (expire == 0 ==> (asks <==> de > 0 && calls[n].checked > calls[j].stored + de))
  {
    HoldsLastFetched(items, expire, de, calls, n, j);
  }

  /** For every sequence of calls, whatever the service and the file system do in each of them: call
      n returns the newest value fetched so far, its own fetch included, or the value the cache
      started with if there was no fetch; it fails only if there has never been an entry and the
      service does not answer in this very call; and it returns an expired value only if the service
      does not answer in this very call. */
  lemma GetIsAsFreshAsPossible<V>(items: Items<V>, expire: Duration, de: Duration, calls: seq<World<V>>, n: nat)
    requires n < |calls|
    ensures var now := Before(items, expire, de, calls, n + 1);
            && IsNewest(Result(items), Log(items, expire, de, calls), calls, n + 1, Result(now))
            && (Result(now).None? <==> CACHE_KEY !in items && forall i | 0 <= i <= n :: calls[i].answer.None?)
            && (Result(now).Some? && now[CACHE_KEY].Dead(LastRead(Before(items, expire, de, calls, n), calls[n])) ==> calls[n].answer.None?)
  {
    CacheHoldsNewest(items, expire, de, calls, n + 1, Log(items, expire, de, calls));
    NeverAnswered(items, expire, de, calls, n + 1);
  }

  lemma {:induction false} NeverAnswered<V>(items: Items<V>, expire: Duration, de: Duration, calls: seq<World<V>>, n: nat)
    requires n <= |calls|
    ensures CACHE_KEY !in Before(items, expire, de, calls, n)
            <==> CACHE_KEY !in items && forall i | 0 <= i < n :: calls[i].answer.None?
  {
    if n > 0 {
      NeverAnswered(items, expire, de, calls, n - 1);
    }
  }
}
