/**
 * The request and bandwidth limiters, run one call at a time with a monotone
 * clock, on their three back ends: a local map of buckets, a cache that is read
 * and then written, and a cache with an atomic counter. Times are nanoseconds
 * from the origin that Truncate rounds to, which Unix time differs from by
 * whole milliseconds. All three are proved to decide like one ledger of counts
 * per (key, aligned window), and the ledger to respect the limit.
 */
module Limiter {
  import opened Common

  type Key = string

  datatype Decision = Decision(allowed: bool, remaining: int)

  datatype Bucket = Bucket(count: int, windowAt: int)

  datatype Entry = Entry(count: int, expires: int)

  type Local = map<Key, Bucket>

  const MILLISECOND: nat := 1_000_000
  const SECOND: nat := 1_000_000_000
  const TEN_MINUTES: int := 600_000_000_000

  /** Cache keys are formed from the key and the start of the window in whole milliseconds. */
  type Store = map<(Key, int), Entry>

  /** now.Truncate(window) */
  function WindowStart(now: nat, window: nat): nat
    requires window > 0
  {
    now / window * window
  }

  /** windowStart.UnixMilli() */
  function UnixMilli(start: nat): nat {
    start / MILLISECOND
  }

  function CacheKey(key: Key, window: nat, now: nat): (Key, int)
    requires window > 0
  {
    (key, UnixMilli(WindowStart(now, window)))
  }

  /** int64 subtraction. */
  function Sub64(a: int, b: int): int { Add64(a, -b) }

  /** The check every back end but one makes: add, compare, report what is left. */
  function Decide(count: int, n: int, limit: int): Decision {
    var total := Add64(count, n);
    if total > limit then Decision(false, Max(Sub64(limit, count), 0)) else Decision(true, Sub64(limit, total))
  }

  /** The count after it: a refused call leaves no trace. */
  function CountAfter(count: int, n: int, limit: int): int {
    if Decide(count, n, limit).allowed then Add64(count, n) else count
  }

  // ----- the back ends ------------------------------------------------------

  class Limiter {
    var local: Local
    var store: Store

    /** allowLocal: the bucket is replaced when a new window starts. */
    method AllowLocal(key: Key, n: int, limit: int, window: nat, now: nat) returns (d: Decision)
      requires window > 0
      modifies this`local
      ensures (local, d) == LocalAllow(old(local), key, n, limit, window, now)
    {
      var windowStart := WindowStart(now, window);
      if key !in local || local[key].windowAt < windowStart {
        local := local[key := Bucket(0, windowStart)];
      }
      var bucket := local[key];
      assert local == old(local)[key := bucket];
      var newCount := Add64(bucket.count, n);
      if newCount > limit {
        var remaining := Sub64(limit, bucket.count);
        if remaining < 0 {
          remaining := 0;
        }
        return Decision(false, remaining);
      }
      local := local[key := bucket.(count := newCount)];
      assert local == old(local)[key := bucket.(count := newCount)];
      return Decision(true, Sub64(limit, newCount));
    }

    /** allowWithCache: get, decide, set. */
    method AllowWithCache(key: Key, n: int, limit: int, window: nat, now: nat) returns (d: Decision)
      requires window > 0
      modifies this`store
      ensures (store, d) == CacheAllow(old(store), key, n, limit, window, now)
    {
      var cacheKey := CacheKey(key, window, now);
      var count := 0;
      if cacheKey in store && now <= store[cacheKey].expires {
        count := store[cacheKey].count;
      }
      var newCount := Add64(count, n);
      if newCount > limit {
        var remaining := Sub64(limit, count);
        if remaining < 0 {
          remaining := 0;
        }
        return Decision(false, remaining);
      }
      store := store[cacheKey := Entry(newCount, now + window + SECOND)];
      return Decision(true, Sub64(limit, newCount));
    }

    /** The counter's IncrBy: an entry at or past its expiry restarts. */
    method IncrBy(cacheKey: (Key, int), n: int, ttl: nat, now: nat) returns (total: int)
      modifies this`store
      ensures (store, total) == Incr(old(store), cacheKey, n, ttl, now)
    {
      var count, expires := 0, now + ttl;
      if cacheKey in store && now < store[cacheKey].expires {
        count, expires := store[cacheKey].count, store[cacheKey].expires;
      }
      total := Add64(count, n);
      store := store[cacheKey := Entry(total, expires)];
    }

    /** The bandwidth limiter's allowWithCounter: charge first, hand back when refused. */
    method AllowBytesWithCounter(key: Key, n: int, limit: int, window: nat, now: nat) returns (d: Decision)
      requires window > 0
      modifies this`store
      ensures (store, d) == CounterAllowBytes(old(store), key, n, limit, window, now)
    {
      var cacheKey := CacheKey(key, window, now);
      var total := IncrBy(cacheKey, n, window + SECOND, now);
      if total > limit {
        total := IncrBy(cacheKey, -n, window + SECOND, now);
        var remaining := Sub64(limit, total);
        if remaining < 0 {
          remaining := 0;
        }
        return Decision(false, remaining);
      }
      return Decision(true, Sub64(limit, total));
    }

    /** The request limiter's allowWithCounter: a refused request still counts. */
    method AllowRequestsWithCounter(key: Key, n: int, limit: int, window: nat, now: nat) returns (d: Decision)
      requires window > 0
      modifies this`store
      ensures (store, d) == CounterAllowRequests(old(store), key, n, limit, window, now)
    {
      var count := IncrBy(CacheKey(key, window, now), n, window + SECOND, now);
      var remaining := Sub64(limit, count);
      if remaining < 0 {
        remaining := 0;
      }
      return Decision(count <= limit, remaining);
    }

    /** cleanup: buckets more than ten minutes old are dropped. */
    method Cleanup(now: int)
      modifies this`local
      ensures local == Cleaned(old(local), now)
      ensures forall k :: k in local <==> k in old(local) && now - old(local)[k].windowAt <= 600_000_000_000
      ensures forall k :: k in local ==> local[k] == old(local)[k]
    {
      var cutoff := now - TEN_MINUTES;
      var todo := local.Keys;
      while todo != {}
        invariant todo <= old(local).Keys
        invariant local == map k | k in old(local) && (k in todo || !(old(local)[k].windowAt < cutoff)) :: old(local)[k]
        decreases todo
      {
        var k :| k in todo;
        if local[k].windowAt < cutoff {
          local := local - {k};
        }
        todo := todo - {k};
      }
    }
  }

  function LocalCount(m: Local, key: Key, start: int): int {
    if key in m && m[key].windowAt >= start then m[key].count else 0
  }

  function LocalAllow(m: Local, key: Key, n: int, limit: int, window: nat, now: nat): (Local, Decision)
    requires window > 0
  {
    var start := WindowStart(now, window);
    var count := LocalCount(m, key, start);
    var at := if key in m && m[key].windowAt >= start then m[key].windowAt else start;
    (m[key := Bucket(CountAfter(count, n, limit), at)], Decide(count, n, limit))
  }

  function CacheAllow(c: Store, key: Key, n: int, limit: int, window: nat, now: nat): (Store, Decision)
    requires window > 0
  {
    var k := CacheKey(key, window, now);
    var count := if k in c && now <= c[k].expires then c[k].count else 0;
    var d := Decide(count, n, limit);
    (if d.allowed then c[k := Entry(Add64(count, n), now + window + SECOND)] else c, d)
  }

  function Incr(c: Store, k: (Key, int), n: int, ttl: nat, now: nat): (Store, int) {
    var live := k in c && now < c[k].expires;
    var total := Add64(if live then c[k].count else 0, n);
    (c[k := Entry(total, if live then c[k].expires else now + ttl)], total)
  }

  function CounterAllowBytes(c: Store, key: Key, n: int, limit: int, window: nat, now: nat): (Store, Decision)
    requires window > 0
  {
    var k := CacheKey(key, window, now);
    var (charged, total) := Incr(c, k, n, window + SECOND, now);
    if total > limit then
      var (refunded, left) := Incr(charged, k, -n, window + SECOND, now);
      (refunded, Decision(false, Max(Sub64(limit, left), 0)))
    else (charged, Decision(true, Sub64(limit, total)))
  }

  function CounterAllowRequests(c: Store, key: Key, n: int, limit: int, window: nat, now: nat): (Store, Decision)
    requires window > 0
  {
    var (counted, count) := Incr(c, CacheKey(key, window, now), n, window + SECOND, now);
    (counted, Decision(count <= limit, Max(Sub64(limit, count), 0)))
  }

  function Cleaned(m: Local, now: int): Local {
    map k | k in m && !(m[k].windowAt < now - TEN_MINUTES) :: m[k]
  }

  // ----- the ledger they all refine -----------------------------------------

  type Ledger = map<(Key, int), int>

  function Count(l: Ledger, k: (Key, int)): int {
    if k in l then l[k] else 0
  }

  function LedgerAllow(l: Ledger, key: Key, n: int, limit: int, window: nat, now: nat): (Ledger, Decision)
    requires window > 0
  {
    var k := (key, WindowStart(now, window));
    (l[k := CountAfter(Count(l, k), n, limit)], Decide(Count(l, k), n, limit))
  }

  /** No entry lies in a window later than the one the clock is in; counts are int64. */
  ghost predicate LedgerOk(l: Ledger, window: nat, now: nat)
    requires window > 0
  {
    forall k :: k in l ==> IsInt64(l[k]) && k.1 <= WindowStart(now, window)
  }

  ghost predicate LocalRefines(m: Local, l: Ledger, window: nat, now: nat)
    requires window > 0
  {
    var start := WindowStart(now, window);
    && (forall key :: key in m ==> m[key].windowAt <= start)
    && (forall key :: LocalCount(m, key, start) == Count(l, (key, start)))
  }

  ghost predicate StoreLives(c: Store, window: nat, now: nat)
    requires window > 0
  {
    var start := WindowStart(now, window);
    && (forall k :: k in c ==> k.1 <= UnixMilli(start))
    && (forall k :: k in c && k.1 == UnixMilli(start) ==> c[k].expires > start + window)
  }

  function Cached(c: Store, key: Key, start: nat): int {
    var k := (key, UnixMilli(start));
    if k in c then c[k].count else 0
  }

  ghost predicate CacheRefines(c: Store, l: Ledger, window: nat, now: nat)
    requires window > 0
  {
    var start := WindowStart(now, window);
    && StoreLives(c, window, now)
    && (forall key :: Cached(c, key, start) == Count(l, (key, start)))
  }

  /** Counting refused requests too, the counter runs ahead of the ledger once the limit is reached. */
  ghost predicate RequestsRefine(c: Store, l: Ledger, limit: int, window: nat, now: nat, asked: nat)
    requires window > 0
  {
    var start := WindowStart(now, window);
    && StoreLives(c, window, now)
    && (forall key ::
          0 <= Cached(c, key, start) <= asked && Count(l, (key, start)) == Min(Cached(c, key, start), limit))
  }

  // ----- time passing -------------------------------------------------------

  lemma WindowStartFacts(now: nat, window: nat)
    requires window > 0
    ensures WindowStart(now, window) <= now < WindowStart(now, window) + window
  {
    assert now == now / window * window + now % window;
  }

  lemma MultiplesApart(i: nat, j: nat, window: nat)
    requires i < j
    ensures i * window + window <= j * window
  {
    assert (j - i - 1) * window >= 0;
    assert j * window == i * window + window + (j - i - 1) * window;
  }

  /** A window start never moves back, and a later one is past the whole earlier window. */
  lemma WindowsAdvance(now: nat, later: nat, window: nat)
    requires window > 0 && now <= later
    ensures var a, b := WindowStart(now, window), WindowStart(later, window);
            a == b || a + window <= b
  {
    var i, j := now / window, later / window;
    WindowStartFacts(now, window);
    WindowStartFacts(later, window);
    if i < j {
      MultiplesApart(i, j, window);
    } else if j < i {
      MultiplesApart(j, i, window);
    }
  }

  lemma MillisAdvance(a: nat, b: nat, window: nat)
    requires a + window <= b && window >= MILLISECOND
    ensures UnixMilli(a) < UnixMilli(b)
  {
  }

  /** In a later window nothing is cached or counted yet. */
  lemma StorePasses(c: Store, window: nat, now: nat, later: nat)
    requires window >= MILLISECOND && now <= later && StoreLives(c, window, now)
    ensures StoreLives(c, window, later)
    ensures WindowStart(now, window) != WindowStart(later, window) ==>
              forall key :: Cached(c, key, WindowStart(later, window)) == 0
  {
    var a, b := WindowStart(now, window), WindowStart(later, window);
    WindowsAdvance(now, later, window);
    if a != b {
      MillisAdvance(a, b, window);
    }
  }

  lemma LedgerPasses(l: Ledger, window: nat, now: nat, later: nat)
    requires window > 0 && now <= later && LedgerOk(l, window, now)
    ensures LedgerOk(l, window, later)
    ensures WindowStart(now, window) != WindowStart(later, window) ==>
              forall key :: Count(l, (key, WindowStart(later, window))) == 0
  {
    WindowsAdvance(now, later, window);
  }

  lemma LocalPasses(m: Local, l: Ledger, window: nat, now: nat, later: nat)
    requires window > 0 && now <= later && LedgerOk(l, window, now) && LocalRefines(m, l, window, now)
    ensures LocalRefines(m, l, window, later)
  {
    LedgerPasses(l, window, now, later);
    WindowsAdvance(now, later, window);
  }

  lemma CachePasses(c: Store, l: Ledger, window: nat, now: nat, later: nat)
    requires window >= MILLISECOND && now <= later && LedgerOk(l, window, now) && CacheRefines(c, l, window, now)
    ensures CacheRefines(c, l, window, later)
  {
    LedgerPasses(l, window, now, later);
    StorePasses(c, window, now, later);
  }

  lemma RequestsPass(c: Store, l: Ledger, limit: int, window: nat, now: nat, later: nat, asked: nat)
    requires window >= MILLISECOND && now <= later && LedgerOk(l, window, now) && 0 <= limit
    requires RequestsRefine(c, l, limit, window, now, asked)
    ensures RequestsRefine(c, l, limit, window, later, asked)
  {
    LedgerPasses(l, window, now, later);
    StorePasses(c, window, now, later);
  }

  lemma TimePasses(b: Backend, s: State, l: Ledger, limit: int, window: nat, now: nat, later: nat, asked: nat)
    requires window > 0 && now <= later && LedgerOk(l, window, now) && 0 <= limit
    requires !b.LocalMap? ==> window >= MILLISECOND
    requires Refines(b, s, l, limit, window, now, asked)
    ensures LedgerOk(l, window, later) && Refines(b, s, l, limit, window, later, asked)
  {
    LedgerPasses(l, window, now, later);
    match b
    case LocalMap => LocalPasses(s.local, l, window, now, later);
    case PlainCache => CachePasses(s.store, l, window, now, later);
    case BytesCounter => CachePasses(s.store, l, window, now, later);
    case RequestCounter => RequestsPass(s.store, l, limit, window, now, later, asked);
  }

  /** Cache keys tell windows apart if and only if a window lasts at least a millisecond. */
  lemma CacheKeysSeparateWindowsExactlyWhen(window: nat)
    requires window > 0
    ensures window >= 1_000_000 <==>
            forall key, now, later :: WindowStart(now, window) != WindowStart(later, window) ==>
              CacheKey(key, window, now) != CacheKey(key, window, later)
  {
    if window >= MILLISECOND {
      forall key, now, later | WindowStart(now, window) != WindowStart(later, window)
        ensures CacheKey(key, window, now) != CacheKey(key, window, later)
      {
        if now <= later {
          WindowsAdvance(now, later, window);
        } else {
          WindowsAdvance(later, now, window);
        }
      }
    } else {
      assert WindowStart(0, window) == 0 && WindowStart(window, window) == window;
      assert CacheKey("", window, 0) == CacheKey("", window, window);
    }
  }

  // ----- one call -----------------------------------------------------------

  lemma LedgerStep(l: Ledger, key: Key, n: int, limit: int, window: nat, now: nat)
    requires window > 0 && LedgerOk(l, window, now) && IsInt64(n)
    ensures LedgerOk(LedgerAllow(l, key, n, limit, window, now).0, window, now)
  {
  }

  lemma LocalStep(m: Local, l: Ledger, key: Key, n: int, limit: int, window: nat, now: nat)
    requires window > 0 && LocalRefines(m, l, window, now)
    ensures var (m', d) := LocalAllow(m, key, n, limit, window, now);
            var (l', e) := LedgerAllow(l, key, n, limit, window, now);
            d == e && LocalRefines(m', l', window, now)
  {
  }

  lemma CacheStep(c: Store, l: Ledger, key: Key, n: int, limit: int, window: nat, now: nat)
    requires window > 0 && CacheRefines(c, l, window, now)
    ensures var (c', d) := CacheAllow(c, key, n, limit, window, now);
            var (l', e) := LedgerAllow(l, key, n, limit, window, now);
            d == e && CacheRefines(c', l', window, now)
  {
    WindowStartFacts(now, window);
    var start := WindowStart(now, window);
    var c', l' := CacheAllow(c, key, n, limit, window, now).0, LedgerAllow(l, key, n, limit, window, now).0;
    assert Cached(c, key, start) == Count(l, (key, start));
    forall other ensures Cached(c', other, start) == Count(l', (other, start)) {
      assert Cached(c, other, start) == Count(l, (other, start));
    }
  }

  lemma RefundRestores(count: int, n: int)
    requires IsInt64(count) && 0 <= n <= MAX_INT64
    ensures Add64(Add64(count, n), -n) == count
  {
  }

  /** What one IncrBy does to a store whose entry for the window, if any, is live. */
  lemma IncrOnce(c: Store, key: Key, n: int, window: nat, now: nat)
    requires window > 0 && StoreLives(c, window, now)
    ensures var start := WindowStart(now, window);
            var (c', total) := Incr(c, CacheKey(key, window, now), n, window + SECOND, now);
            && StoreLives(c', window, now)
            && total == Add64(Cached(c, key, start), n)
            && forall other :: Cached(c', other, start) == if other == key then total else Cached(c, other, start)
  {
    WindowStartFacts(now, window);
  }

  /** Charging and handing back leaves what checking first leaves. */
  lemma CounterBytesStep(c: Store, l: Ledger, key: Key, n: int, limit: int, window: nat, now: nat)
    requires window > 0 && CacheRefines(c, l, window, now) && LedgerOk(l, window, now) && 0 <= n <= MAX_INT64
    ensures var (c', d) := CounterAllowBytes(c, key, n, limit, window, now);
            var (l', e) := LedgerAllow(l, key, n, limit, window, now);
            d == e && CacheRefines(c', l', window, now)
  {
    var start := WindowStart(now, window);
    var charged := Incr(c, CacheKey(key, window, now), n, window + SECOND, now).0;
    IncrOnce(c, key, n, window, now);
    IncrOnce(charged, key, -n, window, now);
    RefundRestores(Count(l, (key, start)), n);
    var c', l' := CounterAllowBytes(c, key, n, limit, window, now).0, LedgerAllow(l, key, n, limit, window, now).0;
    assert Cached(c, key, start) == Count(l, (key, start));
    forall other ensures Cached(c', other, start) == Count(l', (other, start)) {
      assert Cached(c, other, start) == Count(l, (other, start));
    }
  }

  lemma RequestsStep(c: Store, l: Ledger, key: Key, limit: int, window: nat, now: nat, asked: nat)
    requires window > 0 && RequestsRefine(c, l, limit, window, now, asked)
    requires 0 <= limit <= MAX_INT64 && asked < MAX_INT64
    ensures var (c', d) := CounterAllowRequests(c, key, 1, limit, window, now);
            var (l', e) := LedgerAllow(l, key, 1, limit, window, now);
            d == e && RequestsRefine(c', l', limit, window, now, asked + 1)
  {
    var start := WindowStart(now, window);
    IncrOnce(c, key, 1, window, now);
    var c', l' := CounterAllowRequests(c, key, 1, limit, window, now).0, LedgerAllow(l, key, 1, limit, window, now).0;
    assert Count(l, (key, start)) == Min(Cached(c, key, start), limit);
    forall other
      ensures 0 <= Cached(c', other, start) <= asked + 1
      ensures Count(l', (other, start)) == Min(Cached(c', other, start), limit)
    {
      assert 0 <= Cached(c, other, start) <= asked && Count(l, (other, start)) == Min(Cached(c, other, start), limit);
    }
  }

  /**
   * A bucket the clock's own window can still use is never more than ten
   * minutes old, up to a window one nanosecond longer than that.
   */
  lemma CleanStep(m: Local, l: Ledger, window: nat, now: nat)
    requires 0 < window <= TEN_MINUTES + 1 && LocalRefines(m, l, window, now)
    ensures LocalRefines(Cleaned(m, now), l, window, now)
  {
    WindowStartFacts(now, window);
  }

  // ----- runs ---------------------------------------------------------------

  datatype Event = Ask(now: nat, key: Key, n: int) | Clean(now: nat)

  datatype Backend = LocalMap | PlainCache | BytesCounter | RequestCounter

  /** One back end's state; each uses the part it needs. */
  datatype State = State(local: Local, store: Store)

  const COLD := State(map[], map[])

  const NO_DECISION := Decision(false, 0)

  function Handle(b: Backend, s: State, e: Event, limit: int, window: nat): (State, Decision)
    requires window > 0
  {
    match e
    case Clean(now) => (s.(local := Cleaned(s.local, now)), NO_DECISION)
    case Ask(now, key, n) =>
      match b
      case LocalMap => var (m, d) := LocalAllow(s.local, key, n, limit, window, now); (s.(local := m), d)
      case PlainCache => var (c, d) := CacheAllow(s.store, key, n, limit, window, now); (s.(store := c), d)
      case BytesCounter => var (c, d) := CounterAllowBytes(s.store, key, n, limit, window, now); (s.(store := c), d)
      case RequestCounter =>
        var (c, d) := CounterAllowRequests(s.store, key, n, limit, window, now);
        (s.(store := c), d)
  }

  function Decisions(b: Backend, s: State, es: seq<Event>, limit: int, window: nat): seq<Decision>
    requires window > 0
    decreases |es|
  {
    if es == [] then []
    else
      var (s', d) := Handle(b, s, es[0], limit, window);
      [d] + Decisions(b, s', es[1..], limit, window)
  }

  function LedgerHandle(l: Ledger, e: Event, limit: int, window: nat): (Ledger, Decision)
    requires window > 0
  {
    match e
    case Clean(_) => (l, NO_DECISION)
    case Ask(now, key, n) => LedgerAllow(l, key, n, limit, window, now)
  }

  function LedgerDecisions(l: Ledger, es: seq<Event>, limit: int, window: nat): seq<Decision>
    requires window > 0
    decreases |es|
  {
    if es == [] then []
    else
      var (l', d) := LedgerHandle(l, es[0], limit, window);
      [d] + LedgerDecisions(l', es[1..], limit, window)
  }

  /** The clock never goes back. */
  predicate Monotone(es: seq<Event>, now: nat)
    decreases |es|
  {
    es == [] || (now <= es[0].now && Monotone(es[1..], es[0].now))
  }

  ghost predicate Refines(b: Backend, s: State, l: Ledger, limit: int, window: nat, now: nat, asked: nat)
    requires window > 0
  {
    match b
    case LocalMap => LocalRefines(s.local, l, window, now)
    case PlainCache => CacheRefines(s.store, l, window, now)
    case BytesCounter => CacheRefines(s.store, l, window, now)
    case RequestCounter => RequestsRefine(s.store, l, limit, window, now, asked)
  }

  /** The events on which a back end is promised to agree with the others. */
  ghost predicate Promised(b: Backend, e: Event, limit: int, window: nat) {
    && 0 <= limit <= MAX_INT64
    && (e.Ask? ==> 0 <= e.n <= MAX_INT64 && (b.RequestCounter? ==> e.n == 1))
    && (e.Clean? && b.LocalMap? ==> window <= TEN_MINUTES + 1)
    && (!b.LocalMap? ==> window >= MILLISECOND)
  }

  lemma HandleRefines(b: Backend, s: State, l: Ledger, e: Event, limit: int, window: nat, now: nat, asked: nat)
    requires window > 0 && LedgerOk(l, window, now) && Refines(b, s, l, limit, window, now, asked)
    requires now <= e.now && Promised(b, e, limit, window) && asked < MAX_INT64
    ensures var (s', d) := Handle(b, s, e, limit, window);
            var (l', d') := LedgerHandle(l, e, limit, window);
            && d == d' && LedgerOk(l', window, e.now)
            && Refines(b, s', l', limit, window, e.now, asked + 1)
  {
    TimePasses(b, s, l, limit, window, now, e.now, asked);
    match e
    case Clean(_) =>
      if b.LocalMap? {
        CleanStep(s.local, l, window, e.now);
      }
    case Ask(at, key, n) =>
      LedgerStep(l, key, n, limit, window, at);
      match b
      case LocalMap => LocalStep(s.local, l, key, n, limit, window, at);
      case PlainCache => CacheStep(s.store, l, key, n, limit, window, at);
      case BytesCounter => CounterBytesStep(s.store, l, key, n, limit, window, at);
      case RequestCounter => RequestsStep(s.store, l, key, limit, window, at, asked);
  }

  lemma {:induction false} RunRefines(
    b: Backend, s: State, l: Ledger, es: seq<Event>, limit: int, window: nat, now: nat, asked: nat)
    requires window > 0 && LedgerOk(l, window, now) && Refines(b, s, l, limit, window, now, asked)
    requires Monotone(es, now) && asked + |es| <= MAX_INT64
    requires forall e :: e in es ==> Promised(b, e, limit, window)
    ensures Decisions(b, s, es, limit, window) == LedgerDecisions(l, es, limit, window)
    decreases |es|
  {
    if es != [] {
      var e := es[0];
      assert e in es;
      HandleRefines(b, s, l, e, limit, window, now, asked);
      RunRefines(b, Handle(b, s, e, limit, window).0, LedgerHandle(l, e, limit, window).0, es[1..],
                 limit, window, e.now, asked + 1);
    }
  }

  /**
   * From a cold start every back end decides, and reports what remains, exactly
   * like the ledger, cleanups included: so all of them agree. The request
   * counter, which counts refused requests, is promised this for single requests.
   */
  lemma BackendsAgree(b: Backend, es: seq<Event>, limit: int, window: nat)
    requires window > 0 && Monotone(es, 0) && |es| <= MAX_INT64
    requires forall e :: e in es ==> Promised(b, e, limit, window)
    ensures Decisions(b, COLD, es, limit, window) == LedgerDecisions(map[], es, limit, window)
  {
    if es != [] {
      assert Promised(b, es[0], limit, window);
      assert WindowStart(0, window) == 0;
      RunRefines(b, COLD, map[], es, limit, window, 0, 0);
    }
  }

  /** With any longer window a cleanup can forget a count that still matters. */
  lemma CleanupCanForget(key: Key, window: nat)
    requires window > TEN_MINUTES + 1
    ensures var es := [Ask(0, key, 1), Clean(TEN_MINUTES + 1), Ask(TEN_MINUTES + 1, key, 1)];
            Decisions(LocalMap, COLD, es, 1, window) != LedgerDecisions(map[], es, 1, window)
  {
    var es := [Ask(0, key, 1), Clean(TEN_MINUTES + 1), Ask(TEN_MINUTES + 1, key, 1)];
    WindowStartFacts(0, window);
    var i := (TEN_MINUTES + 1) / window;
    assert i == 0;
    var s1 := State(map[key := Bucket(1, 0)], map[]);
    assert Handle(LocalMap, COLD, es[0], 1, window) == (s1, Decision(true, 0));
    assert Handle(LocalMap, s1, es[1], 1, window) == (COLD, NO_DECISION);
    assert Handle(LocalMap, COLD, es[2], 1, window) == (s1, Decision(true, 0));
    var l1: Ledger := map[(key, 0) := 1];
    assert LedgerHandle(map[], es[0], 1, window) == (l1, Decision(true, 0));
    assert LedgerHandle(l1, es[2], 1, window).1 == Decision(false, 0);
    assert es[1..][1..] == es[2..] && es[2..][1..] == [];
    assert Decisions(LocalMap, COLD, es, 1, window)
           == [Decision(true, 0)] + ([NO_DECISION] + Decisions(LocalMap, COLD, es[2..], 1, window));
    assert LedgerDecisions(map[], es, 1, window)
           == [Decision(true, 0)] + ([NO_DECISION] + LedgerDecisions(l1, es[2..], 1, window));
    assert Decisions(LocalMap, COLD, es, 1, window)[2].allowed;
    assert !LedgerDecisions(map[], es, 1, window)[2].allowed;
  }

  /** Cleanup never changes a local decision if and only if the window is at most ten minutes and one nanosecond. */
  lemma CleanupIsHarmlessExactlyWhen(window: nat)
    requires window > 0
    ensures window <= 600_000_000_001 <==>
            forall es, limit: nat :: limit <= MAX_INT64 && |es| <= MAX_INT64 && Monotone(es, 0) && AmountsOk(es) ==>
              Decisions(LocalMap, COLD, es, limit, window) == LedgerDecisions(map[], es, limit, window)
  {
    if window <= TEN_MINUTES + 1 {
      forall es, limit: nat | limit <= MAX_INT64 && |es| <= MAX_INT64 && Monotone(es, 0) && AmountsOk(es)
        ensures Decisions(LocalMap, COLD, es, limit, window) == LedgerDecisions(map[], es, limit, window)
      {
        BackendsAgree(LocalMap, es, limit, window);
      }
    } else {
      CleanupCanForget("", window);
      ForgettingRun("");
    }
  }

  lemma ForgettingRun(key: Key)
    ensures var es := [Ask(0, key, 1), Clean(TEN_MINUTES + 1), Ask(TEN_MINUTES + 1, key, 1)];
            |es| == 3 && Monotone(es, 0) && AmountsOk(es)
  {
    var es := [Ask(0, key, 1), Clean(TEN_MINUTES + 1), Ask(TEN_MINUTES + 1, key, 1)];
    assert Monotone(es[2..], TEN_MINUTES + 1) && es[1..][1..] == es[2..];
    assert Monotone(es[1..], 0);
  }

  // ----- what the limit bounds ----------------------------------------------

  /** The bytes or requests of `key` admitted at times in [from, to). */
  function Admitted(es: seq<Event>, ds: seq<Decision>, key: Key, from: int, to: int): int
    requires |es| == |ds|
    decreases |es|
  {
    if es == [] then 0
    else
      (if es[0].Ask? && es[0].key == key && from <= es[0].now < to && ds[0].allowed then es[0].n else 0)
      + Admitted(es[1..], ds[1..], key, from, to)
  }

  lemma {:induction false} DecisionsLength(l: Ledger, es: seq<Event>, limit: int, window: nat)
    requires window > 0
    ensures |LedgerDecisions(l, es, limit, window)| == |es|
    decreases |es|
  {
    if es != [] {
      DecisionsLength(LedgerHandle(l, es[0], limit, window).0, es[1..], limit, window);
    }
  }

  ghost predicate AmountsOk(es: seq<Event>) {
    forall e :: e in es && e.Ask? ==> 0 <= e.n <= MAX_INT64
  }

  /** Adding the request to its window's count does not overflow. */
  predicate Fits(l: Ledger, e: Event, window: nat)
    requires window > 0
  {
    e.Ask? ==> Count(l, (e.key, WindowStart(e.now, window))) + e.n <= MAX_INT64
  }

  predicate AllFit(l: Ledger, es: seq<Event>, limit: int, window: nat)
    requires window > 0
    decreases |es|
  {
    es == [] || (Fits(l, es[0], window) && AllFit(LedgerHandle(l, es[0], limit, window).0, es[1..], limit, window))
  }

  ghost predicate WithinLimit(l: Ledger, limit: int) {
    forall k :: k in l ==> 0 <= l[k] <= limit
  }

  /** What aligned window i admits to a key. */
  function WindowTotal(l: Ledger, es: seq<Event>, limit: int, window: nat, key: Key, i: nat): int
    requires window > 0
  {
    DecisionsLength(l, es, limit, window);
    Admitted(es, LedgerDecisions(l, es, limit, window), key, i * window, i * window + window)
  }

  /** The first event's share of a window, and the rest. */
  lemma WindowUnfolds(l: Ledger, es: seq<Event>, limit: int, window: nat, key: Key, i: nat)
    requires window > 0 && es != []
    ensures var e := es[0]; var (l', d) := LedgerHandle(l, e, limit, window);
            WindowTotal(l, es, limit, window, key, i) == WindowTotal(l', es[1..], limit, window, key, i)
              + if e.Ask? && e.key == key && WindowStart(e.now, window) == i * window && d.allowed then e.n else 0
  {
    var e := es[0];
    var (l', d) := LedgerHandle(l, e, limit, window);
    DecisionsLength(l, es, limit, window);
    assert LedgerDecisions(l, es, limit, window)[1..] == LedgerDecisions(l', es[1..], limit, window);
    if e.Ask? {
      InWindow(e.now, window, i);
    }
  }

  lemma {:induction false} AdmittedIsNat(es: seq<Event>, ds: seq<Decision>, key: Key, from: int, to: int)
    requires |es| == |ds| && AmountsOk(es)
    ensures 0 <= Admitted(es, ds, key, from, to)
    decreases |es|
  {
    if es != [] {
      assert es[0] in es;
      AdmittedIsNat(es[1..], ds[1..], key, from, to);
    }
  }

  /** The ledger counts exactly what an aligned window admits, so no window admits more than the limit. */
  lemma {:induction false} WindowAdmitsAtMostLimit(l: Ledger, es: seq<Event>, limit: int, window: nat, key: Key, i: nat)
    requires window > 0 && 0 <= limit <= MAX_INT64 && WithinLimit(l, limit)
    requires AmountsOk(es) && AllFit(l, es, limit, window)
    ensures WindowTotal(l, es, limit, window, key, i) <= limit - Count(l, (key, i * window))
    decreases |es|
  {
    DecisionsLength(l, es, limit, window);
    if es != [] {
      assert es[0] in es;
      WindowUnfolds(l, es, limit, window, key, i);
      WindowAdmitsAtMostLimit(LedgerHandle(l, es[0], limit, window).0, es[1..], limit, window, key, i);
    }
  }

  /** The first request that overflows is admitted on top of what its window already holds. */
  lemma {:induction false} OverflowShows(l: Ledger, es: seq<Event>, limit: int, window: nat) returns (key: Key, i: nat)
    requires window > 0 && 0 <= limit <= MAX_INT64 && WithinLimit(l, limit)
    requires AmountsOk(es) && !AllFit(l, es, limit, window)
    ensures WindowTotal(l, es, limit, window, key, i) > limit - Count(l, (key, i * window))
    decreases |es|
  {
    var e, l' := es[0], LedgerHandle(l, es[0], limit, window).0;
    assert e in es;
    if Fits(l, e, window) {
      key, i := OverflowShows(l', es[1..], limit, window);
    } else {
      key, i := e.key, e.now / window;
      DecisionsLength(l', es[1..], limit, window);
      AdmittedIsNat(es[1..], LedgerDecisions(l', es[1..], limit, window), key, i * window, i * window + window);
    }
    WindowUnfolds(l, es, limit, window, key, i);
  }

  /** Every aligned window stays within the limit if and only if no request's count overflows an int64. */
  lemma LimitHoldsExactlyWithoutOverflow(es: seq<Event>, limit: int, window: nat)
    requires window > 0 && 0 <= limit <= MAX_INT64 && AmountsOk(es)
    ensures AllFit(map[], es, limit, window) <==>
            forall key, i: nat :: WindowTotal(map[], es, limit, window, key, i) <= limit
  {
    if AllFit(map[], es, limit, window) {
      forall key, i: nat ensures WindowTotal(map[], es, limit, window, key, i) <= limit {
        WindowAdmitsAtMostLimit(map[], es, limit, window, key, i);
      }
    } else {
      var key, i := OverflowShows(map[], es, limit, window);
    }
  }

  lemma InWindow(now: nat, window: nat, i: nat)
    requires window > 0
    ensures i * window <= now < i * window + window <==> WindowStart(now, window) == i * window
  {
    WindowStartFacts(now, window);
    var j := now / window;
    if i < j {
      MultiplesApart(i, j, window);
    } else if j < i {
      MultiplesApart(j, i, window);
    }
  }

  lemma {:induction false} AdmittedSplits(
    es: seq<Event>, ds: seq<Decision>, key: Key, from: int, to: int, a: int, b: int, c: int)
    requires |es| == |ds| && a <= from && to <= c && a <= b <= c
    requires forall e :: e in es && e.Ask? ==> 0 <= e.n
    ensures Admitted(es, ds, key, from, to) <= Admitted(es, ds, key, a, b) + Admitted(es, ds, key, b, c)
    decreases |es|
  {
    if es != [] {
      assert es[0] in es;
      AdmittedSplits(es[1..], ds[1..], key, from, to, a, b, c);
    }
  }

  lemma NextMultiple(i: nat, window: nat)
    ensures (i + 1) * window == i * window + window
  {
  }

  /** An interval no longer than the window lies in two neighbouring aligned windows. */
  lemma LiesInTwoWindows(from: nat, to: nat, window: nat) returns (i: nat)
    requires window > 0 && to <= from + window
    ensures i * window <= from && to <= (i + 1) * window + window
  {
    i := from / window;
    WindowStartFacts(from, window);
    NextMultiple(i, window);
  }

  lemma IntervalAdmitsAtMostTwiceLimit(es: seq<Event>, limit: int, window: nat, key: Key, from: nat, to: nat)
    requires window > 0 && 0 <= limit <= MAX_INT64 && to <= from + window
    requires AmountsOk(es) && AllFit(map[], es, limit, window)
    ensures |LedgerDecisions(map[], es, limit, window)| == |es|
    ensures Admitted(es, LedgerDecisions(map[], es, limit, window), key, from, to) <= 2 * limit
  {
    DecisionsLength(map[], es, limit, window);
    var i := LiesInTwoWindows(from, to, window);
    NextMultiple(i, window);
    WindowAdmitsAtMostLimit(map[], es, limit, window, key, i);
    WindowAdmitsAtMostLimit(map[], es, limit, window, key, i + 1);
    var a := i * window;
    AdmittedSplits(es, LedgerDecisions(map[], es, limit, window), key, from, to, a, a + window, a + window + window);
  }

  /**
   * Whatever the back end, an aligned window admits at most the limit, and no
   * interval as short as the window admits more than twice the limit.
   */
  lemma BackendRespectsLimit(b: Backend, es: seq<Event>, limit: int, window: nat, key: Key, from: nat, to: nat)
    requires window > 0 && Monotone(es, 0) && |es| <= MAX_INT64 && 0 <= limit <= MAX_INT64
    requires AllFit(map[], es, limit, window) && forall e :: e in es ==> Promised(b, e, limit, window)
    ensures var ds := Decisions(b, COLD, es, limit, window);
            && |ds| == |es|
            && (to <= from + window ==> Admitted(es, ds, key, from, to) <= 2 * limit)
            && (from % window == 0 && to == from + window ==> Admitted(es, ds, key, from, to) <= limit)
  {
    BackendsAgree(b, es, limit, window);
    DecisionsLength(map[], es, limit, window);
    if to <= from + window {
      IntervalAdmitsAtMostTwiceLimit(es, limit, window, key, from, to);
    }
    if from % window == 0 {
      assert from == from / window * window;
      WindowAdmitsAtMostLimit(map[], es, limit, window, key, from / window);
    }
  }

  // ----- what each call is told ---------------------------------------------

  /** What the window starting at `start` has admitted to `key` before event `k`. */
  function AdmittedBefore(es: seq<Event>, ds: seq<Decision>, k: nat, key: Key, start: int, window: nat): int
    requires |es| == |ds| && k <= |es|
  {
    Admitted(es[..k], ds[..k], key, start, start + window)
  }

  lemma FirstAdmitted(es: seq<Event>, ds: seq<Decision>, k: nat, key: Key, start: int, window: nat)
    requires |es| == |ds| && 0 < k <= |es|
    ensures AdmittedBefore(es, ds, k, key, start, window) ==
            AdmittedBefore(es[1..], ds[1..], k - 1, key, start, window)
            + if es[0].Ask? && es[0].key == key && start <= es[0].now < start + window && ds[0].allowed then es[0].n
              else 0
  {
    assert es[..k][1..] == es[1..][..k - 1] && ds[..k][1..] == ds[1..][..k - 1];
  }

  /** `d` is the right answer to a request of `n` in a window that had admitted `had` of `limit`. */
  predicate RightAnswer(d: Decision, n: int, had: int, limit: int) {
    && (d.allowed <==> had + n <= limit)
    && d.remaining == if d.allowed then limit - (had + n) else Max(0, limit - had)
  }

  lemma {:induction false} LedgerAnswers(l: Ledger, es: seq<Event>, limit: int, window: nat, k: nat)
    requires window > 0 && 0 <= limit <= MAX_INT64 && WithinLimit(l, limit)
    requires AmountsOk(es) && AllFit(l, es, limit, window) && k < |es| && es[k].Ask?
    ensures |LedgerDecisions(l, es, limit, window)| == |es|
    ensures var ds, start := LedgerDecisions(l, es, limit, window), es[k].now / window * window;
            RightAnswer(ds[k], es[k].n,
                        Count(l, (es[k].key, start)) + AdmittedBefore(es, ds, k, es[k].key, start, window), limit)
    decreases |es|
  {
    DecisionsLength(l, es, limit, window);
    assert es[0] in es;
    if k == 0 {
      FirstAnswer(l, es[0], limit, window);
    } else {
      var i := es[k].now / window;
      var (l', d) := LedgerHandle(l, es[0], limit, window);
      FirstCounted(l, es[0], limit, window, es[k].key, i);
      LedgerAnswers(l', es[1..], limit, window, k - 1);
      var ds := LedgerDecisions(l, es, limit, window);
      assert ds[0] == d && ds[1..] == LedgerDecisions(l', es[1..], limit, window);
      FirstAdmitted(es, ds, k, es[k].key, i * window, window);
    }
  }

  lemma FirstAnswer(l: Ledger, e: Event, limit: int, window: nat)
    requires window > 0 && 0 <= limit <= MAX_INT64 && WithinLimit(l, limit)
    requires e.Ask? && 0 <= e.n <= MAX_INT64 && Fits(l, e, window)
    ensures RightAnswer(LedgerHandle(l, e, limit, window).1, e.n,
                        Count(l, (e.key, e.now / window * window)), limit)
  {
  }

  lemma FirstCounted(l: Ledger, e: Event, limit: int, window: nat, key: Key, i: nat)
    requires window > 0 && 0 <= limit <= MAX_INT64 && WithinLimit(l, limit)
    requires (e.Ask? ==> 0 <= e.n <= MAX_INT64) && Fits(l, e, window)
    ensures var (l', d) := LedgerHandle(l, e, limit, window);
            var start := i * window;
            && WithinLimit(l', limit)
            && Count(l', (key, start)) == Count(l, (key, start))
                 + if e.Ask? && e.key == key && start <= e.now < start + window && d.allowed then e.n else 0
  {
    if e.Ask? {
      InWindow(e.now, window, i);
    }
  }

  /**
   * Whatever the back end, a request is allowed exactly when it fits in what
   * its aligned window has left, and is told what is left then.
   */
  lemma BackendAnswers(b: Backend, es: seq<Event>, limit: int, window: nat, k: nat)
    requires window > 0 && Monotone(es, 0) && |es| <= MAX_INT64 && 0 <= limit <= MAX_INT64
    requires AllFit(map[], es, limit, window) && forall e :: e in es ==> Promised(b, e, limit, window)
    requires k < |es| && es[k].Ask?
    ensures var ds, start := Decisions(b, COLD, es, limit, window), es[k].now / window * window;
            && |ds| == |es|
            && var had := Admitted(es[..k], ds[..k], es[k].key, start, start + window);
            && (ds[k].allowed <==> had + es[k].n <= limit)
            && ds[k].remaining == if ds[k].allowed then limit - (had + es[k].n) else Max(0, limit - had)
  {
    BackendsAgree(b, es, limit, window);
    LedgerAnswers(map[], es, limit, window, k);
  }
}
