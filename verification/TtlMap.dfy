/**
 * The memory cache as a lossy view of a plain TTL map: it may forget a key, but
 * it never serves anything the map does not hold.
 */
module TtlMap {
  import opened Common
  import opened Decimal
  import opened Lru

  type TtlMap = map<Key, Line>

  function Lookup(m: TtlMap, k: Key): Option<Line> {
    if k in m then Some(m[k]) else None
  }

  /** The same operations with no size limit. */
  function MapStep(m: TtlMap, op: Op): TtlMap {
    match op
    case Get(now, k) => if k in m && !LiveForGet(m[k], now) then m - {k} else m
    case Set(now, k, value, ttl) => m[k := Line(k, value, ExpiryOf(now, ttl))]
    case Delete(k) => m - {k}
    case IncrBy(now, k, n, ttl) => m[k := Incremented(Lookup(m, k), now, k, n, ttl)]
    case Close => map[]
  }

  function MapRun(m: TtlMap, ops: seq<Op>): TtlMap
    decreases |ops|
  {
    if ops == [] then m else MapRun(MapStep(m, ops[0]), ops[1..])
  }

  // ----- what one operation does to one key ---------------------------------

  lemma {:induction false} FindWithout(es: seq<Line>, k: Key, other: Key)
    ensures Find(Without(es, k), other) == if other == k then None else Find(es, other)
  {
    if es != [] {
      FindWithout(es[1..], k, other);
    }
  }

  lemma {:induction false} FindInPrefix(es: seq<Line>, n: nat, k: Key)
    requires n <= |es|
    ensures Find(es[..n], k) == Find(es, k) || Find(es[..n], k) == None
  {
    if n > 0 {
      assert es[..n][1..] == es[1..][..n - 1];
      FindInPrefix(es[1..], n - 1, k);
    }
  }

  lemma FindAfterPush(e: Line, es: seq<Line>, room: int, k: Key)
    ensures var pushed := [e] + Fit(Without(es, e.key), room);
            if k == e.key then Find(pushed, k) == Some(e)
            else Find(pushed, k) == Find(es, k) || Find(pushed, k) == None
  {
    var rest := Without(es, e.key);
    FitIsLongestPrefix(rest, room);
    assert Fit(rest, room) == rest[..|Fit(rest, room)|];
    FindInPrefix(rest, |Fit(rest, room)|, k);
    FindWithout(es, e.key, k);
    assert ([e] + Fit(rest, room))[1..] == Fit(rest, room);
  }

  lemma FindAfterGet(es: seq<Line>, now: int, at: Key, k: Key)
    ensures Find(AfterGet(es, now, at), k) == if k == at then GetHit(es, now, at) else Find(es, k)
  {
    FindWithout(es, at, k);
    if GetHit(es, now, at).Some? {
      assert ([GetHit(es, now, at).value] + Without(es, at))[1..] == Without(es, at);
    }
  }

  lemma FindAfterSet(es: seq<Line>, max: int, now: int, at: Key, value: seq<Byte>, ttl: int, k: Key)
    ensures var r := Find(AfterSet(es, max, now, at, value, ttl), k);
            if k == at then r == if |value| > max then None else Some(Line(at, value, ExpiryOf(now, ttl)))
            else r == Find(es, k) || r == None
  {
    if |value| > max {
      OversizedValueClears(es, max, now, at, value, ttl);
    } else {
      FindAfterPush(Line(at, value, ExpiryOf(now, ttl)), es, max - |value|, k);
    }
  }

  lemma FindAfterIncrBy(es: seq<Line>, max: int, now: int, at: Key, n: int, ttl: int, k: Key)
    ensures var r := Find(AfterIncrBy(es, max, now, at, n, ttl), k);
            if k == at then r == Some(Incremented(Find(es, at), now, at, n, ttl))
            else r == Find(es, k) || r == None
  {
    var e := Incremented(Find(es, at), now, at, n, ttl);
    FindAfterPush(e, es, max - |e.data|, k);
  }

  /** Another key's operation leaves a key alone or evicts it. */
  lemma OtherKeysStayOrGo(es: seq<Line>, max: int, op: Op, k: Key)
    requires !op.Close? ==> op.key != k
    ensures Find(Step(es, max, op), k) == Find(es, k) || Find(Step(es, max, op), k) == None
  {
    match op
    case Get(now, at) => FindAfterGet(es, now, at, k);
    case Set(now, at, value, ttl) => FindAfterSet(es, max, now, at, value, ttl, k);
    case Delete(at) => FindWithout(es, at, k);
    case IncrBy(now, at, n, ttl) => FindAfterIncrBy(es, max, now, at, n, ttl, k);
    case Close =>
  }

  /** A key's own operation does to it what it does in the plain map, or drops it. */
  lemma OwnKeyFollowsMap(es: seq<Line>, max: int, op: Op, m: TtlMap)
    requires !op.Close? && (Find(es, op.key).Some? ==> Lookup(m, op.key) == Find(es, op.key))
    requires op.IncrBy? ==> Lookup(m, op.key) == Find(es, op.key)
    ensures Find(Step(es, max, op), op.key).Some? ==>
              Lookup(MapStep(m, op), op.key) == Find(Step(es, max, op), op.key)
    ensures op.IncrBy? ==> Find(Step(es, max, op), op.key).Some?
  {
    match op
    case Get(now, k) => FindAfterGet(es, now, k, k);
    case Set(now, k, value, ttl) => FindAfterSet(es, max, now, k, value, ttl, k);
    case Delete(k) => FindWithout(es, k, k);
    case IncrBy(now, k, n, ttl) => FindAfterIncrBy(es, max, now, k, n, ttl, k);
  }

  // ----- whole runs ---------------------------------------------------------

  /** The cache has lost `k`, by eviction or because its value was too large. */
  predicate Lost(es: seq<Line>, m: TtlMap, k: Key) {
    Find(es, k).None? && k in m
  }

  /** No IncrBy of `k` comes while `k` is lost: none starts again what the map still counts. */
  ghost predicate CountsKept(es: seq<Line>, max: int, m: TtlMap, ops: seq<Op>, k: Key)
    decreases |ops|
  {
    ops == [] ||
    (&& (ops[0].IncrBy? && ops[0].key == k ==> !Lost(es, m, k))
     && CountsKept(Step(es, max, ops[0]), max, MapStep(m, ops[0]), ops[1..], k))
  }

  /**
   * Over every run the cache agrees with the plain map on a key whenever it has
   * the key at all, as long as no counter is incremented after it was lost.
   */
  lemma {:induction false} CacheIsLossyMap(es: seq<Line>, max: int, m: TtlMap, ops: seq<Op>, k: Key)
    requires Find(es, k).Some? ==> Lookup(m, k) == Find(es, k)
    requires CountsKept(es, max, m, ops, k)
    ensures Find(Run(es, max, ops), k).Some? ==> Lookup(MapRun(m, ops), k) == Find(Run(es, max, ops), k)
    decreases |ops|
  {
    if ops != [] {
      var op := ops[0];
      if !op.Close? && op.key == k {
        OwnKeyFollowsMap(es, max, op, m);
      } else {
        OtherKeysStayOrGo(es, max, op, k);
      }
      CacheIsLossyMap(Step(es, max, op), max, MapStep(m, op), ops[1..], k);
    }
  }

  /** `k` is not lost after any operation of the run. */
  ghost predicate NeverLost(es: seq<Line>, max: int, m: TtlMap, ops: seq<Op>, k: Key)
    decreases |ops|
  {
    !Lost(es, m, k) && (ops != [] ==> NeverLost(Step(es, max, ops[0]), max, MapStep(m, ops[0]), ops[1..], k))
  }

  /** While a key is not lost the cache is the plain map, increments and all. */
  lemma {:induction false} CacheIsMapWhileKept(es: seq<Line>, max: int, m: TtlMap, ops: seq<Op>, k: Key)
    requires Find(es, k) == Lookup(m, k) && NeverLost(es, max, m, ops, k)
    ensures Find(Run(es, max, ops), k) == Lookup(MapRun(m, ops), k)
    decreases |ops|
  {
    if ops != [] {
      var op := ops[0];
      if !op.Close? && op.key == k {
        OwnKeyFollowsMap(es, max, op, m);
      } else {
        OtherKeysStayOrGo(es, max, op, k);
      }
      assert !Lost(Step(es, max, op), MapStep(m, op), k);
      CacheIsMapWhileKept(Step(es, max, op), max, MapStep(m, op), ops[1..], k);
    }
  }

  /** From an empty cache, a hit returns what the plain map's last unexpired write stored. */
  lemma HitIsLatestWrite(max: int, ops: seq<Op>, now: int, k: Key)
    requires CountsKept([], max, map[], ops, k)
    requires GetHit(Run([], max, ops), now, k).Some?
    ensures k in MapRun(map[], ops)
    ensures LiveForGet(MapRun(map[], ops)[k], now)
    ensures MapRun(map[], ops)[k].data == GetHit(Run([], max, ops), now, k).value.data
  {
    CacheIsLossyMap([], max, map[], ops, k);
  }

  /**
   * An IncrBy of a lost counter gives what the plain map gives if and only if
   * the map's counter is no longer live, or is zero with the expiry it would
   * get anew.
   */
  lemma LostCounterAgreesExactlyWhen(es: seq<Line>, max: int, m: TtlMap, now: int, k: Key, n: int, ttl: int)
    requires Lost(es, m, k) && IsInt64(n)
    ensures Find(AfterIncrBy(es, max, now, k, n, ttl), k) == Lookup(MapStep(m, IncrBy(now, k, n, ttl)), k) <==>
            || !LiveForIncr(m[k], now)
            || (ParseInt(m[k].data) == 0 && (m[k].expires.None? || m[k].expires == ExpiryOf(now, ttl)))
  {
    FindAfterIncrBy(es, max, now, k, n, ttl, k);
    var count := CountOf(Some(m[k]), now);
    ParseFormat(Add64(count, n));
    ParseFormat(Add64(0, n));
  }

  // ----- counters -----------------------------------------------------------

  function IncrSum(ops: seq<Op>, k: Key): int
    decreases |ops|
  {
    if ops == [] then 0
    else IncrOf(ops[0], k) + IncrSum(ops[1..], k)
  }

  /**
   * An operation that neither overwrites counter `k`, now at `total`, nor comes
   * at or after its expiry; increments are int64. A counter that never expires
   * must not be at zero when it is incremented with a TTL: then it gets one.
   */
  predicate SparesOne(op: Op, k: Key, total: int, expires: Option<int>) {
    match op
    case Get(now, at) => at == k ==> expires.None? || now <= expires.value
    case Set(_, at, _, _) => at != k
    case Delete(at) => at != k
    case IncrBy(now, at, n, ttl) =>
      at == k ==> IsInt64(n) && (if expires.Some? then now < expires.value else ttl > 0 ==> Wrap64(total) != 0)
    case Close => false
  }

  predicate SparesCounter(ops: seq<Op>, k: Key, total: int, expires: Option<int>)
    decreases |ops|
  {
    ops == [] ||
    (SparesOne(ops[0], k, total, expires) && SparesCounter(ops[1..], k, total + IncrOf(ops[0], k), expires))
  }

  /** `k` is still cached after every operation. */
  ghost predicate KeptThrough(es: seq<Line>, max: int, ops: seq<Op>, k: Key)
    decreases |ops|
  {
    Find(es, k).Some? && (ops != [] ==> KeptThrough(Step(es, max, ops[0]), max, ops[1..], k))
  }

  /** Adding step by step with overflow is adding everything and wrapping once. */
  lemma WrapAdd(a: int, b: int)
    requires IsInt64(b)
    ensures Add64(Wrap64(a), b) == Wrap64(a + b)
  {
    var h := MAX_INT64 + 1;
    var q := (a + h) / TWO_64;
    assert Wrap64(a) == a - q * TWO_64;
    var s := Wrap64(a) + b;
    var p := if s > MAX_INT64 then q + 1 else if s < -h then q - 1 else q;
    assert Add64(Wrap64(a), b) == a + b - p * TWO_64;
    RemainderIs(a + b + h, p, Add64(Wrap64(a), b) + h);
  }

  lemma RemainderIs(x: int, p: int, r: int)
    requires x == p * TWO_64 + r && 0 <= r < TWO_64
    ensures x % TWO_64 == r
  {
    var d := x / TWO_64 - p;
    assert r - x % TWO_64 == d * TWO_64;
  }

  function IncrOf(op: Op, k: Key): int {
    if op.IncrBy? && op.key == k then op.n else 0
  }

  function Counter(k: Key, total: int, expires: Option<int>): Line {
    Line(k, FormatInt(Wrap64(total)), expires)
  }

  lemma IncrementOfCounter(k: Key, total: int, expires: Option<int>, op: Op)
    requires op.IncrBy? && op.key == k && SparesOne(op, k, total, expires)
    ensures Incremented(Some(Counter(k, total, expires)), op.now, k, op.n, op.ttl) == Counter(k, total + op.n, expires)
  {
    ParseFormat(Wrap64(total));
    WrapAdd(total, op.n);
  }

  /** What the run's increments make of a line that is left alone otherwise. */
  function LineAfter(line: Line, op: Op): Line {
    if op.IncrBy? && op.key == line.key then Incremented(Some(line), op.now, op.key, op.n, op.ttl) else line
  }

  function LineAfterAll(line: Line, ops: seq<Op>): Line
    decreases |ops|
  {
    if ops == [] then line else LineAfterAll(LineAfter(line, ops[0]), ops[1..])
  }

  predicate LeavesAlone(op: Op, line: Line) {
    match op
    case Get(now, at) => at == line.key ==> LiveForGet(line, now)
    case IncrBy(_, _, _, _) => true
    case Close => false
    case _ => op.key != line.key
  }

  predicate LeaveAlone(ops: seq<Op>, line: Line)
    decreases |ops|
  {
    ops == [] || (LeavesAlone(ops[0], line) && LeaveAlone(ops[1..], LineAfter(line, ops[0])))
  }

  lemma StepFollowsLine(es: seq<Line>, max: int, op: Op, line: Line)
    requires Find(es, line.key) == Some(line) && LeavesAlone(op, line) && Find(Step(es, max, op), line.key).Some?
    ensures Find(Step(es, max, op), line.key) == Some(LineAfter(line, op))
  {
    if op.key != line.key {
      OtherKeysStayOrGo(es, max, op, line.key);
    } else if op.Get? {
      FindAfterGet(es, op.now, op.key, op.key);
    } else {
      FindAfterIncrBy(es, max, op.now, op.key, op.n, op.ttl, op.key);
    }
  }

  lemma {:induction false} RunFollowsLine(es: seq<Line>, max: int, ops: seq<Op>, line: Line)
    requires Find(es, line.key) == Some(line) && LeaveAlone(ops, line) && KeptThrough(es, max, ops, line.key)
    ensures Find(Run(es, max, ops), line.key) == Some(LineAfterAll(line, ops))
    decreases |ops|
  {
    if ops != [] {
      StepFollowsLine(es, max, ops[0], line);
      RunFollowsLine(Step(es, max, ops[0]), max, ops[1..], LineAfter(line, ops[0]));
    }
  }

  lemma {:induction false} LineAfterAllIsSum(k: Key, total: int, expires: Option<int>, ops: seq<Op>, final: int)
    requires SparesCounter(ops, k, total, expires) && final == total + IncrSum(ops, k)
    ensures LineAfterAll(Counter(k, total, expires), ops) == Counter(k, final, expires)
    ensures LeaveAlone(ops, Counter(k, total, expires))
    decreases |ops|
  {
    if ops != [] {
      if ops[0].IncrBy? && ops[0].key == k {
        IncrementOfCounter(k, total, expires, ops[0]);
      }
      LineAfterAllIsSum(k, total + IncrOf(ops[0], k), expires, ops[1..], final);
    }
  }

  lemma CounterRuns(es: seq<Line>, max: int, k: Key, n: int, expires: Option<int>, ops: seq<Op>, total: int)
    requires Find(es, k) == Some(Counter(k, n, expires)) && total == n + IncrSum(ops, k)
    requires SparesCounter(ops, k, n, expires) && KeptThrough(es, max, ops, k)
    ensures Find(Run(es, max, ops), k) == Some(Counter(k, total, expires))
  {
    LineAfterAllIsSum(k, n, expires, ops, total);
    RunFollowsLine(es, max, ops, Counter(k, n, expires));
  }

  lemma CreatedCounter(es: seq<Line>, max: int, created: int, k: Key, n: int, ttl: int)
    requires Find(es, k).Some? ==> !LiveForIncr(Find(es, k).value, created)
    requires IsInt64(n)
    ensures Find(AfterIncrBy(es, max, created, k, n, ttl), k) == Some(Counter(k, n, ExpiryOf(created, ttl)))
  {
    FindAfterIncrBy(es, max, created, k, n, ttl, k);
  }

  /**
   * While it is not evicted, overwritten or expired, a counter is the sum of
   * its increments since its creation (modulo 2^64), and its creation-time
   * expiry, if it has one, is never extended.
   */
  lemma CounterIsSumOfIncrements(es: seq<Line>, max: int, created: int, k: Key, n: int, ttl: int, ops: seq<Op>)
    requires Find(es, k).Some? ==> !LiveForIncr(Find(es, k).value, created)
    requires IsInt64(n) && SparesCounter(ops, k, n, ExpiryOf(created, ttl))
    requires KeptThrough(AfterIncrBy(es, max, created, k, n, ttl), max, ops, k)
    ensures Find(Run(AfterIncrBy(es, max, created, k, n, ttl), max, ops), k) ==
            Some(Counter(k, n + IncrSum(ops, k), ExpiryOf(created, ttl)))
  {
    CreatedCounter(es, max, created, k, n, ttl);
    CounterRuns(AfterIncrBy(es, max, created, k, n, ttl), max, k, n, ExpiryOf(created, ttl), ops, n + IncrSum(ops, k));
  }

  /** An IncrBy gives a counter without expiry one if and only if the counter is at zero and a TTL comes with it. */
  lemma ZeroCounterTakesExpiry(es: seq<Line>, max: int, k: Key, total: int, now: int, n: int, ttl: int)
    requires Find(es, k) == Some(Counter(k, total, None)) && IsInt64(n)
    ensures Find(AfterIncrBy(es, max, now, k, n, ttl), k).Some?
    ensures Find(AfterIncrBy(es, max, now, k, n, ttl), k).value.expires.Some? <==> Wrap64(total) == 0 && ttl > 0
  {
    FindAfterIncrBy(es, max, now, k, n, ttl, k);
    ParseFormat(Wrap64(total));
  }

  /** Get and IncrBy disagree about an entry if and only if it expires at this very instant. */
  lemma LivenessDiffersExactlyAtExpiry(e: Line, now: int)
    ensures LiveForGet(e, now) != LiveForIncr(e, now) <==> e.expires == Some(now)
  {
  }

  /** What Get serves IncrBy continues, or starts again if and only if it is the very instant of its expiry. */
  lemma IncrByRestartsWhatGetServesExactlyWhen(es: seq<Line>, max: int, k: Key, n: int, ttl: int, now: int)
    requires GetHit(es, now, k).Some?
    ensures var hit := GetHit(es, now, k).value;
            Find(AfterIncrBy(es, max, now, k, n, ttl), k) ==
              if hit.expires == Some(now) then Some(Line(k, FormatInt(Add64(0, n)), ExpiryOf(now, ttl)))
              else Some(Line(k, FormatInt(Add64(ParseInt(hit.data), n)),
                             if ParseInt(hit.data) == 0 && hit.expires.None? then ExpiryOf(now, ttl) else hit.expires))
  {
    LivenessDiffersExactlyAtExpiry(GetHit(es, now, k).value, now);
    FindAfterIncrBy(es, max, now, k, n, ttl, k);
  }

  // ----- runs from an empty cache -------------------------------------------

  lemma TwoOps(es: seq<Line>, max: int, m: TtlMap, a: Op, b: Op)
    ensures Run(es, max, [a, b]) == Step(Step(es, max, a), max, b)
    ensures MapRun(m, [a, b]) == MapStep(MapStep(m, a), b)
  {
    var s1, m1 := Step(es, max, a), MapStep(m, a);
    assert [a, b][1..] == [b] && [b][1..] == [];
    assert Run(s1, max, [b]) == Run(Step(s1, max, b), max, []);
    assert MapRun(m1, [b]) == MapRun(MapStep(m1, b), []);
  }

  /** A first IncrBy on an empty cache leaves its counter alone in it. */
  lemma FirstIncrement(max: int, k: Key, n: int, now: int, ttl: int)
    requires IsInt64(n)
    ensures AfterIncrBy([], max, now, k, n, ttl) == [Counter(k, n, ExpiryOf(now, ttl))]
    ensures MapStep(map[], IncrBy(now, k, n, ttl)) == map[k := Counter(k, n, ExpiryOf(now, ttl))]
  {
  }

  /** Created at 0 for 10, a counter is still served at 10, where the next increment starts it again. */
  lemma ExpiryInstantRun(max: int, k: Key)
    ensures var es := Run([], max, [IncrBy(0, k, 1, 10), Get(10, k)]);
            && GetHit(es, 10, k) == Some(Counter(k, 1, Some(10)))
            && Find(AfterIncrBy(es, max, 10, k, 1, 10), k) == Some(Counter(k, 1, Some(20)))
  {
    var line := Counter(k, 1, Some(10));
    FirstIncrement(max, k, 1, 0, 10);
    TwoOps([], max, map[], IncrBy(0, k, 1, 10), Get(10, k));
    assert Find([line], k) == Some(line) && Without([line], k) == [];
    CreatedCounter([line], max, 10, k, 1, 10);
  }

  /** A value as large as the cache evicts a counter, and the next increment starts again: 5 and 1 make 1, not 6. */
  lemma EvictedCounterStartsAgain(k: Key, other: Key, value: seq<Byte>)
    requires k != other && |value| == 20
    ensures var evicted := Run([], 20, [IncrBy(0, k, 5, 100), Set(1, other, value, 0)]);
            var m := MapRun(map[], [IncrBy(0, k, 5, 100), Set(1, other, value, 0)]);
            && Lost(evicted, m, k)
            && Find(AfterIncrBy(evicted, 20, 2, k, 1, 100), k) == Some(Counter(k, 1, Some(102)))
            && Lookup(MapStep(m, IncrBy(2, k, 1, 100)), k) == Some(Counter(k, 6, Some(100)))
  {
    var first, second := IncrBy(0, k, 5, 100), Set(1, other, value, 0);
    var line := Counter(k, 5, Some(100));
    FirstIncrement(20, k, 5, 0, 100);
    TwoOps([], 20, map[], first, second);
    OneLineEvicted(line, other, value, 1);
    var evicted := AfterSet([line], 20, 1, other, value, 0);
    CreatedCounter(evicted, 20, 2, k, 1, 100);
    IncrementOfCounter(k, 5, Some(100), IncrBy(2, k, 1, 100));
  }

  lemma OneLineEvicted(line: Line, other: Key, value: seq<Byte>, now: int)
    requires line.key != other && |value| == 20 && |line.data| > 0
    ensures AfterSet([line], 20, now, other, value, 0) == [Line(other, value, None)]
  {
    assert Without([line], other) == [line];
    assert Size([line]) == |line.data|;
    assert Fit([line], 0) == [];
  }

  /** A counter created at zero without a TTL never expires, until an increment brings one. */
  lemma ZeroCounterRun(max: int, k: Key)
    ensures Find(Run([], max, [IncrBy(0, k, 0, 0), IncrBy(1, k, 5, 10)]), k) == Some(Counter(k, 5, Some(11)))
  {
    FirstIncrement(max, k, 0, 0, 0);
    TwoOps([], max, map[], IncrBy(0, k, 0, 0), IncrBy(1, k, 5, 10));
    ParseFormat(0);
    FindAfterIncrBy([Counter(k, 0, None)], max, 1, k, 5, 10, k);
  }
}
