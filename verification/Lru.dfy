/**
 * What the memory cache computes, on its entries in recency order (front =
 * most recently used), and what that means: which prefix survives a write, how
 * long a key stays resident, and how the cache relates to a plain TTL map.
 */
module Lru {
  import opened Common
  import opened Decimal

  type Key = string

  datatype Line = Line(key: Key, data: seq<Byte>, expires: Option<int>)

  // ----- lines in recency order ---------------------------------------------

  ghost predicate Distinct(es: seq<Line>) {
    forall i, j :: 0 <= i < j < |es| ==> es[i].key != es[j].key
  }

  predicate Has(es: seq<Line>, k: Key) {
    exists e :: e in es && e.key == k
  }

  function Size(es: seq<Line>): nat {
    if es == [] then 0 else |es[0].data| + Size(es[1..])
  }

  function Find(es: seq<Line>, k: Key): (r: Option<Line>)
    ensures r.Some? ==> r.value in es && r.value.key == k
    ensures r.None? <==> !Has(es, k)
  {
    if es == [] then None else if es[0].key == k then Some(es[0]) else Find(es[1..], k)
  }

  function Without(es: seq<Line>, k: Key): seq<Line> {
    if es == [] then [] else if es[0].key == k then Without(es[1..], k) else [es[0]] + Without(es[1..], k)
  }

  /** Evict from the back until the rest fits in `room` bytes or nothing is left. */
  function Fit(es: seq<Line>, room: int): seq<Line> {
    if es == [] || Size(es) <= room then es else Fit(es[..|es| - 1], room)
  }

  // ----- the operations -----------------------------------------------------

  /** Get drops an entry strictly after its expiry. */
  predicate LiveForGet(e: Line, now: int) {
    e.expires.None? || now <= e.expires.value
  }

  /** IncrBy restarts a counter at its expiry already. */
  predicate LiveForIncr(e: Line, now: int) {
    e.expires.None? || now < e.expires.value
  }

  function ExpiryOf(now: int, ttl: int): Option<int> {
    if ttl > 0 then Some(now + ttl) else None
  }

  datatype Op =
    | Get(now: int, key: Key)
    | Set(now: int, key: Key, value: seq<Byte>, ttl: int)
    | Delete(key: Key)
    | IncrBy(now: int, key: Key, n: int, ttl: int)
    | Close

  function GetHit(es: seq<Line>, now: int, k: Key): Option<Line> {
    match Find(es, k)
    case None => None
    case Some(e) => if LiveForGet(e, now) then Some(e) else None
  }

  function AfterGet(es: seq<Line>, now: int, k: Key): seq<Line> {
    match GetHit(es, now, k)
    case Some(e) => [e] + Without(es, k)
    case None => Without(es, k)
  }

  function AfterSet(es: seq<Line>, max: int, now: int, k: Key, value: seq<Byte>, ttl: int): seq<Line> {
    var kept := Fit(Without(es, k), max - |value|);
    if |value| > max then kept else [Line(k, value, ExpiryOf(now, ttl))] + kept
  }

  /** The count IncrBy starts from: an entry that is not live for it counts from 0. */
  function CountOf(found: Option<Line>, now: int): int {
    if found.Some? && LiveForIncr(found.value, now) then ParseInt(found.value.data) else 0
  }

  /** The expiry IncrBy writes: a live entry keeps the one it was created with. */
  function ExpiryAfterIncr(found: Option<Line>, now: int, ttl: int): Option<int> {
    var kept := if found.Some? && LiveForIncr(found.value, now) then found.value.expires else None;
    if CountOf(found, now) == 0 && kept.None? then ExpiryOf(now, ttl) else kept
  }

  function Incremented(found: Option<Line>, now: int, k: Key, n: int, ttl: int): Line {
    Line(k, FormatInt(Add64(CountOf(found, now), n)), ExpiryAfterIncr(found, now, ttl))
  }

  function AfterIncrBy(es: seq<Line>, max: int, now: int, k: Key, n: int, ttl: int): seq<Line> {
    var e := Incremented(Find(es, k), now, k, n, ttl);
    [e] + Fit(Without(es, k), max - |e.data|)
  }

  function Step(es: seq<Line>, max: int, op: Op): seq<Line> {
    match op
    case Get(now, k) => AfterGet(es, now, k)
    case Set(now, k, value, ttl) => AfterSet(es, max, now, k, value, ttl)
    case Delete(k) => Without(es, k)
    case IncrBy(now, k, n, ttl) => AfterIncrBy(es, max, now, k, n, ttl)
    case Close => []
  }

  function Run(es: seq<Line>, max: int, ops: seq<Op>): seq<Line>
    decreases |ops|
  {
    if ops == [] then es else Run(Step(es, max, ops[0]), max, ops[1..])
  }

  // ----- facts about lines --------------------------------------------------

  lemma {:induction false} WithoutFacts(es: seq<Line>, k: Key)
    ensures forall e :: e in Without(es, k) <==> e in es && e.key != k
    ensures Size(Without(es, k)) <= Size(es)
    ensures Distinct(es) ==> Distinct(Without(es, k))
  {
    if es != [] {
      WithoutFacts(es[1..], k);
      assert es == [es[0]] + es[1..];
      if Distinct(es) {
        assert Distinct(es[1..]);
        if es[0].key != k {
          forall i, j | 0 <= i < j < |Without(es, k)| ensures Without(es, k)[i].key != Without(es, k)[j].key {
            if i == 0 {
              var e := Without(es[1..], k)[j - 1];
              assert e in es[1..];
            }
          }
        }
      }
    }
  }

  lemma {:induction false} SizeConcat(a: seq<Line>, b: seq<Line>)
    ensures Size(a + b) == Size(a) + Size(b)
  {
    if a == [] {
      assert a + b == b;
    } else {
      assert (a + b)[1..] == a[1..] + b;
      SizeConcat(a[1..], b);
    }
  }

  /**
   * Eviction keeps the longest recency prefix that fits, and nothing at all
   * when not even one line fits.
   */
  lemma {:induction false} FitIsLongestPrefix(es: seq<Line>, room: int)
    ensures var kept := Fit(es, room);
            && kept <= es
            && (kept != [] ==> Size(kept) <= room)
            && forall n :: |kept| < n <= |es| ==> Size(es[..n]) > room
    decreases |es|
  {
    if es != [] && Size(es) > room {
      var shorter := es[..|es| - 1];
      FitIsLongestPrefix(shorter, room);
      forall n | |Fit(es, room)| < n <= |es| ensures Size(es[..n]) > room {
        if n < |es| {
          assert shorter[..n] == es[..n];
        } else {
          assert es[..n] == es;
        }
      }
    }
  }

  lemma {:induction false} FitKeepsWhatFits(es: seq<Line>, n: nat, room: int)
    requires n <= |es| && Size(es[..n]) <= room
    ensures n <= |Fit(es, room)|
    ensures Fit(es, room)[..n] == es[..n]
  {
    FitIsLongestPrefix(es, room);
  }

  lemma DistinctAfterPush(e: Line, es: seq<Line>, kept: seq<Line>)
    requires Distinct(es) && kept <= Without(es, e.key)
    ensures Distinct([e] + kept)
  {
    WithoutFacts(es, e.key);
    forall i, j | 0 <= i < j < |[e] + kept| ensures ([e] + kept)[i].key != ([e] + kept)[j].key {
      if i == 0 {
        assert kept[j - 1] in Without(es, e.key);
      }
    }
  }

  lemma FitKeepsDistinct(es: seq<Line>, k: Key, room: int)
    requires Distinct(es)
    ensures Fit(Without(es, k), room) <= Without(es, k)
    ensures Distinct(Fit(Without(es, k), room))
  {
    WithoutFacts(es, k);
    FitIsLongestPrefix(Without(es, k), room);
  }

  lemma StepKeepsDistinct(es: seq<Line>, max: int, op: Op)
    requires Distinct(es)
    ensures Distinct(Step(es, max, op))
  {
    match op
    case Get(now, k) =>
      if GetHit(es, now, k).Some? {
        DistinctAfterPush(GetHit(es, now, k).value, es, Without(es, k));
      } else {
        WithoutFacts(es, k);
      }
    case Set(now, k, value, ttl) =>
      FitKeepsDistinct(es, k, max - |value|);
      if |value| <= max {
        DistinctAfterPush(Line(k, value, ExpiryOf(now, ttl)), es, Fit(Without(es, k), max - |value|));
      }
    case IncrBy(now, k, n, ttl) =>
      var e := Incremented(Find(es, k), now, k, n, ttl);
      FitKeepsDistinct(es, k, max - |e.data|);
      DistinctAfterPush(e, es, Fit(Without(es, k), max - |e.data|));
    case Delete(k) => WithoutFacts(es, k);
    case Close =>
  }

  /** An oversized value is not stored, and clears the cache. */
  lemma OversizedValueClears(es: seq<Line>, max: int, now: int, k: Key, value: seq<Byte>, ttl: int)
    requires |value| > max
    ensures AfterSet(es, max, now, k, value, ttl) == []
  {
    FitIsLongestPrefix(Without(es, k), max - |value|);
  }

  /** Any other value goes to the front, with its expiry `ttl` from now. */
  lemma SetPutsInFront(es: seq<Line>, max: int, now: int, k: Key, value: seq<Byte>, ttl: int)
    ensures var after := AfterSet(es, max, now, k, value, ttl);
            if |value| > max then after == [] else
              after != [] && after[0] == Line(k, value, if ttl > 0 then Some(now + ttl) else None)
  {
    if |value| > max {
      OversizedValueClears(es, max, now, k, value, ttl);
    }
  }

  function Bound(max: int): int { Max(max, 20) }

  lemma CounterLength(found: Option<Line>, now: int, k: Key, n: int, ttl: int)
    requires IsInt64(n)
    ensures 0 < |Incremented(found, now, k, n, ttl).data| <= 20
  {
    FormatLength(Add64(CountOf(found, now), n));
  }

  /** A Set never leaves more than maxSize bytes, whatever was there before. */
  lemma SetLeavesAtMostMax(es: seq<Line>, max: int, now: int, k: Key, value: seq<Byte>, ttl: int)
    ensures Size(AfterSet(es, max, now, k, value, ttl)) <= Max(max, 0)
  {
    var kept := Fit(Without(es, k), max - |value|);
    FitIsLongestPrefix(Without(es, k), max - |value|);
    SizeConcat([Line(k, value, ExpiryOf(now, ttl))], kept);
  }

  /** IncrBy stores its counter even where it does not fit, and then nothing else. */
  lemma IncrByLeavesAtMostMax(es: seq<Line>, max: int, now: int, k: Key, n: int, ttl: int)
    ensures Size(AfterIncrBy(es, max, now, k, n, ttl)) <= Max(max, |Incremented(Find(es, k), now, k, n, ttl).data|)
  {
    var e := Incremented(Find(es, k), now, k, n, ttl);
    FitIsLongestPrefix(Without(es, k), max - |e.data|);
    SizeConcat([e], Fit(Without(es, k), max - |e.data|));
  }

  /**
   * A Set leaves at most maxSize bytes, an IncrBy at most that or its counter of
   * up to 20 bytes alone, and the other operations no more than there were.
   */
  lemma StepKeepsBound(es: seq<Line>, max: int, op: Op)
    requires op.IncrBy? ==> IsInt64(op.n)
    ensures op.Set? ==> Size(Step(es, max, op)) <= Max(max, 0)
    ensures op.IncrBy? ==>
              var counter := |Incremented(Find(es, op.key), op.now, op.key, op.n, op.ttl).data|;
              counter <= 20 && Size(Step(es, max, op)) <= Max(max, counter)
    ensures !op.Set? && !op.IncrBy? ==> Size(Step(es, max, op)) <= Size(es)
    ensures Size(es) <= Bound(max) ==> Size(Step(es, max, op)) <= Bound(max)
  {
    match op
    case Get(now, k) => GetKeepsSize(es, now, k);
    case Set(now, k, value, ttl) => SetLeavesAtMostMax(es, max, now, k, value, ttl);
    case Delete(k) => WithoutFacts(es, k);
    case IncrBy(now, k, n, ttl) =>
      CounterLength(Find(es, k), now, k, n, ttl);
      IncrByLeavesAtMostMax(es, max, now, k, n, ttl);
    case Close =>
  }

  lemma {:induction false} WithoutLosesFound(es: seq<Line>, k: Key)
    ensures Find(es, k).Some? ==> Size(Without(es, k)) + |Find(es, k).value.data| <= Size(es)
  {
    if es != [] {
      WithoutLosesFound(es[1..], k);
      WithoutFacts(es[1..], k);
    }
  }

  lemma GetKeepsSize(es: seq<Line>, now: int, k: Key)
    ensures Size(AfterGet(es, now, k)) <= Size(es)
  {
    WithoutFacts(es, k);
    WithoutLosesFound(es, k);
    if GetHit(es, now, k).Some? {
      SizeConcat([GetHit(es, now, k).value], Without(es, k));
    }
  }

  // ----- residency ----------------------------------------------------------

  /** The size under which an operation on another key touches or offers it. */
  function Offered(es: seq<Line>, op: Op): Option<(Key, nat)> {
    match op
    case Get(now, k) => (match GetHit(es, now, k) case Some(e) => Some((k, |e.data|)) case None => None)
    case Set(_, k, value, _) => Some((k, |value|))
    case IncrBy(now, k, n, ttl) => Some((k, |Incremented(Find(es, k), now, k, n, ttl).data|))
    case _ => None
  }

  function Peak(peaks: map<Key, nat>): Key -> int {
    (k: Key) => if k in peaks then peaks[k] else 0
  }

  /** The largest size each key was touched with so far. */
  function NotePeak(peaks: map<Key, nat>, es: seq<Line>, op: Op): map<Key, nat> {
    match Offered(es, op)
    case None => peaks
    case Some(o) => peaks[o.0 := if o.0 in peaks && peaks[o.0] > o.1 then peaks[o.0] else o.1]
  }

  function RunPeaks(peaks: map<Key, nat>, es: seq<Line>, max: int, ops: seq<Op>): map<Key, nat>
    decreases |ops|
  {
    if ops == [] then peaks else RunPeaks(NotePeak(peaks, es, ops[0]), Step(es, max, ops[0]), max, ops[1..])
  }

  ghost function PeakTotal(peaks: map<Key, nat>): int {
    SetSum(peaks.Keys, Peak(peaks))
  }

  lemma {:induction false} SetSumMonotone(s: set<Key>, f: Key -> int, g: Key -> int)
    requires forall k :: k in s ==> f(k) <= g(k)
    ensures SetSum(s, f) <= SetSum(s, g)
  {
    if s != {} {
      var k :| k in s;
      SetSumRemove(s, k, f);
      SetSumRemove(s, k, g);
      SetSumMonotone(s - {k}, f, g);
    }
  }

  lemma NotePeakGrows(peaks: map<Key, nat>, es: seq<Line>, op: Op)
    ensures PeakTotal(peaks) <= PeakTotal(NotePeak(peaks, es, op))
  {
    var noted := NotePeak(peaks, es, op);
    SetSumMonotone(peaks.Keys, Peak(peaks), Peak(noted));
    if noted.Keys != peaks.Keys {
      var k := Offered(es, op).value.0;
      assert noted.Keys == peaks.Keys + {k};
      SetSumAdd(peaks.Keys, k, Peak(noted));
    }
  }

  lemma {:induction false} PeaksGrow(peaks: map<Key, nat>, es: seq<Line>, max: int, ops: seq<Op>)
    ensures PeakTotal(peaks) <= PeakTotal(RunPeaks(peaks, es, max, ops))
    decreases |ops|
  {
    if ops != [] {
      NotePeakGrows(peaks, es, ops[0]);
      PeaksGrow(NotePeak(peaks, es, ops[0]), Step(es, max, ops[0]), max, ops[1..]);
    }
  }

  /** Every line of `es` is one of these keys, at most at its peak. */
  ghost predicate Under(es: seq<Line>, peaks: map<Key, nat>) {
    forall e :: e in es ==> e.key in peaks && |e.data| <= peaks[e.key]
  }

  lemma {:induction false} UnderPeaks(es: seq<Line>, peaks: map<Key, nat>, keys: set<Key>)
    requires Distinct(es) && keys <= peaks.Keys
    requires forall e :: e in es ==> e.key in keys && |e.data| <= peaks[e.key]
    ensures Size(es) <= SetSum(keys, Peak(peaks))
    decreases |es|
  {
    if es == [] {
      SetSumMonotone(keys, (k: Key) => 0, Peak(peaks));
      SetSumOfZero(keys);
    } else {
      var k := es[0].key;
      assert es[0] in es;
      SetSumRemove(keys, k, Peak(peaks));
      forall e | e in es[1..] ensures e.key in keys - {k} && |e.data| <= peaks[e.key] {
        assert e in es;
      }
      UnderPeaks(es[1..], peaks, keys - {k});
    }
  }

  lemma {:induction false} SetSumOfZero(s: set<Key>)
    ensures SetSum(s, (k: Key) => 0) == 0
  {
    if s != {} {
      var k :| k in s;
      SetSumRemove(s, k, (k: Key) => 0);
      SetSumOfZero(s - {k});
    }
  }

  /** `line` is resident, and only lines touched since then, at most at their peaks, are ahead of it. */
  ghost predicate Resident(es: seq<Line>, line: Line, peaks: map<Key, nat>) {
    && Distinct(es)
    && line.key !in peaks
    && exists j :: 0 <= j < |es| && es[j] == line && Under(es[..j], peaks)
  }

  lemma {:induction false} WithoutSplits(a: seq<Line>, b: seq<Line>, k: Key)
    ensures Without(a + b, k) == Without(a, k) + Without(b, k)
  {
    if a == [] {
      assert a + b == b;
    } else {
      assert (a + b)[1..] == a[1..] + b;
      WithoutSplits(a[1..], b, k);
    }
  }

  /** Taking another key out leaves the line in place, with no more ahead of it. */
  lemma WithoutKeepsResident(es: seq<Line>, line: Line, peaks: map<Key, nat>, k: Key) returns (j: nat)
    requires Resident(es, line, peaks) && k != line.key
    ensures var rest := Without(es, k);
            && Distinct(rest) && j < |rest| && rest[j] == line && Under(rest[..j], peaks)
            && forall e :: e in rest ==> e.key != k
  {
    var i :| 0 <= i < |es| && es[i] == line && Under(es[..i], peaks);
    j := |Without(es[..i], k)|;
    assert j < |Without(es, k)| && Without(es, k)[j] == line && Under(Without(es, k)[..j], peaks) by {
      assert es == es[..i] + [line] + es[i + 1..];
      WithoutKeepsPlace(es[..i], line, es[i + 1..], peaks, k);
    }
    WithoutFacts(es, k);
  }

  lemma WithoutKeepsPlace(ahead: seq<Line>, line: Line, behind: seq<Line>, peaks: map<Key, nat>, k: Key)
    requires line.key != k && Under(ahead, peaks)
    ensures var rest := Without(ahead + [line] + behind, k);
            var j := |Without(ahead, k)|;
            j < |rest| && rest[j] == line && Under(rest[..j], peaks)
  {
    WithoutAround(ahead, line, behind, k);
    WithoutFacts(ahead, k);
    assert Without(ahead + [line] + behind, k)[..|Without(ahead, k)|] == Without(ahead, k);
  }

  lemma WithoutAround(ahead: seq<Line>, line: Line, behind: seq<Line>, k: Key)
    requires line.key != k
    ensures Without(ahead + [line] + behind, k) == Without(ahead, k) + [line] + Without(behind, k)
  {
    WithoutSplits(ahead + [line], behind, k);
    WithoutSplits(ahead, [line], k);
    assert [line][1..] == [];
  }

  /** Pushing `e`, whose size is noted in `peaks`, evicts neither `line` nor anything ahead of it. */
  lemma PushKeepsResident(e: Line, rest: seq<Line>, j: nat, line: Line, peaks: map<Key, nat>, room: int)
    requires Distinct(rest) && j < |rest| && rest[j] == line && Under(rest[..j], peaks)
    requires e.key != line.key && forall x :: x in rest ==> x.key != e.key
    requires e.key in peaks && |e.data| <= peaks[e.key] && line.key !in peaks
    requires |line.data| + PeakTotal(peaks) - |e.data| <= room
    ensures Resident([e] + Fit(rest, room), line, peaks)
  {
    var ahead := [e] + rest[..j];
    assert Distinct(ahead) by {
      forall a, b | 0 <= a < b < |ahead| ensures ahead[a].key != ahead[b].key {
        if a == 0 {
          assert rest[b - 1] in rest;
        }
      }
    }
    UnderPeaks(ahead, peaks, peaks.Keys);
    SizeConcat([e], rest[..j]);
    assert rest[..j + 1] == rest[..j] + [line];
    SizeConcat(rest[..j], [line]);
    FitKeepsWhatFits(rest, j + 1, room);
    FitIsLongestPrefix(rest, room);
    var kept := Fit(rest, room);
    assert kept[..j + 1][j] == line;
    assert ([e] + kept)[..j + 1] == ahead;
    assert Distinct([e] + kept) by {
      forall a, b | 0 <= a < b < |[e] + kept| ensures ([e] + kept)[a].key != ([e] + kept)[b].key {
        if a == 0 {
          assert kept[b - 1] == rest[b - 1];
        }
      }
    }
  }

  lemma StepKeepsResident(es: seq<Line>, max: int, op: Op, line: Line, peaks: map<Key, nat>)
    requires Resident(es, line, peaks)
    requires !op.Close? && op.key != line.key
    requires |line.data| + PeakTotal(NotePeak(peaks, es, op)) <= max
    ensures Resident(Step(es, max, op), line, NotePeak(peaks, es, op))
  {
    var noted := NotePeak(peaks, es, op);
    var rest := Without(es, op.key);
    var j := WithoutKeepsResident(es, line, peaks, op.key);
    assert Under(rest[..j], noted);
    if op.Delete? || (op.Get? && GetHit(es, op.now, op.key).None?) {
      assert Step(es, max, op) == rest && noted == peaks;
    } else {
      PushStepKeepsResident(es, max, op, rest, j, line, noted);
    }
  }

  lemma PushStepKeepsResident(
    es: seq<Line>, max: int, op: Op, rest: seq<Line>, j: nat, line: Line, noted: map<Key, nat>)
    requires Offered(es, op).Some? && rest == Without(es, op.key) && op.key != line.key
    requires Distinct(rest) && j < |rest| && rest[j] == line && Under(rest[..j], noted)
    requires forall x :: x in rest ==> x.key != op.key
    requires op.key in noted && Offered(es, op).value.1 <= noted[op.key] && line.key !in noted
    requires |line.data| + PeakTotal(noted) <= max
    ensures Resident(Step(es, max, op), line, noted)
  {
    OnePeakAtMostTotal(noted, op.key);
    var e, room := StepIsPush(es, max, op);
    PushKeepsResident(e, rest, j, line, noted, room);
  }

  lemma OnePeakAtMostTotal(peaks: map<Key, nat>, k: Key)
    requires k in peaks
    ensures peaks[k] <= PeakTotal(peaks)
  {
    SetSumRemove(peaks.Keys, k, Peak(peaks));
    SetSumMonotone(peaks.Keys - {k}, (x: Key) => 0, Peak(peaks));
    SetSumOfZero(peaks.Keys - {k});
  }

  /** Every operation that touches a key pushes one line in front of a prefix of the others. */
  lemma StepIsPush(es: seq<Line>, max: int, op: Op) returns (e: Line, room: int)
    requires Offered(es, op).Some? && Offered(es, op).value.1 <= max
    ensures e.key == op.key && |e.data| == Offered(es, op).value.1
    ensures room >= max - |e.data|
    ensures Step(es, max, op) == [e] + Fit(Without(es, op.key), room)
  {
    match op
    case Get(now, k) =>
      e, room := GetHit(es, now, k).value, Max(Size(Without(es, k)), max);
    case Set(now, k, value, ttl) =>
      e, room := Line(k, value, ExpiryOf(now, ttl)), max - |value|;
    case IncrBy(now, k, n, ttl) =>
      e := Incremented(Find(es, k), now, k, n, ttl);
      room := max - |e.data|;
  }

  lemma {:induction false} RunKeepsResident(es: seq<Line>, max: int, ops: seq<Op>, line: Line, peaks: map<Key, nat>)
    requires Resident(es, line, peaks)
    requires forall op :: op in ops ==> !op.Close? && op.key != line.key
    requires |line.data| + PeakTotal(RunPeaks(peaks, es, max, ops)) <= max
    ensures Resident(Run(es, max, ops), line, RunPeaks(peaks, es, max, ops))
    decreases |ops|
  {
    if ops != [] {
      assert ops[0] in ops;
      var noted := NotePeak(peaks, es, ops[0]);
      PeaksGrow(noted, Step(es, max, ops[0]), max, ops[1..]);
      StepKeepsResident(es, max, ops[0], line, peaks);
      RunKeepsResident(Step(es, max, ops[0]), max, ops[1..], line, noted);
    }
  }

  lemma {:induction false} FindIn(es: seq<Line>, line: Line)
    requires Distinct(es) && line in es
    ensures Find(es, line.key) == Some(line)
  {
    if es[0] != line {
      var i :| 0 < i < |es| && es[i] == line;
      assert es[0].key != es[i].key;
      FindIn(es[1..], line);
    }
  }

  /**
   * Residency: a line that was just touched is still there, unchanged, after
   * any operations on other keys, as long as its size plus the largest size
   * each distinct other key was touched with since sums to at most maxSize.
   */
  lemma Residency(rest: seq<Line>, max: int, ops: seq<Op>, line: Line)
    requires Distinct([line] + rest)
    requires forall op :: op in ops ==> !op.Close? && op.key != line.key
    requires |line.data| + PeakTotal(RunPeaks(map[], [line] + rest, max, ops)) <= max
    ensures Find(Run([line] + rest, max, ops), line.key) == Some(line)
  {
    assert ([line] + rest)[..0] == [];
    RunKeepsResident([line] + rest, max, ops, line, map[]);
    FindIn(Run([line] + rest, max, ops), line);
  }

  // ----- a budget for the other keys ----------------------------------------

  /** An operation on a key with a budget offers no more than that; a counter may take 20 bytes. */
  predicate OpWithin(op: Op, sizes: map<Key, nat>) {
    && !op.Close? && op.key in sizes
    && (op.Set? ==> |op.value| <= sizes[op.key])
    && (op.IncrBy? ==> IsInt64(op.n) && 20 <= sizes[op.key])
  }

  ghost predicate LinesWithin(es: seq<Line>, sizes: map<Key, nat>) {
    forall e :: e in es && e.key in sizes ==> |e.data| <= sizes[e.key]
  }

  ghost predicate PeaksWithin(peaks: map<Key, nat>, sizes: map<Key, nat>) {
    forall k :: k in peaks ==> k in sizes && peaks[k] <= sizes[k]
  }

  lemma KeptStaysWithin(es: seq<Line>, k: Key, room: int, sizes: map<Key, nat>)
    requires LinesWithin(es, sizes)
    ensures LinesWithin(Without(es, k), sizes) && LinesWithin(Fit(Without(es, k), room), sizes)
  {
    WithoutFacts(es, k);
    FitIsLongestPrefix(Without(es, k), room);
    forall e | e in Fit(Without(es, k), room) && e.key in sizes ensures |e.data| <= sizes[e.key] {
      assert e in Without(es, k);
    }
  }

  lemma StepStaysWithin(es: seq<Line>, max: int, op: Op, sizes: map<Key, nat>)
    requires OpWithin(op, sizes) && LinesWithin(es, sizes)
    ensures LinesWithin(Step(es, max, op), sizes)
  {
    match op
    case Get(_, k) => KeptStaysWithin(es, k, 0, sizes);
    case Set(_, k, value, _) => KeptStaysWithin(es, k, max - |value|, sizes);
    case Delete(k) => KeptStaysWithin(es, k, 0, sizes);
    case IncrBy(now, k, n, ttl) =>
      CounterLength(Find(es, k), now, k, n, ttl);
      KeptStaysWithin(es, k, max - |Incremented(Find(es, k), now, k, n, ttl).data|, sizes);
  }

  lemma OfferStaysWithin(peaks: map<Key, nat>, es: seq<Line>, op: Op, sizes: map<Key, nat>)
    requires OpWithin(op, sizes) && LinesWithin(es, sizes) && PeaksWithin(peaks, sizes)
    ensures PeaksWithin(NotePeak(peaks, es, op), sizes)
  {
    if op.IncrBy? {
      CounterLength(Find(es, op.key), op.now, op.key, op.n, op.ttl);
    }
  }

  lemma {:induction false} RunStaysWithin(
    peaks: map<Key, nat>, es: seq<Line>, max: int, ops: seq<Op>, sizes: map<Key, nat>)
    requires LinesWithin(es, sizes) && PeaksWithin(peaks, sizes) && forall op :: op in ops ==> OpWithin(op, sizes)
    ensures PeaksWithin(RunPeaks(peaks, es, max, ops), sizes)
    decreases |ops|
  {
    if ops != [] {
      assert ops[0] in ops;
      StepStaysWithin(es, max, ops[0], sizes);
      OfferStaysWithin(peaks, es, ops[0], sizes);
      RunStaysWithin(NotePeak(peaks, es, ops[0]), Step(es, max, ops[0]), max, ops[1..], sizes);
    }
  }

  lemma {:induction false} PeaksAtMostSizes(peaks: map<Key, nat>, sizes: map<Key, nat>, keys: set<Key>)
    requires PeaksWithin(peaks, sizes) && keys == sizes.Keys - peaks.Keys
    ensures PeakTotal(peaks) <= PeakTotal(sizes)
    decreases keys
  {
    if keys == {} {
      assert peaks.Keys == sizes.Keys by {
        forall k | k in sizes.Keys ensures k in peaks.Keys {
          assert k !in keys;
        }
      }
      SetSumMonotone(peaks.Keys, Peak(peaks), Peak(sizes));
    } else {
      var k :| k in keys;
      var more := peaks[k := 0];
      SetSumAdd(peaks.Keys, k, Peak(more));
      assert more.Keys == peaks.Keys + {k};
      SetSumMonotone(peaks.Keys, Peak(peaks), Peak(more));
      PeaksAtMostSizes(more, sizes, keys - {k});
    }
  }

  /**
   * A line that was just touched is still there after any operations on other
   * keys, each within its budget, as long as the line and the budgets together
   * fit; and a Get of it then leaves it in front, unless it has expired.
   */
  lemma ResidentIsServed(rest: seq<Line>, max: int, ops: seq<Op>, line: Line, sizes: map<Key, nat>, now: int)
    requires Distinct([line] + rest) && line.key !in sizes && LinesWithin(rest, sizes)
    requires forall op :: op in ops ==> OpWithin(op, sizes)
    requires |line.data| + SetSum(sizes.Keys, Peak(sizes)) <= max
    ensures var es := Run([line] + rest, max, ops);
            && Find(es, line.key) == Some(line)
            && AfterGet(es, now, line.key) ==
                 (if line.expires.None? || now <= line.expires.value then [line] else []) + Without(es, line.key)
  {
    RunStaysWithin(map[], [line] + rest, max, ops, sizes);
    var peaks := RunPeaks(map[], [line] + rest, max, ops);
    PeaksAtMostSizes(peaks, sizes, sizes.Keys - peaks.Keys);
    forall op | op in ops ensures !op.Close? && op.key != line.key {
      assert OpWithin(op, sizes);
    }
    Residency(rest, max, ops, line);
  }

  /** So a value that was Set is served, exactly until its TTL has passed. */
  lemma WrittenIsServed(
    es: seq<Line>, max: int, written: int, k: Key, value: seq<Byte>, ttl: int, ops: seq<Op>, sizes: map<Key, nat>,
    now: int)
    requires Distinct(es) && k !in sizes && LinesWithin(es, sizes)
    requires forall op :: op in ops ==> OpWithin(op, sizes)
    requires |value| + SetSum(sizes.Keys, Peak(sizes)) <= max
    ensures var line := Line(k, value, if ttl > 0 then Some(written + ttl) else None);
            var later := Run(AfterSet(es, max, written, k, value, ttl), max, ops);
            && Find(later, k) == Some(line)
            && AfterGet(later, now, k) == (if ttl <= 0 || now <= written + ttl then [line] else []) + Without(later, k)
  {
    var kept := Fit(Without(es, k), max - |value|);
    var line := Line(k, value, ExpiryOf(written, ttl));
    PeakTotalIsNat(sizes, sizes.Keys);
    StepKeepsDistinct(es, max, Set(written, k, value, ttl));
    FitIsLongestPrefix(Without(es, k), max - |value|);
    WithoutFacts(es, k);
    ResidentIsServed(kept, max, ops, line, sizes, now);
  }

  lemma {:induction false} PeakTotalIsNat(sizes: map<Key, nat>, keys: set<Key>)
    ensures 0 <= SetSum(keys, Peak(sizes))
  {
    if keys != {} {
      var k :| k in keys;
      SetSumRemove(keys, k, Peak(sizes));
      PeakTotalIsNat(sizes, keys - {k});
    }
  }
}
