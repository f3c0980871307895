/** Go's strconv.FormatInt and ParseInt in base 10 for an int64. */
module Decimal {
  import opened Common

  const MAX_UINT64: int := 0xffff_ffff_ffff_ffff

  function Digits(n: nat): (s: seq<Byte>)
    ensures |s| > 0 && forall b :: b in s ==> 48 <= b <= 57
  {
    if n < 10 then [48 + n] else Digits(n / 10) + [48 + n % 10]
  }

  function FormatInt(n: int): seq<Byte> {
    if n < 0 then [45] + Digits(-n) else Digits(n)
  }

  /** ParseUint: a bad byte is a syntax error; overflow stops the scan and saturates. */
  function Scan(s: seq<Byte>, acc: nat): Option<nat> {
    if s == [] then Some(acc)
    else if !(48 <= s[0] <= 57) then None
    else if acc * 10 + (s[0] - 48) > MAX_UINT64 then Some(MAX_UINT64)
    else Scan(s[1..], acc * 10 + (s[0] - 48))
  }

  /** ParseInt with its error ignored: 0 for a syntax error, the nearest int64 out of range. */
  function ParseInt(s: seq<Byte>): (n: int)
    ensures IsInt64(n)
  {
    var signed := s != [] && (s[0] == 45 || s[0] == 43);
    var negative := s != [] && s[0] == 45;
    var digits := if signed then s[1..] else s;
    if digits == [] then 0
    else
      match Scan(digits, 0)
      case None => 0
      case Some(u) => if negative then -Min(u, MAX_INT64 + 1) else Min(u, MAX_INT64)
  }

  lemma {:induction false} ScanDigits(n: nat, rest: seq<Byte>)
    requires n <= MAX_UINT64
    ensures Scan(Digits(n) + rest, 0) == Scan(rest, n)
    decreases n
  {
    if n < 10 {
      assert (Digits(n) + rest)[1..] == rest;
    } else {
      var d: Byte := 48 + n % 10;
      assert Digits(n) + rest == Digits(n / 10) + ([d] + rest);
      ScanDigits(n / 10, [d] + rest);
      assert ([d] + rest)[1..] == rest;
    }
  }

  /** Reading back what was written gives the same counter. */
  lemma ParseFormat(n: int)
    requires IsInt64(n)
    ensures ParseInt(FormatInt(n)) == n
  {
    var m := if n < 0 then -n else n;
    ScanDigits(m, []);
    assert Digits(m) + [] == Digits(m);
    assert Digits(m)[0] in Digits(m);
    if n < 0 {
      assert FormatInt(n)[1..] == Digits(m);
    }
  }

  ghost predicate AllDigits(s: seq<Byte>) {
    forall b :: b in s ==> 48 <= b <= 57
  }

  lemma {:induction false} ScanAppend(s: seq<Byte>, d: Byte, acc: nat)
    requires AllDigits(s) && 48 <= d <= 57 && acc <= MAX_UINT64
    ensures Scan(s, acc).Some? && Scan(s, acc).value <= MAX_UINT64
    ensures Scan(s + [d], acc) == Some(Min(10 * Scan(s, acc).value + d - 48, MAX_UINT64))
  {
    if s == [] {
      assert s + [d] == [d] && [d][1..] == [];
    } else {
      assert s[0] in s && (s + [d])[1..] == s[1..] + [d];
      assert forall b :: b in s[1..] ==> b in s;
      if acc * 10 + (s[0] - 48) <= MAX_UINT64 {
        ScanAppend(s[1..], d, acc * 10 + (s[0] - 48));
      }
    }
  }

  /** Digits count by their places, up to the largest int64, and a leading minus negates. */
  lemma DigitsCountByPlace(s: seq<Byte>, d: Byte)
    requires AllDigits(s) && 48 <= d <= 57
    ensures ParseInt([d]) == d - 48
    ensures s != [] ==> ParseInt(s + [d]) == Min(10 * ParseInt(s) + d - 48, MAX_INT64)
    ensures ParseInt(s + [d]) < MAX_INT64 ==> ParseInt([45] + (s + [d])) == -ParseInt(s + [d])
  {
    assert Scan([d], 0) == Some(d - 48) by {
      assert [d][1..] == [];
    }
    assert d in s + [d] && ([45] + (s + [d]))[1..] == s + [d];
    ScanAppend(s, d, 0);
    if s != [] {
      assert s[0] in s && (s + [d])[0] == s[0];
    }
  }

  function Pow10(k: nat): nat {
    if k == 0 then 1 else 10 * Pow10(k - 1)
  }

  lemma {:induction false} DigitsLength(n: nat, k: nat)
    requires 0 < k && n < Pow10(k)
    ensures |Digits(n)| <= k
  {
    if n >= 10 {
      assert k > 1;
      DigitsLength(n / 10, k - 1);
    }
  }

  /** A counter never takes more than 20 bytes. */
  lemma FormatLength(n: int)
    requires IsInt64(n)
    ensures 0 < |FormatInt(n)| <= 20
  {
    assert Pow10(5) == 100_000;
    assert Pow10(10) == 100_000 * Pow10(5);
    assert Pow10(15) == 100_000 * Pow10(10);
    assert Pow10(19) == 10_000 * Pow10(15);
    DigitsLength(if n < 0 then -n else n, 19);
  }
}
