/** A request body of unknown length, charged against the upload cap in slices as it is read. */
module MeteredBody {
  import opened Common

  /** How many bytes are read between charges. */
  const METER_SLICE: nat := 0x10_0000

  /** One Read of the underlying body, and what the limiter would answer to a charge made after it. */
  datatype Raw = Raw(data: Bytes, err: bool, granted: bool)

  /** What the handler gets: bytes, and the source's error or the refusal. */
  datatype Got = Got(data: Bytes, err: bool, refused: bool)

  class MeteredBody {
    var pending: nat
    var refused: bool

    constructor ()
      ensures pending == 0 && !refused
    {
      pending := 0;
      refused := false;
    }

    /** `asked` is the charge made, 0 for none. */
    method Read(r: Raw) returns (g: Got, asked: nat)
      modifies this
      ensures old(refused) ==> refused && pending == old(pending) && asked == 0 && g == Got([], false, true)
      ensures !old(refused) ==>
                var total := old(pending) + |r.data|;
                var due := total >= 1_048_576 || (r.err && total > 0);
                && asked == (if due then total else 0)
                && (refused <==> due && !r.granted)
                && pending == (if due && r.granted then 0 else total)
                && g == (if refused then Got([], false, true) else Got(r.data, r.err, false))
      ensures var (m, out, paid) := ReadStep(Meter(old(pending), old(refused)), r);
              Meter(pending, refused) == m && g == out && paid == if refused then 0 else asked
    {
      asked := 0;
      if refused {
        return Got([], false, true), 0;
      }
      pending := pending + |r.data|;
      if pending >= METER_SLICE || (r.err && pending > 0) {
        asked := pending;
        if !r.granted {
          refused := true;
          return Got([], false, true), asked;
        }
        pending := 0;
      }
      return Got(r.data, r.err, false), asked;
    }
  }

  datatype Meter = Meter(pending: nat, refused: bool)

  const NEW_METER := Meter(0, false)

  /** A charge is due after a slice, and at the end of the source. */
  predicate Due(m: Meter, data: Bytes, err: bool) {
    var total := m.pending + |data|;
    total >= METER_SLICE || (err && total > 0)
  }

  /** A Read as a function: the new fields, what the handler gets, and what was charged and accepted. */
  function ReadStep(m: Meter, r: Raw): (Meter, Got, nat) {
    if m.refused then (m, Got([], false, true), 0)
    else
      var total := m.pending + |r.data|;
      if !Due(m, r.data, r.err) then (Meter(total, false), Got(r.data, r.err, false), 0)
      else if r.granted then (Meter(0, false), Got(r.data, r.err, false), total)
      else (Meter(total, true), Got([], false, true), 0)
  }

  function AfterReads(m: Meter, rs: seq<Raw>): Meter
    decreases |rs|
  {
    if rs == [] then m else AfterReads(ReadStep(m, rs[0]).0, rs[1..])
  }

  function Delivered(m: Meter, rs: seq<Raw>): Bytes
    decreases |rs|
  {
    if rs == [] then [] else ReadStep(m, rs[0]).1.data + Delivered(ReadStep(m, rs[0]).0, rs[1..])
  }

  function Charged(m: Meter, rs: seq<Raw>): nat
    decreases |rs|
  {
    if rs == [] then 0 else ReadStep(m, rs[0]).2 + Charged(ReadStep(m, rs[0]).0, rs[1..])
  }

  function Source(rs: seq<Raw>): Bytes {
    if rs == [] then [] else rs[0].data + Source(rs[1..])
  }

  lemma {:induction false} NothingAfterRefusal(m: Meter, rs: seq<Raw>)
    requires m.refused
    ensures Delivered(m, rs) == [] && Charged(m, rs) == 0 && AfterReads(m, rs) == m
    decreases |rs|
  {
    if rs != [] {
      NothingAfterRefusal(m, rs[1..]);
    }
  }

  lemma {:induction false} MeterAccounts(m: Meter, rs: seq<Raw>)
    requires !m.refused && m.pending < METER_SLICE
    ensures Delivered(m, rs) <= Source(rs)
    ensures var end := AfterReads(m, rs);
            if end.refused then |Delivered(m, rs)| + m.pending <= Charged(m, rs) + METER_SLICE - 1
            else && Delivered(m, rs) == Source(rs)
                 && |Delivered(m, rs)| + m.pending == Charged(m, rs) + end.pending
                 && end.pending < METER_SLICE
    decreases |rs|
  {
    if rs != [] {
      var (next, got, charge) := ReadStep(m, rs[0]);
      if next.refused {
        NothingAfterRefusal(next, rs[1..]);
      } else {
        MeterAccounts(next, rs[1..]);
        assert rs[0].data + Delivered(next, rs[1..]) <= rs[0].data + Source(rs[1..]);
      }
    }
  }

  /**
   * For every sequence of Reads: what was delivered is a prefix of the source,
   * all of it unless a charge was refused; it exceeds the accepted charges by
   * less than one slice; and when the last Read ended the source and was not
   * refused, everything delivered has been charged.
   */
  lemma DeliveredIsCharged(rs: seq<Raw>)
    ensures Delivered(NEW_METER, rs) <= Source(rs)
    ensures |Delivered(NEW_METER, rs)| <= Charged(NEW_METER, rs) + METER_SLICE - 1
    ensures !AfterReads(NEW_METER, rs).refused ==> Delivered(NEW_METER, rs) == Source(rs)
    ensures rs != [] && rs[|rs| - 1].err && !AfterReads(NEW_METER, rs).refused ==>
              |Delivered(NEW_METER, rs)| == Charged(NEW_METER, rs)
  {
    MeterAccounts(NEW_METER, rs);
    if rs != [] && rs[|rs| - 1].err && !AfterReads(NEW_METER, rs).refused {
      EndedIsSettled(NEW_METER, rs);
    }
  }

  lemma {:induction false} EndedIsSettled(m: Meter, rs: seq<Raw>)
    requires rs != [] && rs[|rs| - 1].err && !AfterReads(m, rs).refused
    ensures AfterReads(m, rs).pending == 0
    decreases |rs|
  {
    var next := ReadStep(m, rs[0]).0;
    if next.refused {
      NothingAfterRefusal(next, rs[1..]);
    } else if |rs| == 1 {
      assert AfterReads(next, rs[1..]) == next;
    } else {
      EndedIsSettled(next, rs[1..]);
    }
  }

  // ----- when a body is refused ---------------------------------------------

  /** What of the Reads so far is not charged yet: everything since the last slice or end of the source. */
  function Uncharged(rs: seq<Raw>): nat
    decreases |rs|
  {
    if rs == [] then 0
    else
      var last := rs[|rs| - 1];
      var total := Uncharged(rs[..|rs| - 1]) + |last.data|;
      if total >= 1_048_576 || (last.err && total > 0) then 0 else total
  }

  /** Read `k` makes a charge: it brings 1 MiB together, or ends the source with something uncharged. */
  predicate ChargesAt(rs: seq<Raw>, k: nat)
    requires k < |rs|
  {
    var total := Uncharged(rs[..k]) + |rs[k].data|;
    total >= 1_048_576 || (rs[k].err && total > 0)
  }

  predicate RefusedAt(rs: seq<Raw>, k: nat)
    requires k < |rs|
  {
    ChargesAt(rs, k) && !rs[k].granted
  }

  lemma {:induction false} ReadsJoin(m: Meter, a: seq<Raw>, b: seq<Raw>)
    ensures AfterReads(m, a + b) == AfterReads(AfterReads(m, a), b)
    ensures Delivered(m, a + b) == Delivered(m, a) + Delivered(AfterReads(m, a), b)
    ensures Charged(m, a + b) == Charged(m, a) + Charged(AfterReads(m, a), b)
    ensures Source(a + b) == Source(a) + Source(b)
    decreases |a|
  {
    if a == [] {
      assert a + b == b;
    } else {
      assert (a + b)[1..] == a[1..] + b;
      ReadsJoin(ReadStep(m, a[0]).0, a[1..], b);
    }
  }

  /** Reads none of which is refused hand over the whole source, charged up to what is still uncharged. */
  lemma {:induction false} GrantedReads(rs: seq<Raw>)
    requires forall k :: 0 <= k < |rs| ==> !RefusedAt(rs, k)
    ensures AfterReads(NEW_METER, rs) == Meter(Uncharged(rs), false)
    ensures Delivered(NEW_METER, rs) == Source(rs)
    ensures Charged(NEW_METER, rs) + Uncharged(rs) == |Source(rs)|
    decreases |rs|
  {
    if rs != [] {
      var n := |rs| - 1;
      var front, last := rs[..n], rs[n];
      forall k | 0 <= k < n ensures !RefusedAt(front, k) {
        assert front[..k] == rs[..k] && !RefusedAt(rs, k);
      }
      GrantedReads(front);
      assert !RefusedAt(rs, n);
      assert rs == front + [last];
      ReadsJoin(NEW_METER, front, [last]);
      OneRead(Meter(Uncharged(front), false), last);
    }
  }

  lemma OneRead(m: Meter, r: Raw)
    ensures var (next, got, paid) := ReadStep(m, r);
            && AfterReads(m, [r]) == next && Delivered(m, [r]) == got.data && Charged(m, [r]) == paid
            && Source([r]) == r.data
  {
    assert [r][1..] == [];
  }

  lemma SplitAt<T>(s: seq<T>, k: nat)
    requires k < |s|
    ensures s == (s[..k] + [s[k]]) + s[k + 1..]
  {
  }

  /** The first refusal ends the delivery: its own bytes, the uncharged ones before it kept, and nothing after. */
  lemma FirstRefusalEnds(rs: seq<Raw>, k: nat)
    requires k < |rs| && RefusedAt(rs, k)
    requires forall i :: 0 <= i < k ==> !RefusedAt(rs, i)
    ensures AfterReads(NEW_METER, rs).refused
    ensures Delivered(NEW_METER, rs) == Source(rs[..k])
    ensures Charged(NEW_METER, rs) + Uncharged(rs[..k]) == |Source(rs[..k])|
  {
    var before, after := rs[..k], rs[k + 1..];
    forall i | 0 <= i < k ensures !RefusedAt(before, i) {
      assert before[..i] == rs[..i] && !RefusedAt(rs, i);
    }
    GrantedReads(before);
    var m := Meter(Uncharged(before), false);
    OneRead(m, rs[k]);
    SplitAt(rs, k);
    ReadsJoin(NEW_METER, before + [rs[k]], after);
    ReadsJoin(NEW_METER, before, [rs[k]]);
    NothingAfterRefusal(ReadStep(m, rs[k]).0, after);
  }

  /**
   * For every sequence of Reads the body is refused if and only if a charge
   * falls due that is not granted, and delivers everything otherwise.
   */
  lemma RefusedExactlyWhen(rs: seq<Raw>)
    ensures AfterReads(NEW_METER, rs).refused <==> exists k :: 0 <= k < |rs| && RefusedAt(rs, k)
    ensures !AfterReads(NEW_METER, rs).refused ==>
              && Delivered(NEW_METER, rs) == Source(rs)
              && Charged(NEW_METER, rs) + Uncharged(rs) == |Source(rs)|
  {
    if k :| 0 <= k < |rs| && RefusedAt(rs, k) {
      var first := FirstRefusal(rs, k);
      FirstRefusalEnds(rs, first);
    } else {
      GrantedReads(rs);
    }
  }

  lemma {:induction false} FirstRefusal(rs: seq<Raw>, k: nat) returns (first: nat)
    requires k < |rs| && RefusedAt(rs, k)
    ensures first <= k && RefusedAt(rs, first) && forall i :: 0 <= i < first ==> !RefusedAt(rs, i)
  {
    if i :| 0 <= i < k && RefusedAt(rs, i) {
      first := FirstRefusal(rs, i);
    } else {
      first := k;
    }
  }
}
