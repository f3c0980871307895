/**
 * Concurrent AllowBytes calls on one window counter that is neither evicted
 * nor expired: each call adds its bytes first and hands them back when it is
 * refused. Every IncrBy is one atomic step.
 */
module BandwidthRace {
  import opened Common

  /** A call that was refused still holds its bytes until, or for ever if, its refund does not land. */
  datatype Call =
    | Asking(bytes: nat)
    | Allowed(bytes: nat)
    | Refunding(bytes: nat)
    | RefundLost(bytes: nat)
    | Refused
    | FailedOpen(bytes: nat)

  datatype Window = Window(counter: int, calls: seq<Call>)

  /** `Fail` is the failure of the call's next cache operation. */
  datatype Event = Arrive(bytes: nat) | Step(i: nat) | Fail(i: nat)

  const FRESH := Window(0, [])

  function Next(w: Window, limit: int, e: Event): Window {
    match e
    case Arrive(bytes) => w.(calls := w.calls + [Asking(bytes)])
    case Step(i) =>
      if i >= |w.calls| then w
      else
        (match w.calls[i]
        case Asking(bytes) =>
          var total := Add64(w.counter, bytes);
          Window(total, w.calls[i := if total > limit then Refunding(bytes) else Allowed(bytes)])
        case Refunding(bytes) => Window(Add64(w.counter, -(bytes as int)), w.calls[i := Refused])
        case _ => w)
    case Fail(i) =>
      if i >= |w.calls| then w
      else
        (match w.calls[i]
        case Asking(bytes) => w.(calls := w.calls[i := FailedOpen(bytes)])
        case Refunding(bytes) => w.(calls := w.calls[i := RefundLost(bytes)])
        case _ => w)
  }

  function After(w: Window, limit: int, es: seq<Event>): Window
    decreases |es|
  {
    if es == [] then w else After(Next(w, limit, es[0]), limit, es[1..])
  }

  function AllowedBytes(c: Call): int {
    if c.Allowed? then c.bytes else 0
  }

  /** The bytes of a call that the counter includes. */
  function HeldBytes(c: Call): int {
    if c.Allowed? || c.Refunding? || c.RefundLost? then c.bytes else 0
  }

  /** Bytes accepted by the limit check; what a failing cache lets through is not checked. */
  function Accepted(w: Window): int {
    Sum(w.calls, AllowedBytes)
  }

  function Held(w: Window): int {
    Sum(w.calls, HeldBytes)
  }

  /** A charge whose exact sum is still an int64. */
  predicate Fits(w: Window, e: Event) {
    e.Step? && e.i < |w.calls| && w.calls[e.i].Asking? ==> w.counter + w.calls[e.i].bytes <= MAX_INT64
  }

  predicate AllFit(w: Window, limit: int, es: seq<Event>)
    decreases |es|
  {
    es == [] || (Fits(w, es[0]) && AllFit(Next(w, limit, es[0]), limit, es[1..]))
  }

  ghost predicate Inv(w: Window, limit: int) {
    w.counter == Held(w) <= MAX_INT64 && Accepted(w) <= Max(limit, 0)
  }

  lemma {:induction false} HeldAtLeastAccepted(calls: seq<Call>)
    ensures 0 <= Sum(calls, AllowedBytes) <= Sum(calls, HeldBytes)
  {
    if calls != [] {
      HeldAtLeastAccepted(calls[1..]);
    }
  }

  lemma {:induction false} HeldAtLeastOne(calls: seq<Call>, i: nat)
    requires i < |calls|
    ensures HeldBytes(calls[i]) <= Sum(calls, HeldBytes)
    decreases |calls|
  {
    HeldAtLeastAccepted(calls[1..]);
    if i > 0 {
      HeldAtLeastOne(calls[1..], i - 1);
    }
  }

  lemma NextKeepsInv(w: Window, limit: int, e: Event)
    requires Inv(w, limit) && Fits(w, e)
    ensures Inv(Next(w, limit, e), limit)
  {
    var w' := Next(w, limit, e);
    HeldAtLeastAccepted(w.calls);
    HeldAtLeastAccepted(w'.calls);
    match e
    case Arrive(bytes) =>
      SumAppend(w.calls, Asking(bytes), AllowedBytes);
      SumAppend(w.calls, Asking(bytes), HeldBytes);
    case Step(i) =>
      if i < |w.calls| && w' != w {
        HeldAtLeastOne(w.calls, i);
        SumUpdate(w.calls, i, w'.calls[i], AllowedBytes);
        SumUpdate(w.calls, i, w'.calls[i], HeldBytes);
      }
    case Fail(i) =>
      if i < |w.calls| && w' != w {
        SumUpdate(w.calls, i, w'.calls[i], AllowedBytes);
        SumUpdate(w.calls, i, w'.calls[i], HeldBytes);
      }
  }

  lemma {:induction false} RunKeepsInv(w: Window, limit: int, es: seq<Event>)
    requires Inv(w, limit) && AllFit(w, limit, es)
    ensures Inv(After(w, limit, es), limit)
    decreases |es|
  {
    if es != [] {
      NextKeepsInv(w, limit, es[0]);
      RunKeepsInv(Next(w, limit, es[0]), limit, es[1..]);
    }
  }

  /**
   * Under every interleaving of charges and refunds, landed or lost, the bytes
   * accepted never exceed the limit, because the counter is never less.
   */
  lemma AcceptedWithinLimit(limit: int, es: seq<Event>)
    requires AllFit(FRESH, limit, es)
    ensures Accepted(After(FRESH, limit, es)) <= Max(limit, 0)
    ensures Accepted(After(FRESH, limit, es)) <= After(FRESH, limit, es).counter
  {
    RunKeepsInv(FRESH, limit, es);
    HeldAtLeastAccepted(After(FRESH, limit, es).calls);
  }

  /** A charge keeps the counter at or above the accepted total if and only if its sum does not overflow. */
  lemma ChargeIsSafeExactlyWithoutOverflow(w: Window, limit: int, i: nat)
    requires Inv(w, limit) && i < |w.calls| && w.calls[i].Asking? && w.calls[i].bytes <= MAX_INT64
    ensures Accepted(Next(w, limit, Step(i))) <= Next(w, limit, Step(i)).counter <==> Fits(w, Step(i))
  {
    var w' := Next(w, limit, Step(i));
    HeldAtLeastAccepted(w.calls);
    HeldAtLeastAccepted(w'.calls);
    if Fits(w, Step(i)) {
      NextKeepsInv(w, limit, Step(i));
    }
  }

  /** Calls ask for an int64 number of bytes. */
  predicate CallsOk(w: Window) {
    forall c :: c in w.calls && c.Asking? ==> c.bytes <= MAX_INT64
  }

  predicate ArrivalsOk(es: seq<Event>) {
    forall e :: e in es && e.Arrive? ==> e.bytes <= MAX_INT64
  }

  ghost predicate Covered(w: Window) {
    Accepted(w) <= w.counter
  }

  /** At every point of a run the counter covers what was accepted if and only if no charge overflowed. */
  lemma {:induction false} CoveredExactlyWithoutOverflow(w: Window, limit: int, es: seq<Event>)
    requires Inv(w, limit) && CallsOk(w) && ArrivalsOk(es)
    ensures AllFit(w, limit, es) <==> forall k :: 0 <= k <= |es| ==> Covered(After(w, limit, es[..k]))
    decreases |es|
  {
    HeldAtLeastAccepted(w.calls);
    assert Covered(After(w, limit, es[..0]));
    if es != [] {
      var w' := Next(w, limit, es[0]);
      assert es[0] in es;
      forall k | 0 < k <= |es| ensures After(w, limit, es[..k]) == After(w', limit, es[1..][..k - 1]) {
        assert es[..k][1..] == es[1..][..k - 1];
      }
      if Fits(w, es[0]) {
        NextKeepsInv(w, limit, es[0]);
        CoveredExactlyWithoutOverflow(w', limit, es[1..]);
        ShiftedPrefixes(w, limit, es);
      } else {
        ChargeIsSafeExactlyWithoutOverflow(w, limit, es[0].i);
        assert After(w, limit, es[..1]) == w';
      }
    }
  }

  lemma ShiftedPrefixes(w: Window, limit: int, es: seq<Event>)
    requires es != [] && Covered(w)
    requires forall k :: 0 < k <= |es| ==>
               After(w, limit, es[..k]) == After(Next(w, limit, es[0]), limit, es[1..][..k - 1])
    ensures (forall k :: 0 <= k <= |es| ==> Covered(After(w, limit, es[..k]))) <==>
            (forall k :: 0 <= k <= |es| - 1 ==> Covered(After(Next(w, limit, es[0]), limit, es[1..][..k])))
  {
    var w' := Next(w, limit, es[0]);
    if forall k :: 0 <= k <= |es| ==> Covered(After(w, limit, es[..k])) {
      forall k | 0 <= k <= |es| - 1 ensures Covered(After(w', limit, es[1..][..k])) {
        assert Covered(After(w, limit, es[..k + 1]));
      }
    }
    if forall k :: 0 <= k <= |es| - 1 ==> Covered(After(w', limit, es[1..][..k])) {
      forall k | 0 <= k <= |es| ensures Covered(After(w, limit, es[..k])) {
        if k > 0 {
          assert Covered(After(w', limit, es[1..][..k - 1]));
        }
      }
    }
  }

  /** With an overflow the accepted total passes the limit: a charge of MAX_INT64 on a full window is allowed. */
  lemma OverflowBreaksTheLimit(limit: nat)
    requires 0 < limit <= MAX_INT64
    ensures var w := After(FRESH, limit, [Arrive(limit), Step(0), Arrive(MAX_INT64), Step(1)]);
            Accepted(w) == limit + MAX_INT64
  {
    var w1 := Window(0, [Asking(limit)]);
    var w2 := Window(limit, [Allowed(limit)]);
    var w3 := Window(limit, [Allowed(limit), Asking(MAX_INT64)]);
    var w4 := Window(limit + MAX_INT64 - TWO_64, [Allowed(limit), Allowed(MAX_INT64)]);
    var es := [Arrive(limit), Step(0), Arrive(MAX_INT64), Step(1)];
    assert Next(FRESH, limit, es[0]) == w1;
    assert Next(w1, limit, es[1]) == w2;
    assert Next(w2, limit, es[2]) == w3;
    assert Next(w3, limit, es[3]) == w4;
    assert After(w3, limit, es[3..]) == w4;
    assert After(w2, limit, es[2..]) == w4;
    assert After(w1, limit, es[1..]) == w4;
    SumAppend([Allowed(limit)], Allowed(MAX_INT64), AllowedBytes);
    SumAppend([], Allowed(limit), AllowedBytes);
    assert [Allowed(limit)] + [Allowed(MAX_INT64)] == w4.calls;
    assert [] + [Allowed(limit)] == [Allowed(limit)];
  }

  // ----- calls that are not disturbed ---------------------------------------

  /**
   * A call whose steps meet no other event is allowed exactly when its bytes
   * still fit under the limit, and leaves the counter as it was when they do not.
   */
  lemma CallAlone(w: Window, limit: int, bytes: nat)
    requires 0 <= w.counter && w.counter + bytes <= MAX_INT64
    ensures var i := |w.calls|;
            After(w, limit, [Arrive(bytes), Step(i), Step(i)]) ==
              if w.counter + bytes <= limit then Window(w.counter + bytes, w.calls + [Allowed(bytes)])
              else Window(w.counter, w.calls + [Refused])
  {
    var i := |w.calls|;
    var es := [Arrive(bytes), Step(i), Step(i)];
    var w1 := Next(w, limit, es[0]);
    var w2 := Next(w1, limit, es[1]);
    assert es[1..][1..] == [Step(i)] && [Step(i)][1..] == [];
    assert After(w2, limit, [Step(i)]) == Next(w2, limit, Step(i));
    assert After(w1, limit, es[1..]) == After(w2, limit, [Step(i)]);
    assert forall c, d :: (w.calls + [c])[i := d] == w.calls + [d];
  }

  lemma {:induction false} AnsweredHold(calls: seq<Call>)
    requires forall c :: c in calls ==> c.Allowed? || c.Refused?
    ensures Sum(calls, HeldBytes) == Sum(calls, AllowedBytes)
  {
    if calls != [] {
      assert calls[0] in calls;
      AnsweredHold(calls[1..]);
    }
  }

  predicate NothingLost(calls: seq<Call>) {
    forall c :: c in calls ==> !c.RefundLost? && !c.FailedOpen?
  }

  lemma {:induction false} NothingIsLost(w: Window, limit: int, es: seq<Event>)
    requires NothingLost(w.calls) && forall e :: e in es ==> !e.Fail?
    ensures NothingLost(After(w, limit, es).calls)
    decreases |es|
  {
    if es != [] {
      assert es[0] in es;
      NothingIsLost(Next(w, limit, es[0]), limit, es[1..]);
    }
  }

  predicate UnderWay(c: Call) {
    c.Asking? || c.Refunding?
  }

  /** In every interleaving without failures the refunds all land: once no call is under way, the counter is what was
      accepted. */
  lemma RefundsLand(limit: int, es: seq<Event>)
    requires AllFit(FRESH, limit, es) && forall e :: e in es ==> !e.Fail?
    ensures var w := After(FRESH, limit, es);
            (forall c :: c in w.calls ==> !UnderWay(c)) ==> w.counter == Accepted(w)
  {
    RunKeepsInv(FRESH, limit, es);
    NothingIsLost(FRESH, limit, es);
    var w := After(FRESH, limit, es);
    if forall c :: c in w.calls ==> !UnderWay(c) {
      AnsweredHold(w.calls);
    }
  }
}
