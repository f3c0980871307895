/**
 * Many metered bodies read at the same time against one bandwidth window. A
 * Read whose charge is due waits for its limiter call, whose steps interleave
 * with all other calls on the window, from bodies or from elsewhere.
 */
module MeteredRace {
  import opened Common
  import opened MeteredBody
  import Race = BandwidthRace

  /** A Read that waits for limiter call number `call`. */
  datatype Wait = Wait(data: Bytes, err: bool, call: nat)

  /** A metered body, with how much it has delivered and how much of that was charged. */
  datatype Body = Body(meter: Meter, delivered: nat, charged: nat, waiting: Option<Wait>)

  datatype World = World(window: Race.Window, bodies: seq<Body>)

  const START := World(Race.FRESH, [])

  /** `Counter` is any event on the window: another request's charge, or a step or failure of any call. */
  datatype Event =
    | Open
    | Read(j: nat, data: Bytes, err: bool)
    | Answer(j: nat)
    | Counter(e: Race.Event)

  /** A Read completes. */
  function Apply(b: Body, r: Raw): Body {
    var (m, got, paid) := ReadStep(b.meter, r);
    Body(m, b.delivered + |got.data|, b.charged + paid, None)
  }

  function OnRead(w: World, j: nat, data: Bytes, err: bool): World
    requires j < |w.bodies|
  {
    var b := w.bodies[j];
    if b.waiting.Some? then w
    else if b.meter.refused || !Due(b.meter, data, err) then w.(bodies := w.bodies[j := Apply(b, Raw(data, err, true))])
    else
      var call := |w.window.calls|;
      World(w.window.(calls := w.window.calls + [Race.Asking(b.meter.pending + |data|)]),
            w.bodies[j := b.(waiting := Some(Wait(data, err, call)))])
  }

  /** The limiter's answer, once its call is over: a failing cache lets the charge through. */
  function OnAnswer(w: World, j: nat): World
    requires j < |w.bodies|
  {
    var b := w.bodies[j];
    if b.waiting.None? || b.waiting.value.call >= |w.window.calls| then w
    else
      var Wait(data, err, call) := b.waiting.value;
      match w.window.calls[call]
      case Allowed(_) => w.(bodies := w.bodies[j := Apply(b, Raw(data, err, true))])
      case FailedOpen(_) => w.(bodies := w.bodies[j := Apply(b, Raw(data, err, true))])
      case Refused => w.(bodies := w.bodies[j := Apply(b, Raw(data, err, false))])
      case RefundLost(_) => w.(bodies := w.bodies[j := Apply(b, Raw(data, err, false))])
      case _ => w
  }

  function Next(w: World, limit: int, e: Event): World {
    match e
    case Open => w.(bodies := w.bodies + [Body(NEW_METER, 0, 0, None)])
    case Read(j, data, err) => if j < |w.bodies| then OnRead(w, j, data, err) else w
    case Answer(j) => if j < |w.bodies| then OnAnswer(w, j) else w
    case Counter(e) => w.(window := Race.Next(w.window, limit, e))
  }

  function After(w: World, limit: int, es: seq<Event>): World
    decreases |es|
  {
    if es == [] then w else After(Next(w, limit, es[0]), limit, es[1..])
  }

  /** No charge on the window overflows. */
  predicate AllFit(w: World, limit: int, es: seq<Event>)
    decreases |es|
  {
    es == [] ||
    (&& (es[0].Counter? ==> Race.Fits(w.window, es[0].e))
     && AllFit(Next(w, limit, es[0]), limit, es[1..]))
  }

  // ----- sums ---------------------------------------------------------------

  function DeliveredOf(b: Body): int { b.delivered }

  function ChargedOf(b: Body): int { b.charged }

  /** What a failing cache let through. */
  function OpenBytes(c: Race.Call): int {
    if c.FailedOpen? then c.bytes else 0
  }

  function GrantedBytes(c: Race.Call): int {
    Race.AllowedBytes(c) + OpenBytes(c)
  }

  /** What the call a body waits for has been granted already. */
  function GrantedTo(b: Body, calls: seq<Race.Call>): int {
    if b.waiting.Some? && b.waiting.value.call < |calls| then GrantedBytes(calls[b.waiting.value.call]) else 0
  }

  function GrantedIn(calls: seq<Race.Call>): Body -> int {
    (b: Body) => GrantedTo(b, calls)
  }

  lemma {:induction false} GrantedSplits(calls: seq<Race.Call>)
    ensures Sum(calls, GrantedBytes) == Sum(calls, Race.AllowedBytes) + Sum(calls, OpenBytes)
  {
    if calls != [] {
      GrantedSplits(calls[1..]);
    }
  }

  // ----- the invariant ------------------------------------------------------

  /** A body has been charged all it delivered but its pending bytes, or once refused all but less than a slice. */
  predicate BodyOk(b: Body, calls: seq<Race.Call>) {
    && (if b.meter.refused then b.waiting.None? && b.delivered <= b.charged + METER_SLICE - 1
        else b.delivered == b.charged + b.meter.pending && b.meter.pending < METER_SLICE)
    && (b.waiting.Some? ==>
          && b.waiting.value.call < |calls| && Due(b.meter, b.waiting.value.data, b.waiting.value.err)
          && var c := calls[b.waiting.value.call];
             c.Refused? || c.bytes == b.meter.pending + |b.waiting.value.data|)
  }

  ghost predicate BodiesOk(bodies: seq<Body>, calls: seq<Race.Call>) {
    forall j :: 0 <= j < |bodies| ==> BodyOk(bodies[j], calls)
  }

  /** No two bodies wait for the same call. */
  ghost predicate WaitsDiffer(bodies: seq<Body>) {
    forall j, k :: 0 <= j < k < |bodies| && bodies[j].waiting.Some? && bodies[k].waiting.Some? ==>
      bodies[j].waiting.value.call != bodies[k].waiting.value.call
  }

  /** Everything charged was granted, and what a waiting body has been granted is not charged yet. */
  ghost predicate Paid(bodies: seq<Body>, calls: seq<Race.Call>) {
    Sum(bodies, ChargedOf) + Sum(bodies, GrantedIn(calls)) <= Sum(calls, GrantedBytes)
  }

  ghost predicate Inv(w: World, limit: int) {
    && Race.Inv(w.window, limit)
    && BodiesOk(w.bodies, w.window.calls) && WaitsDiffer(w.bodies) && Paid(w.bodies, w.window.calls)
  }

  /** Body j is replaced by one that waits for nothing; what it was granted becomes what it is charged. */
  lemma BodyMovesOn(w: World, limit: int, j: nat, b: Body)
    requires Inv(w, limit) && j < |w.bodies| && b.waiting.None? && BodyOk(b, w.window.calls)
    requires b.charged <= w.bodies[j].charged + GrantedTo(w.bodies[j], w.window.calls)
    ensures Inv(w.(bodies := w.bodies[j := b]), limit)
  {
    SumUpdate(w.bodies, j, b, ChargedOf);
    SumUpdate(w.bodies, j, b, GrantedIn(w.window.calls));
  }

  lemma {:induction false} NewCallGrantsNothing(bodies: seq<Body>, calls: seq<Race.Call>, c: Race.Call)
    requires BodiesOk(bodies, calls)
    ensures Sum(bodies, GrantedIn(calls + [c])) == Sum(bodies, GrantedIn(calls))
  {
    if bodies != [] {
      assert BodyOk(bodies[0], calls);
      forall j | 0 <= j < |bodies| - 1 ensures BodyOk(bodies[1..][j], calls) {
        assert BodyOk(bodies[j + 1], calls);
      }
      NewCallGrantsNothing(bodies[1..], calls, c);
    }
  }

  lemma ArrivalKeepsInv(w: World, limit: int, bytes: nat)
    requires Inv(w, limit)
    ensures Inv(w.(window := Race.Next(w.window, limit, Race.Arrive(bytes))), limit)
  {
    var calls := w.window.calls;
    Race.NextKeepsInv(w.window, limit, Race.Arrive(bytes));
    NewCallGrantsNothing(w.bodies, calls, Race.Asking(bytes));
    SumAppend(calls, Race.Asking(bytes), GrantedBytes);
    forall j | 0 <= j < |w.bodies| ensures BodyOk(w.bodies[j], calls + [Race.Asking(bytes)]) {
      assert BodyOk(w.bodies[j], calls);
    }
  }

  /** A body starts to wait for the call that has just arrived for it. */
  lemma WaitKeepsInv(w: World, limit: int, j: nat, wait: Wait)
    requires Inv(w, limit) && j < |w.bodies| && w.bodies[j].waiting.None? && !w.bodies[j].meter.refused
    requires Due(w.bodies[j].meter, wait.data, wait.err)
    requires wait.call < |w.window.calls|
    requires w.window.calls[wait.call] == Race.Asking(w.bodies[j].meter.pending + |wait.data|)
    requires forall k :: 0 <= k < |w.bodies| && w.bodies[k].waiting.Some? ==>
               w.bodies[k].waiting.value.call != wait.call
    ensures Inv(w.(bodies := w.bodies[j := w.bodies[j].(waiting := Some(wait))]), limit)
  {
    var b := w.bodies[j].(waiting := Some(wait));
    assert BodyOk(w.bodies[j], w.window.calls);
    SumUpdate(w.bodies, j, b, ChargedOf);
    SumUpdate(w.bodies, j, b, GrantedIn(w.window.calls));
  }

  lemma ReadKeepsInv(w: World, limit: int, j: nat, data: Bytes, err: bool)
    requires Inv(w, limit) && j < |w.bodies|
    ensures Inv(OnRead(w, j, data, err), limit)
  {
    var b := w.bodies[j];
    assert BodyOk(b, w.window.calls);
    if b.waiting.Some? {
    } else if b.meter.refused || !Due(b.meter, data, err) {
      BodyMovesOn(w, limit, j, Apply(b, Raw(data, err, true)));
    } else {
      var bytes := b.meter.pending + |data|;
      var w1 := w.(window := Race.Next(w.window, limit, Race.Arrive(bytes)));
      ArrivalKeepsInv(w, limit, bytes);
      forall k | 0 <= k < |w.bodies| && w.bodies[k].waiting.Some?
        ensures w.bodies[k].waiting.value.call != |w.window.calls|
      {
        assert BodyOk(w.bodies[k], w.window.calls);
      }
      WaitKeepsInv(w1, limit, j, Wait(data, err, |w.window.calls|));
    }
  }

  lemma AnswerKeepsInv(w: World, limit: int, j: nat)
    requires Inv(w, limit) && j < |w.bodies|
    ensures Inv(OnAnswer(w, j), limit)
  {
    var b, w' := w.bodies[j], OnAnswer(w, j);
    assert BodyOk(b, w.window.calls);
    if w' != w {
      BodyMovesOn(w, limit, j, w'.bodies[j]);
    }
  }

  // ----- a call on the window moves -----------------------------------------

  lemma {:induction false} UnawaitedCall(bodies: seq<Body>, calls: seq<Race.Call>, i: nat, c: Race.Call)
    requires i < |calls| && forall b :: b in bodies && b.waiting.Some? ==> b.waiting.value.call != i
    ensures Sum(bodies, GrantedIn(calls[i := c])) == Sum(bodies, GrantedIn(calls))
  {
    if bodies != [] {
      assert bodies[0] in bodies;
      UnawaitedCall(bodies[1..], calls, i, c);
    }
  }

  /** At most one body waits for call i, so what the bodies were granted grows by no more than the call does. */
  lemma {:induction false} AwaitedOnce(bodies: seq<Body>, calls: seq<Race.Call>, i: nat, c: Race.Call)
    requires i < |calls| && WaitsDiffer(bodies) && GrantedBytes(calls[i]) <= GrantedBytes(c)
    ensures Sum(bodies, GrantedIn(calls[i := c])) <=
            Sum(bodies, GrantedIn(calls)) + GrantedBytes(c) - GrantedBytes(calls[i])
  {
    if bodies != [] {
      var b := bodies[0];
      if b.waiting.Some? && b.waiting.value.call == i {
        forall d | d in bodies[1..] && d.waiting.Some? ensures d.waiting.value.call != i {
          var k :| 0 <= k < |bodies| - 1 && bodies[1..][k] == d;
          assert bodies[k + 1] == d;
        }
        UnawaitedCall(bodies[1..], calls, i, c);
      } else {
        AwaitedOnce(bodies[1..], calls, i, c);
      }
    }
  }

  lemma CallKeepsInv(w: World, limit: int, e: Race.Event)
    requires Inv(w, limit) && Race.Fits(w.window, e) && (e.Step? || e.Fail?) && e.i < |w.window.calls|
    ensures Inv(w.(window := Race.Next(w.window, limit, e)), limit)
  {
    var calls, calls' := w.window.calls, Race.Next(w.window, limit, e).calls;
    Race.NextKeepsInv(w.window, limit, e);
    assert calls' == calls[e.i := calls'[e.i]];
    AwaitedOnce(w.bodies, calls, e.i, calls'[e.i]);
    SumUpdate(calls, e.i, calls'[e.i], GrantedBytes);
    forall j | 0 <= j < |w.bodies| ensures BodyOk(w.bodies[j], calls') {
      assert BodyOk(w.bodies[j], calls);
    }
  }

  // ----- runs ---------------------------------------------------------------

  lemma OpenKeepsInv(w: World, limit: int)
    requires Inv(w, limit)
    ensures Inv(Next(w, limit, Open), limit)
  {
    var b := Body(NEW_METER, 0, 0, None);
    SumAppend(w.bodies, b, ChargedOf);
    SumAppend(w.bodies, b, GrantedIn(w.window.calls));
  }

  lemma NextKeepsInv(w: World, limit: int, e: Event)
    requires Inv(w, limit) && (e.Counter? ==> Race.Fits(w.window, e.e))
    ensures Inv(Next(w, limit, e), limit)
  {
    match e
    case Open => OpenKeepsInv(w, limit);
    case Read(j, data, err) =>
      if j < |w.bodies| {
        ReadKeepsInv(w, limit, j, data, err);
      }
    case Answer(j) =>
      if j < |w.bodies| {
        AnswerKeepsInv(w, limit, j);
      }
    case Counter(e) =>
      if e.Arrive? {
        ArrivalKeepsInv(w, limit, e.bytes);
      } else if e.i < |w.window.calls| {
        CallKeepsInv(w, limit, e);
      }
  }

  lemma {:induction false} RunKeepsInv(w: World, limit: int, es: seq<Event>)
    requires Inv(w, limit) && AllFit(w, limit, es)
    ensures Inv(After(w, limit, es), limit)
    decreases |es|
  {
    if es != [] {
      NextKeepsInv(w, limit, es[0]);
      RunKeepsInv(Next(w, limit, es[0]), limit, es[1..]);
    }
  }

  lemma {:induction false} DeliveredAtMost(bodies: seq<Body>, calls: seq<Race.Call>)
    requires BodiesOk(bodies, calls)
    ensures Sum(bodies, DeliveredOf) <= Sum(bodies, ChargedOf) + |bodies| * (METER_SLICE - 1)
    ensures 0 <= Sum(bodies, GrantedIn(calls))
  {
    if bodies != [] {
      assert BodyOk(bodies[0], calls);
      forall j | 0 <= j < |bodies| - 1 ensures BodyOk(bodies[1..][j], calls) {
        assert BodyOk(bodies[j + 1], calls);
      }
      DeliveredAtMost(bodies[1..], calls);
    }
  }

  /**
   * In every interleaving of Reads and limiter calls, lost refunds and failures
   * included, the bodies together deliver at most the limit, what a failing
   * cache let through, and less than one slice each.
   */
  lemma DeliveredStaysNearLimit(limit: int, es: seq<Event>)
    requires AllFit(START, limit, es)
    ensures var w := After(START, limit, es);
            Sum(w.bodies, DeliveredOf)
              <= Max(limit, 0) + Sum(w.window.calls, OpenBytes) + |w.bodies| * (METER_SLICE - 1)
  {
    var w := After(START, limit, es);
    RunKeepsInv(START, limit, es);
    DeliveredAtMost(w.bodies, w.window.calls);
    GrantedSplits(w.window.calls);
  }

  // ----- a Read that is not disturbed ---------------------------------------

  function ReadAlone(w: World, j: nat, data: Bytes, err: bool): seq<Event> {
    var call := |w.window.calls|;
    [Read(j, data, err), Counter(Race.Step(call)), Counter(Race.Step(call)), Answer(j)]
  }

  /**
   * A Read with no other event in between delivers its bytes, unless it makes a
   * charge and the window has no room for it; then the body is refused and the
   * window is as full as before.
   */
  lemma UndisturbedRead(w: World, limit: int, j: nat, data: Bytes, err: bool)
    requires j < |w.bodies| && w.bodies[j].waiting.None? && !w.bodies[j].meter.refused
    requires 0 <= w.window.counter && w.window.counter + w.bodies[j].meter.pending + |data| <= MAX_INT64
    ensures var b, total := w.bodies[j], w.bodies[j].meter.pending + |data|;
            var due := total >= 1_048_576 || (err && total > 0);
            var room := w.window.counter + total <= limit;
            var w' := After(w, limit, ReadAlone(w, j, data, err));
            && w'.window.counter == w.window.counter + (if due && room then total else 0)
            && w'.bodies == w.bodies[j :=
                 if !due then Body(Meter(total, false), b.delivered + |data|, b.charged, None)
                 else if room then Body(Meter(0, false), b.delivered + |data|, b.charged + total, None)
                 else Body(Meter(total, true), b.delivered, b.charged, None)]
  {
    var es := ReadAlone(w, j, data, err);
    var w1 := Next(w, limit, es[0]);
    var w2 := Next(w1, limit, es[1]);
    var w3 := Next(w2, limit, es[2]);
    assert es[1..][1..] == [es[2], es[3]] && [es[2], es[3]][1..] == [es[3]] && [es[3]][1..] == [];
    assert After(w3, limit, [es[3]]) == Next(w3, limit, es[3]);
    assert After(w2, limit, [es[2], es[3]]) == After(w3, limit, [es[3]]);
    assert After(w1, limit, es[1..]) == After(w2, limit, [es[2], es[3]]);
  }

  /** A Read whose limiter call fails is delivered all the same, and the window does not count it. */
  lemma FailingLimiterLetsThrough(w: World, limit: int, j: nat, data: Bytes, err: bool)
    requires j < |w.bodies| && w.bodies[j].waiting.None? && !w.bodies[j].meter.refused
    ensures var b, total := w.bodies[j], w.bodies[j].meter.pending + |data|;
            var due := total >= 1_048_576 || (err && total > 0);
            var w' := After(w, limit, [Read(j, data, err), Counter(Race.Fail(|w.window.calls|)), Answer(j)]);
            && w'.window.counter == w.window.counter
            && w'.bodies == w.bodies[j := Body(Meter(if due then 0 else total, false), b.delivered + |data|,
                                               b.charged + if due then total else 0, None)]
  {
    var es := [Read(j, data, err), Counter(Race.Fail(|w.window.calls|)), Answer(j)];
    var w1 := Next(w, limit, es[0]);
    var w2 := Next(w1, limit, es[1]);
    assert es[1..][1..] == [es[2]] && [es[2]][1..] == [];
    assert After(w2, limit, [es[2]]) == Next(w2, limit, es[2]);
    assert After(w1, limit, es[1..]) == After(w2, limit, [es[2]]);
  }
}
