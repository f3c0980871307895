/**
 * Concurrent UploadChunk calls on one session, statement by statement, beside
 * the calls that close the session. The progress counter is read with the
 * session and written back, increased, four statements later.
 */
module ChunkRace {
  import opened Common
  import opened Chunks

  datatype Shape = Shape(chunkSize: nat, count: nat)

  datatype Progress = Progress(status: Status, received: nat)

  /** Where an UploadChunk call is; `late` says that the session had expired when it looked at the clock. */
  datatype Call =
    | Arrived(asked: int, data: Bytes, late: bool)
    | Reading(num: nat, data: Bytes, seen: nat)
    | Writing(num: nat, data: Bytes, seen: nat)
    | Inserting(num: nat, data: Bytes, seen: nat)
    | Updating(seen: nat)
    | Cleaning(num: nat)
    | Expiring
    | Stored
    | Refused

  /** A chunk row is represented by the content its digest identifies. */
  datatype Uploads = Uploads(session: Option<Progress>, rows: map<nat, Bytes>, files: map<nat, Bytes>, calls: seq<Call>)
  {
    predicate Live() {
      session.Some? && session.value.status == Active
    }

    function At(i: nat, c: Call): Uploads
      requires i < |calls|
    {
      this.(calls := calls[i := c])
    }
  }

  const FRESH := Uploads(Some(Progress(Active, 0)), map[], map[], [])

  /** The next statement of call i. */
  function StepCall(shape: Shape, u: Uploads, i: nat): Uploads
    requires i < |u.calls|
  {
    match u.calls[i]
    case Arrived(num, data, late) =>
      u.At(i, if !u.Live() then Refused
              else if late then Expiring
              else if num < 0 || num >= shape.count then Refused
              else Reading(num, data, u.session.value.received))
    case Reading(num, data, seen) =>
      u.At(i, if num in u.rows || !SizeAccepted(shape.chunkSize, shape.count, num, |data|) then Refused
              else Writing(num, data, seen))
    case Writing(num, data, seen) => u.At(i, Inserting(num, data, seen)).(files := u.files[num := data])
    case Inserting(num, data, seen) =>
      if num in u.rows || u.session.None? then u.At(i, Cleaning(num))
      else u.At(i, Updating(seen)).(rows := u.rows[num := data])
    case Updating(seen) =>
      if u.session.None? then u.At(i, Stored)
      else u.At(i, Stored).(session := Some(u.session.value.(received := seen + 1)))
    case Cleaning(num) => u.At(i, Refused).(files := u.files - {num})
    case Expiring =>
      if u.session.None? then u.At(i, Refused)
      else u.At(i, Refused).(session := Some(u.session.value.(status := Expired)))
    case _ => u
  }

  /** Call i's next statement fails. An error from the row lookup reads as "no such row". */
  function FailCall(shape: Shape, u: Uploads, i: nat): Uploads
    requires i < |u.calls|
  {
    match u.calls[i]
    case Reading(num, data, seen) =>
      u.At(i, if SizeAccepted(shape.chunkSize, shape.count, num, |data|) then Writing(num, data, seen) else Refused)
    case Inserting(num, _, _) => u.At(i, Cleaning(num))
    case Updating(_) => u.At(i, Stored)
    case Stored => u
    case _ => u.At(i, Refused)
  }

  /**
   * `Close` is any status update that ends the session; chunk rows are deleted
   * only after one. Files may go at any time: a completed upload removes them
   * even when its status update failed. `Purge` removes the session row, and its
   * chunk rows with it.
   */
  datatype Event =
    | Arrive(num: int, data: Bytes, late: bool)
    | Step(i: nat)
    | Fail(i: nat)
    | Close(status: Status)
    | RemoveFiles
    | DeleteRows
    | Purge

  function Next(shape: Shape, u: Uploads, e: Event): Uploads {
    match e
    case Arrive(num, data, late) => u.(calls := u.calls + [Arrived(num, data, late)])
    case Step(i) => if i < |u.calls| then StepCall(shape, u, i) else u
    case Fail(i) => if i < |u.calls| then FailCall(shape, u, i) else u
    case Close(status) =>
      if u.session.None? || status == Active then u else u.(session := Some(u.session.value.(status := status)))
    case RemoveFiles => u.(files := map[])
    case DeleteRows => if u.Live() then u else u.(rows := map[])
    case Purge => u.(session := None, rows := map[])
  }

  function After(shape: Shape, u: Uploads, es: seq<Event>): Uploads
    decreases |es|
  {
    if es == [] then u else After(shape, Next(shape, u, es[0]), es[1..])
  }

  lemma {:induction false} AfterConcat(shape: Shape, u: Uploads, es: seq<Event>, fs: seq<Event>)
    ensures After(shape, u, es + fs) == After(shape, After(shape, u, es), fs)
    decreases |es|
  {
    if es == [] {
      assert es + fs == fs;
    } else {
      assert (es + fs)[1..] == es[1..] + fs;
      AfterConcat(shape, Next(shape, u, es[0]), es[1..], fs);
    }
  }

  // ----- the counter --------------------------------------------------------

  /** A chunk number in range with data of a size that it may have. */
  predicate Fits(shape: Shape, num: nat, data: Bytes) {
    num < shape.count && SizeAccepted(shape.chunkSize, shape.count, num, |data|)
  }

  /** What a call holds while `lost` of the recorded chunks are missing from every count. */
  predicate CallInv(shape: Shape, c: Call, recorded: nat, lost: nat, live: bool) {
    match c
    case Reading(num, _, seen) => num < shape.count && (live ==> seen + lost <= recorded)
    case Writing(num, data, seen) => Fits(shape, num, data) && (live ==> seen + lost <= recorded)
    case Inserting(num, data, seen) => Fits(shape, num, data) && (live ==> seen + lost <= recorded)
    case Updating(seen) => live ==> seen + 1 + lost <= recorded
    case _ => true
  }

  ghost predicate Inv(shape: Shape, u: Uploads, lost: nat) {
    && (forall n :: n in u.rows ==> Fits(shape, n, u.rows[n]))
    && (u.Live() ==> u.session.value.received + lost <= |u.rows|)
    && (forall i :: 0 <= i < |u.calls| ==> CallInv(shape, u.calls[i], |u.rows|, lost, u.Live()))
  }

  /** Recorded rows never decrease while the session is active, so only the stepping call matters. */
  lemma OthersKeepInv(shape: Shape, u: Uploads, u': Uploads, lost: nat, i: nat)
    requires Inv(shape, u, lost) && i < |u.calls| == |u'.calls| && u'.calls == u.calls[i := u'.calls[i]]
    requires u'.Live() ==> u.Live() && |u.rows| <= |u'.rows|
    requires CallInv(shape, u'.calls[i], |u'.rows|, lost, u'.Live())
    ensures forall j :: 0 <= j < |u'.calls| ==> CallInv(shape, u'.calls[j], |u'.rows|, lost, u'.Live())
  {
    forall j | 0 <= j < |u'.calls| ensures CallInv(shape, u'.calls[j], |u'.rows|, lost, u'.Live()) {
      if j != i {
        assert CallInv(shape, u.calls[j], |u.rows|, lost, u.Live());
      }
    }
  }

  lemma StepFrame(shape: Shape, u: Uploads, i: nat)
    requires i < |u.calls|
    ensures var u' := StepCall(shape, u, i);
            && |u'.calls| == |u.calls| && u'.calls == u.calls[i := u'.calls[i]]
            && (u'.Live() ==> u.Live() && |u.rows| <= |u'.rows|)
  {
  }

  /** The stepping call keeps its part, the count stays covered, and rows are only added, with a size they may have. */
  ghost predicate OwnKept(shape: Shape, u: Uploads, u': Uploads, lost: nat, i: nat)
    requires i < |u'.calls|
  {
    && CallInv(shape, u'.calls[i], |u'.rows|, lost, u'.Live())
    && (u'.Live() ==> u'.session.value.received + lost <= |u'.rows|)
    && (forall n :: n in u'.rows && n !in u.rows ==> Fits(shape, n, u'.rows[n]))
    && (forall n :: n in u.rows ==> n in u'.rows && u'.rows[n] == u.rows[n])
  }

  predicate BeforeInsert(c: Call) {
    c.Arrived? || c.Reading? || c.Writing?
  }

  lemma StepBeforeInsert(shape: Shape, u: Uploads, lost: nat, i: nat)
    requires i < |u.calls| && BeforeInsert(u.calls[i]) && CallInv(shape, u.calls[i], |u.rows|, lost, u.Live())
    requires u.Live() ==> u.session.value.received + lost <= |u.rows|
    ensures OwnKept(shape, u, StepCall(shape, u, i), lost, i)
  {
  }

  lemma StepFromInsert(shape: Shape, u: Uploads, lost: nat, i: nat)
    requires i < |u.calls| && !BeforeInsert(u.calls[i]) && CallInv(shape, u.calls[i], |u.rows|, lost, u.Live())
    requires u.Live() ==> u.session.value.received + lost <= |u.rows|
    ensures OwnKept(shape, u, StepCall(shape, u, i), lost, i)
  {
  }

  lemma StepKeepsInv(shape: Shape, u: Uploads, lost: nat, i: nat)
    requires Inv(shape, u, lost) && i < |u.calls|
    ensures Inv(shape, StepCall(shape, u, i), lost)
  {
    StepFrame(shape, u, i);
    if BeforeInsert(u.calls[i]) {
      StepBeforeInsert(shape, u, lost, i);
    } else {
      StepFromInsert(shape, u, lost, i);
    }
    OthersKeepInv(shape, u, StepCall(shape, u, i), lost, i);
  }

  lemma NextKeepsInv(shape: Shape, u: Uploads, lost: nat, e: Event)
    requires Inv(shape, u, lost)
    ensures Inv(shape, Next(shape, u, e), lost)
  {
    if e.Step? && e.i < |u.calls| {
      StepKeepsInv(shape, u, lost, e.i);
    } else if e.Fail? && e.i < |u.calls| {
      assert CallInv(shape, u.calls[e.i], |u.rows|, lost, u.Live());
    }
  }

  lemma {:induction false} RunKeepsInv(shape: Shape, u: Uploads, lost: nat, es: seq<Event>)
    requires Inv(shape, u, lost)
    ensures Inv(shape, After(shape, u, es), lost)
    decreases |es|
  {
    if es != [] {
      NextKeepsInv(shape, u, lost, es[0]);
      RunKeepsInv(shape, Next(shape, u, es[0]), lost, es[1..]);
    }
  }

  /** Under every interleaving, failures included, an active session never counts a chunk it has not recorded. */
  lemma CountNeverExceedsRecorded(shape: Shape, es: seq<Event>)
    ensures var u := After(shape, FRESH, es); u.Live() ==> u.session.value.received <= |u.rows|
  {
    RunKeepsInv(shape, FRESH, 0, es);
  }

  // ----- what a lost update costs -------------------------------------------

  /** No call is between its first statement and its last. */
  ghost predicate Settled(u: Uploads) {
    forall i :: 0 <= i < |u.calls| ==> u.calls[i].Arrived? || u.calls[i].Stored? || u.calls[i].Refused?
  }

  predicate FileHolds(u: Uploads, n: nat) {
    n in u.rows && n in u.files && u.files[n] == u.rows[n]
  }

  /** What CompleteUpload asks of the session before it compares the final digest. */
  ghost predicate Ready(shape: Shape, u: Uploads) {
    && u.Live()
    && u.session.value.received == shape.count == |u.rows|
    && (forall n :: 0 <= n < shape.count ==> FileHolds(u, n))
  }

  /** Every recorded chunk is counted and readable. */
  ghost predicate Healthy(u: Uploads) {
    u.Live() && u.session.value.received == |u.rows| && forall n :: n in u.rows ==> FileHolds(u, n)
  }

  /** A count that is behind while no call is in flight stays behind: such a session never completes. */
  lemma LostUpdateIsForEver(shape: Shape, u: Uploads, es: seq<Event>)
    requires Inv(shape, u, 0) && Settled(u) && u.Live() && u.session.value.received < |u.rows|
    ensures var u' := After(shape, u, es);
            u'.Live() ==> u'.session.value.received + (|u.rows| - u.session.value.received) <= |u'.rows| <= shape.count
    ensures !Ready(shape, After(shape, u, es))
  {
    var lost := |u.rows| - u.session.value.received;
    RunKeepsInv(shape, u, lost, es);
    KeysBelow(After(shape, u, es).rows, shape.count);
  }

  function Numbers(n: nat): (s: set<nat>)
    ensures |s| == n && forall i :: i in s <==> 0 <= i < n
  {
    if n == 0 then {} else Numbers(n - 1) + {n - 1}
  }

  lemma KeysBelow(rows: map<nat, Bytes>, n: nat)
    requires forall k :: k in rows ==> k < n
    ensures |rows| <= n
    ensures |rows| == n <==> forall k :: 0 <= k < n ==> k in rows
  {
    SubsetSize(rows.Keys, Numbers(n));
    assert |rows| == |rows.Keys|;
    if forall k :: 0 <= k < n ==> k in rows {
      assert rows.Keys == Numbers(n);
    }
  }

  lemma SubsetSize(a: set<nat>, b: set<nat>)
    requires a <= b
    ensures |a| <= |b| && (|a| == |b| ==> a == b)
  {
    assert b == a + (b - a);
  }

  predicate NoFailure(es: seq<Event>) {
    forall e :: e in es ==> !e.Fail?
  }

  predicate Touches(c: Call, k: nat) {
    (c.Writing? || c.Inserting? || c.Cleaning?) && c.num == k
  }

  /** Row k cannot be read back, and no call is about to write its file. */
  ghost predicate Broken(u: Uploads, k: nat) {
    u.Live() ==>
      k in u.rows && !FileHolds(u, k) && forall i :: 0 <= i < |u.calls| ==> !Touches(u.calls[i], k)
  }

  /** Without a failing statement, a recorded chunk that has lost its file is never written again. */
  lemma {:induction false} BrokenIsForEver(shape: Shape, u: Uploads, k: nat, es: seq<Event>)
    requires Broken(u, k) && NoFailure(es)
    ensures Broken(After(shape, u, es), k)
    decreases |es|
  {
    if es != [] {
      var u' := Next(shape, u, es[0]);
      assert es[0] in es;
      if es[0].Step? && es[0].i < |u.calls| && u'.Live() {
        assert !Touches(u.calls[es[0].i], k);
      }
      assert Broken(u', k);
      BrokenIsForEver(shape, u', k, es[1..]);
    }
  }

  /** The statements left to a call that has read the session and will be accepted. */
  function Finish(i: nat): seq<Event> {
    [Step(i), Step(i), Step(i), Step(i)]
  }

  function Finished(u: Uploads, i: nat): Uploads
    requires i < |u.calls| && u.calls[i].Reading? && u.session.Some?
  {
    var c := u.calls[i];
    Uploads(Some(u.session.value.(received := c.seen + 1)), u.rows[c.num := c.data], u.files[c.num := c.data],
            u.calls[i := Stored])
  }

  lemma FinishUpload(shape: Shape, u: Uploads, i: nat)
    requires u.Live() && i < |u.calls| && u.calls[i].Reading? && u.calls[i].num !in u.rows
    requires SizeAccepted(shape.chunkSize, shape.count, u.calls[i].num, |u.calls[i].data|)
    ensures After(shape, u, Finish(i)) == Finished(u, i)
  {
    var c := u.calls[i];
    var u1 := u.At(i, Writing(c.num, c.data, c.seen));
    var u2 := u.At(i, Inserting(c.num, c.data, c.seen)).(files := u.files[c.num := c.data]);
    var u3 := u2.At(i, Updating(c.seen)).(rows := u.rows[c.num := c.data]);
    var es := Finish(i);
    assert Next(shape, u, es[0]) == u1;
    assert Next(shape, u1, es[1]) == u2;
    assert Next(shape, u2, es[2]) == u3;
    assert Next(shape, u3, es[3]) == Finished(u, i);
    assert After(shape, u3, es[3..]) == Finished(u, i);
    assert After(shape, u2, es[2..]) == Finished(u, i);
    assert After(shape, u1, es[1..]) == Finished(u, i);
  }

  function Zeros(n: nat): Bytes {
    seq(n, _ => 0)
  }

  /** One whole upload of a chunk not yet recorded. */
  lemma UploadMissing(shape: Shape, u: Uploads, num: nat) returns (es: seq<Event>)
    requires Inv(shape, u, 0) && Healthy(u) && num < shape.count && num !in u.rows
    ensures NoFailure(es)
    ensures var u' := After(shape, u, es);
            Inv(shape, u', 0) && Healthy(u') && |u'.rows| == |u.rows| + 1
  {
    var i, data := |u.calls|, Zeros(shape.chunkSize);
    var start := [Arrive(num, data, false), Step(i)];
    var u1 := u.(calls := u.calls + [Arrived(num, data, false)]);
    var u2 := u1.At(i, Reading(num, data, u.session.value.received));
    assert Next(shape, u, start[0]) == u1;
    assert Next(shape, u1, start[1]) == u2;
    assert After(shape, u1, start[1..]) == u2;
    es := start + Finish(i);
    AfterConcat(shape, u, start, Finish(i));
    FinishUpload(shape, u2, i);
    RunKeepsInv(shape, u, 0, es);
    var u' := Finished(u2, i);
    forall n | n in u'.rows ensures FileHolds(u', n) {
      assert n != num ==> FileHolds(u, n);
    }
  }

  lemma {:induction false} HealthyCompletes(shape: Shape, u: Uploads) returns (es: seq<Event>)
    requires Inv(shape, u, 0) && Healthy(u)
    ensures NoFailure(es) && Ready(shape, After(shape, u, es))
    decreases shape.count - |u.rows|
  {
    KeysBelow(u.rows, shape.count);
    if |u.rows| == shape.count {
      es := [];
    } else {
      var num :| 0 <= num < shape.count && num !in u.rows;
      var first := UploadMissing(shape, u, num);
      KeysBelow(After(shape, u, first).rows, shape.count);
      var rest := HealthyCompletes(shape, After(shape, u, first));
      es := first + rest;
      AfterConcat(shape, u, first, rest);
    }
  }

  /**
   * As long as no statement fails: an active session with no call in flight can
   * still complete if and only if its counter equals its recorded chunks and
   * their files can be read back.
   */
  lemma CompletesExactlyWhenHealthy(shape: Shape, u: Uploads)
    requires Inv(shape, u, 0) && Settled(u) && u.Live()
    ensures (exists es :: NoFailure(es) && Ready(shape, After(shape, u, es))) <==> Healthy(u)
  {
    if Healthy(u) {
      var es := HealthyCompletes(shape, u);
    } else {
      forall es | NoFailure(es) ensures !Ready(shape, After(shape, u, es)) {
        if u.session.value.received < |u.rows| {
          LostUpdateIsForEver(shape, u, es);
        } else {
          var k :| k in u.rows && !FileHolds(u, k);
          BrokenIsForEver(shape, u, k, es);
        }
      }
    }
  }

  // ----- a failing lookup repairs a file ------------------------------------

  ghost function Unreadable(u: Uploads): set<nat> {
    set n | n in u.rows && !FileHolds(u, n)
  }

  /** A call for a recorded chunk whose row lookup fails, stopped before its insert. */
  function Rewrite(u: Uploads, k: nat): seq<Event>
    requires k in u.rows
  {
    var i := |u.calls|;
    [Arrive(k, u.rows[k], false), Step(i), Fail(i), Step(i)]
  }

  /** It has written the chunk's file again, since the code takes the failed lookup for "no such chunk". */
  lemma RewriteRepairs(shape: Shape, u: Uploads, k: nat)
    requires Inv(shape, u, 0) && u.Live() && k in u.rows
    ensures var u' := After(shape, u, Rewrite(u, k));
            && Inv(shape, u', 0) && u'.Live() && u'.session == u.session && u'.rows == u.rows
            && Unreadable(u') == Unreadable(u) - {k}
  {
    var i, data, es := |u.calls|, u.rows[k], Rewrite(u, k);
    var seen := u.session.value.received;
    assert Fits(shape, k, data);
    var u1 := u.(calls := u.calls + [Arrived(k, data, false)]);
    var u2 := u.(calls := u.calls + [Reading(k, data, seen)]);
    var u3 := u.(calls := u.calls + [Writing(k, data, seen)]);
    var u4 := u.(calls := u.calls + [Inserting(k, data, seen)], files := u.files[k := data]);
    assert Next(shape, u, es[0]) == u1;
    assert Next(shape, u1, es[1]) == u2;
    assert Next(shape, u2, es[2]) == u3;
    assert Next(shape, u3, es[3]) == u4;
    FourSteps(shape, u, u1, u2, u3, u4, es);
    RunKeepsInv(shape, u, 0, es);
  }

  lemma FourSteps(shape: Shape, u: Uploads, u1: Uploads, u2: Uploads, u3: Uploads, u4: Uploads, es: seq<Event>)
    requires |es| == 4 && Next(shape, u, es[0]) == u1 && Next(shape, u1, es[1]) == u2
    requires Next(shape, u2, es[2]) == u3 && Next(shape, u3, es[3]) == u4
    ensures After(shape, u, es) == u4
  {
    assert After(shape, u3, es[3..]) == u4;
    assert After(shape, u2, es[2..]) == u4;
    assert After(shape, u1, es[1..]) == u4;
  }

  lemma {:induction false} RepairAll(shape: Shape, u: Uploads) returns (es: seq<Event>)
    requires Inv(shape, u, 0) && u.Live() && u.session.value.received == |u.rows|
    ensures Inv(shape, After(shape, u, es), 0) && Healthy(After(shape, u, es))
    decreases Unreadable(u)
  {
    if k :| k in Unreadable(u) {
      RewriteRepairs(shape, u, k);
      var rest := RepairAll(shape, After(shape, u, Rewrite(u, k)));
      es := Rewrite(u, k) + rest;
      AfterConcat(shape, u, Rewrite(u, k), rest);
    } else {
      es := [];
      assert forall n :: n in u.rows && !FileHolds(u, n) ==> n in Unreadable(u);
    }
  }

  /**
   * Over all runs, failing statements included: an active session with no call
   * in flight can still complete if and only if its counter equals its recorded
   * chunks. Missing files can come back; a lost update cannot.
   */
  lemma CompletesExactlyWhenCounted(shape: Shape, u: Uploads)
    requires Inv(shape, u, 0) && Settled(u) && u.Live()
    ensures (exists es :: Ready(shape, After(shape, u, es))) <==> u.session.value.received == |u.rows|
  {
    if u.session.value.received == |u.rows| {
      var repair := RepairAll(shape, u);
      var finish := HealthyCompletes(shape, After(shape, u, repair));
      AfterConcat(shape, u, repair, finish);
      assert Ready(shape, After(shape, u, repair + finish));
    } else {
      forall es ensures !Ready(shape, After(shape, u, es)) {
        LostUpdateIsForEver(shape, u, es);
      }
    }
  }

  // ----- both ways of getting stuck do happen -------------------------------

  /** Two calls, for chunks a and b, that both read the session before either writes. */
  function BothRead(a: nat, b: nat): seq<Event> {
    [Arrive(a, Zeros(1), false), Arrive(b, Zeros(1), false), Step(0), Step(1)]
  }

  lemma BothReadState(shape: Shape, a: nat, b: nat)
    requires a < shape.count && b < shape.count
    ensures After(shape, FRESH, BothRead(a, b)) == FRESH.(calls := [Reading(a, Zeros(1), 0), Reading(b, Zeros(1), 0)])
  {
    var es, z := BothRead(a, b), Zeros(1);
    var u1 := FRESH.(calls := [Arrived(a, z, false)]);
    var u2 := FRESH.(calls := [Arrived(a, z, false), Arrived(b, z, false)]);
    var u3 := FRESH.(calls := [Reading(a, z, 0), Arrived(b, z, false)]);
    var u4 := FRESH.(calls := [Reading(a, z, 0), Reading(b, z, 0)]);
    assert Next(shape, FRESH, es[0]) == u1;
    assert Next(shape, u1, es[1]) == u2;
    assert Next(shape, u2, es[2]) == u3;
    assert Next(shape, u3, es[3]) == u4;
    assert After(shape, u3, es[3..]) == u4;
    assert After(shape, u2, es[2..]) == u4;
    assert After(shape, u1, es[1..]) == u4;
  }

  /** Two chunks at once: both recorded, one counted, and the upload can never complete. */
  lemma ConcurrentChunksCanBlockCompletion(more: seq<Event>)
    ensures var shape := Shape(1, 2); var es := BothRead(0, 1) + Finish(0) + Finish(1);
            var u := After(shape, FRESH, es);
            && u.Live() && |u.rows| == 2 && u.session.value.received == 1 && Settled(u)
            && !Ready(shape, After(shape, u, more))
  {
    var shape := Shape(1, 2);
    var es := BothRead(0, 1) + Finish(0) + Finish(1);
    var both := FRESH.(calls := [Reading(0, Zeros(1), 0), Reading(1, Zeros(1), 0)]);
    BothReadState(shape, 0, 1);
    FinishUpload(shape, both, 0);
    FinishUpload(shape, Finished(both, 0), 1);
    AfterConcat(shape, FRESH, BothRead(0, 1), Finish(0));
    AfterConcat(shape, FRESH, BothRead(0, 1) + Finish(0), Finish(1));
    RunKeepsInv(shape, FRESH, 0, es);
    LostUpdateIsForEver(shape, After(shape, FRESH, es), more);
  }

  function Duplicated(): seq<Event> {
    BothRead(0, 0) + [Step(1), Step(1)] + Finish(0) + [Step(1), Step(1)]
  }

  function OneRowNoFile(): Uploads {
    Uploads(Some(Progress(Active, 1)), map[0 := Zeros(1)], map[], [Stored, Refused])
  }

  lemma DuplicatedState(shape: Shape)
    requires shape == Shape(1, 1)
    ensures After(shape, FRESH, Duplicated()) == OneRowNoFile()
  {
    var z, two := Zeros(1), [Step(1), Step(1)];
    var u0 := FRESH.(calls := [Reading(0, z, 0), Reading(0, z, 0)]);
    var u1 := FRESH.(calls := [Reading(0, z, 0), Inserting(0, z, 0)], files := map[0 := z]);
    BothReadState(shape, 0, 0);
    TwoSteps(shape, u0, 1);
    assert StepCall(shape, StepCall(shape, u0, 1), 1) == u1;
    FinishUpload(shape, u1, 0);
    DuplicateCleansUp(shape, Finished(u1, 0));
    AfterConcat(shape, FRESH, BothRead(0, 0), two);
    AfterConcat(shape, FRESH, BothRead(0, 0) + two, Finish(0));
    AfterConcat(shape, FRESH, BothRead(0, 0) + two + Finish(0), two);
  }

  lemma DuplicateCleansUp(shape: Shape, u: Uploads)
    requires u == Uploads(Some(Progress(Active, 1)), map[0 := Zeros(1)], map[0 := Zeros(1)],
                          [Stored, Inserting(0, Zeros(1), 0)])
    ensures After(shape, u, [Step(1), Step(1)]) == OneRowNoFile()
  {
    TwoSteps(shape, u, 1);
    assert u.files - {0} == map[];
  }

  /**
   * The same chunk twice at once: the call that loses the insert removes the
   * file of the one that won. Until a statement fails, the upload cannot complete.
   */
  lemma DuplicateChunkCanRemoveTheFile(more: seq<Event>)
    requires NoFailure(more)
    ensures var shape := Shape(1, 1); var u := After(shape, FRESH, Duplicated());
            && u.Live() && u.session.value.received == |u.rows| == 1 && 0 !in u.files
            && !Ready(shape, After(shape, u, more))
  {
    DuplicatedState(Shape(1, 1));
    BrokenIsForEver(Shape(1, 1), OneRowNoFile(), 0, more);
  }

  lemma TwoSteps(shape: Shape, u: Uploads, i: nat)
    requires i < |u.calls|
    ensures |StepCall(shape, u, i).calls| == |u.calls|
    ensures After(shape, u, [Step(i), Step(i)]) == StepCall(shape, StepCall(shape, u, i), i)
  {
    var es := [Step(i), Step(i)];
    var u1 := Next(shape, u, es[0]);
    assert After(shape, Next(shape, u1, es[1]), es[2..]) == Next(shape, u1, es[1]);
    assert After(shape, u1, es[1..]) == Next(shape, u1, es[1]);
  }

  // ----- a call that is not disturbed ---------------------------------------

  function Steps(i: nat, n: nat): seq<Event> {
    if n == 0 then [] else [Step(i)] + Steps(i, n - 1)
  }

  function Stepped(shape: Shape, u: Uploads, i: nat, n: nat): Uploads
    decreases n
  {
    if n == 0 then u else Stepped(shape, Next(shape, u, Step(i)), i, n - 1)
  }

  lemma {:induction false} AfterSteps(shape: Shape, u: Uploads, i: nat, n: nat)
    ensures After(shape, u, Steps(i, n)) == Stepped(shape, u, i, n)
    decreases n
  {
    if n > 0 {
      assert Steps(i, n)[1..] == Steps(i, n - 1);
      AfterSteps(shape, Next(shape, u, Step(i)), i, n - 1);
    }
  }

  /** A call and nothing else: UploadChunk has five statements at most. */
  function Undisturbed(u: Uploads, num: int, data: Bytes, late: bool): seq<Event> {
    [Arrive(num, data, late)] + Steps(|u.calls|, 5)
  }

  lemma FiveSteps(shape: Shape, u: Uploads, i: nat)
    ensures var u1 := Next(shape, u, Step(i));
            var u2 := Next(shape, u1, Step(i));
            var u3 := Next(shape, u2, Step(i));
            var u4 := Next(shape, u3, Step(i));
            Stepped(shape, u, i, 5) == Next(shape, u4, Step(i))
  {
    var u1 := Next(shape, u, Step(i));
    var u2 := Next(shape, u1, Step(i));
    var u3 := Next(shape, u2, Step(i));
    assert Stepped(shape, u3, i, 2) == Stepped(shape, Next(shape, u3, Step(i)), i, 1);
    assert Stepped(shape, u2, i, 3) == Stepped(shape, u3, i, 2);
    assert Stepped(shape, u1, i, 4) == Stepped(shape, u2, i, 3);
  }

  lemma UndisturbedIsStepped(shape: Shape, u: Uploads, num: int, data: Bytes, late: bool)
    ensures After(shape, u, Undisturbed(u, num, data, late)) ==
            Stepped(shape, u.(calls := u.calls + [Arrived(num, data, late)]), |u.calls|, 5)
  {
    assert Undisturbed(u, num, data, late)[1..] == Steps(|u.calls|, 5);
    AfterSteps(shape, Next(shape, u, Arrive(num, data, late)), |u.calls|, 5);
  }

  lemma RefusedAlone(shape: Shape, u: Uploads, num: int, data: Bytes, late: bool)
    requires !u.Live() || late || num < 0 || num >= shape.count
    ensures var u' := Stepped(shape, u.(calls := u.calls + [Arrived(num, data, late)]), |u.calls|, 5);
            u' == if u.Live() && late
                  then u.(session := Some(u.session.value.(status := Expired)), calls := u.calls + [Refused])
                  else u.(calls := u.calls + [Refused])
  {
    var i := |u.calls|;
    FiveSteps(shape, u.(calls := u.calls + [Arrived(num, data, late)]), i);
    assert forall c, d :: (u.calls + [c])[i := d] == u.calls + [d];
  }

  lemma InRangeAlone(shape: Shape, u: Uploads, num: nat, data: Bytes)
    requires u.Live() && num < shape.count
    ensures var u' := Stepped(shape, u.(calls := u.calls + [Arrived(num, data, false)]), |u.calls|, 5);
            if && num !in u.rows
               && (if num + 1 == shape.count then |data| <= shape.chunkSize else |data| == shape.chunkSize) then
              u' == Uploads(Some(Progress(Active, u.session.value.received + 1)), u.rows[num := data],
                            u.files[num := data], u.calls + [Stored])
            else u' == u.(calls := u.calls + [Refused])
  {
    var i := |u.calls|;
    FiveSteps(shape, u.(calls := u.calls + [Arrived(num, data, false)]), i);
    assert forall c, d :: (u.calls + [c])[i := d] == u.calls + [d];
  }

  /**
   * An undisturbed call stores its chunk and counts it, or finds the session
   * closed, expired, the number out of range, recorded already or with a wrong size.
   */
  lemma UndisturbedUpload(shape: Shape, u: Uploads, num: int, data: Bytes, late: bool)
    ensures var u' := After(shape, u, Undisturbed(u, num, data, late));
            var live := u.session.Some? && u.session.value.status == Active;
            if !live then u' == u.(calls := u.calls + [Refused])
            else if late then
              u' == u.(session := Some(u.session.value.(status := Expired)), calls := u.calls + [Refused])
            else if && 0 <= num < shape.count && num !in u.rows
                    && (if num + 1 == shape.count then |data| <= shape.chunkSize else |data| == shape.chunkSize) then
              u' == Uploads(Some(Progress(Active, u.session.value.received + 1)), u.rows[num := data],
                            u.files[num := data], u.calls + [Stored])
            else u' == u.(calls := u.calls + [Refused])
  {
    UndisturbedIsStepped(shape, u, num, data, late);
    if u.Live() && !late && 0 <= num < shape.count {
      InRangeAlone(shape, u, num, data);
    } else {
      RefusedAlone(shape, u, num, data, late);
    }
  }
}
