/**
 * Racing PATCH, DELETE and expiry requests on one resumable upload, statement
 * by statement. A PATCH stores its bytes, then moves the offset and records the
 * chunk in one transaction that fails if the offset has moved; a full upload is
 * read back, saved as a blob and deleted. Upload ids are never used again.
 */
module TusRace {
  import opened Common
  import opened TusStore
  import opened TusHandler

  /** Where a request is. Its number is the key of the object it may write. */
  datatype Req =
    | Patching(offset: nat, body: Bytes)
    | Appending(offset: nat, body: Bytes, size: nat)
    | Recording(offset: nat, body: Bytes, size: nat)
    | Unputting
    | Matching(offset: nat, body: Bytes, size: nat)
    | Comparing(offset: nat, body: Bytes, size: nat, listed: seq<Row>)
    | Finalizing(size: nat)
    | Assembling(size: nat, listed: seq<Row>)
    | Dropping(expiredBefore: Option<int>)
    | Erasing(keys: set<nat>)
    | Done
    | Refused

  /**
   * The tables and the object store, the requests, and the history: every chunk
   * ever recorded with the body it was accepted for, and the bytes saved as blobs.
   */
  datatype World = World(
    size: nat, upload: Option<Upload>, rows: seq<Row>, objects: map<nat, Bytes>, calls: seq<Req>,
    log: seq<Row>, accepted: seq<Bytes>, saved: seq<Bytes>)
  {
    function Content(): Bytes {
      Joined(accepted)
    }

    function At(i: nat, c: Req): World
      requires i < |calls|
    {
      this.(calls := calls[i := c])
    }
  }

  function Created(size: nat, expires: int): World {
    World(size, Some(Upload(size, 0, expires)), [], map[], [], [], [], [])
  }

  function OnGet(w: World, offset: nat, body: Bytes, now: int): Req {
    if w.upload.None? then Refused
    else
      var u := w.upload.value;
      var finalizeRetry := offset < u.offset && u.offset >= u.size;
      if now > u.expires then Dropping(None)
      else if offset != u.offset && !finalizeRetry then Refused
      else if finalizeRetry then Matching(offset, body, u.size)
      else Appending(offset, body, u.size)
  }

  predicate IsTail(stored: Bytes, offset: nat, body: Bytes, size: nat) {
    offset <= size && |stored| == size - offset && Limited(body, size - offset + 1) == stored
  }

  /** The next statement of request i. */
  function StepCall(w: World, i: nat, now: int): World
    requires i < |w.calls|
  {
    match w.calls[i]
    case Patching(offset, body) => w.At(i, OnGet(w, offset, body, now))
    case Appending(offset, body, size) =>
      if offset > size || |Limited(body, size - offset + 1)| > size - offset then w.At(i, Refused)
      else if body == [] then w.At(i, if offset >= size then Finalizing(size) else Done)
      else w.At(i, Recording(offset, body, size)).(objects := w.objects[i := body])
    case Recording(offset, data, size) =>
      if w.upload.None? || w.upload.value.offset != offset || (exists r :: r in w.rows && r.offset == offset)
      then w.At(i, Unputting)
      else
        var row := Row(offset, |data|, i);
        w.At(i, if offset + |data| >= size then Finalizing(size) else Done).(
          upload := Some(w.upload.value.(offset := offset + |data|, expires := now + UPLOAD_TTL)),
          rows := w.rows + [row], log := w.log + [row], accepted := w.accepted + [data])
    case Unputting => w.At(i, Refused).(objects := w.objects - {i})
    case Matching(offset, body, size) => w.At(i, Comparing(offset, body, size, Ordered(w.rows)))
    case Comparing(offset, body, size, listed) =>
      var stored := Fetch(listed, w.objects, offset);
      w.At(i, if stored.Some? && IsTail(stored.value, offset, body, size) then Finalizing(size) else Refused)
    case Finalizing(size) => w.At(i, Assembling(size, Ordered(w.rows)))
    case Assembling(_, listed) =>
      var data := Fetch(listed, w.objects, 0);
      if data.None? then w.At(i, Refused)
      else w.At(i, Dropping(None)).(saved := w.saved + [data.value])
    case Dropping(guard) =>
      if w.upload.None? || (guard.Some? && w.upload.value.expires >= guard.value) then w.At(i, Done)
      else w.At(i, Erasing(set r | r in w.rows :: r.key)).(upload := None, rows := [])
    case Erasing(keys) => w.At(i, Done).(objects := w.objects - keys)
    case Done => w
    case Refused => w
  }

  /** Request i's next statement, or a check it makes, fails. */
  function FailCall(w: World, i: nat): World
    requires i < |w.calls|
  {
    match w.calls[i]
    case Recording(_, _, _) => w.At(i, Unputting)
    case Done => w
    case _ => w.At(i, Refused)
  }

  datatype Event =
    | Patch(offset: nat, body: Bytes)
    | Delete
    | Sweep(now: int)
    | Step(i: nat, now: int)
    | Fail(i: nat)

  function Next(w: World, e: Event): World {
    match e
    case Patch(offset, body) => w.(calls := w.calls + [Patching(offset, body)])
    case Delete => w.(calls := w.calls + [Dropping(None)])
    case Sweep(now) => w.(calls := w.calls + [Dropping(Some(now))])
    case Step(i, now) => if i < |w.calls| then StepCall(w, i, now) else w
    case Fail(i) => if i < |w.calls| then FailCall(w, i) else w
  }

  function After(w: World, es: seq<Event>): World
    decreases |es|
  {
    if es == [] then w else After(Next(w, es[0]), es[1..])
  }

  // ----- the invariant ------------------------------------------------------

  predicate Full(w: World) {
    |w.Content()| == w.size
  }

  ghost predicate TablesOk(w: World) {
    && Tiled(w.log, w.accepted, |w.Content()|)
    && |w.Content()| <= w.size
    && (w.upload.None? ==> w.rows == [])
    && (w.upload.Some? ==> w.rows == w.log && w.upload.value.size == w.size && w.upload.value.offset == |w.Content()|)
  }

  predicate KeyInUse(c: Req) {
    c.Patching? || c.Appending? || c.Recording? || c.Unputting?
  }

  /** The object of recorded chunk k: right if there, and there while the upload is. */
  ghost predicate ObjectOk(w: World, k: nat)
    requires k < |w.log| == |w.accepted|
  {
    var key := w.log[k].key;
    && key < |w.calls| && !KeyInUse(w.calls[key])
    && (key in w.objects ==> w.objects[key] == w.accepted[k])
    && (w.upload.Some? ==> key in w.objects)
  }

  ghost predicate ListedOk(w: World, listed: seq<Row>) {
    listed == [] || listed == w.log
  }

  ghost predicate ReqOk(w: World, i: nat)
    requires i < |w.calls|
  {
    match w.calls[i]
    case Appending(offset, _, size) => size == w.size && offset <= |w.Content()|
    case Recording(offset, data, size) =>
      && size == w.size && 0 < |data| && offset + |data| <= size
      && (w.upload.Some? ==> i in w.objects && w.objects[i] == data)
    case Matching(offset, _, size) => size == w.size && offset < size && Full(w)
    case Comparing(offset, _, size, listed) => size == w.size && offset < size && Full(w) && ListedOk(w, listed)
    case Finalizing(size) => size == w.size && Full(w)
    case Assembling(size, listed) => size == w.size && Full(w) && ListedOk(w, listed)
    case Erasing(_) => w.upload.None?
    case _ => true
  }

  ghost predicate SavedOk(w: World) {
    forall b :: b in w.saved ==> Full(w) && (b == [] || b == w.Content())
  }

  ghost predicate Inv(w: World) {
    && TablesOk(w)
    && (forall k :: 0 <= k < |w.log| ==> ObjectOk(w, k))
    && (forall i :: 0 <= i < |w.calls| ==> ReqOk(w, i))
    && SavedOk(w)
  }

  /** A request moves on, and at most saves a blob: the upload, its rows and its objects stay as they are. */
  predicate OnlyRequestMoves(w: World, w': World, i: nat) {
    && i < |w.calls| == |w'.calls|
    && w' == w.(calls := w.calls[i := w'.calls[i]], saved := w'.saved)
  }

  lemma MoveKeepsInv(w: World, w': World, i: nat)
    requires Inv(w) && OnlyRequestMoves(w, w', i)
    requires ReqOk(w', i) && SavedOk(w') && (KeyInUse(w'.calls[i]) ==> KeyInUse(w.calls[i]))
    ensures Inv(w')
  {
    forall k | 0 <= k < |w'.log| ensures ObjectOk(w', k) {
      assert ObjectOk(w, k);
    }
    forall j | 0 <= j < |w'.calls| ensures ReqOk(w', j) {
      assert ReqOk(w, j);
    }
  }

  lemma ArrivalKeepsInv(w: World, c: Req)
    requires Inv(w) && (c.Patching? || c.Dropping?)
    ensures Inv(w.(calls := w.calls + [c]))
  {
    var w' := w.(calls := w.calls + [c]);
    forall k | 0 <= k < |w'.log| ensures ObjectOk(w', k) {
      assert ObjectOk(w, k);
    }
    forall j | 0 <= j < |w'.calls| ensures ReqOk(w', j) {
      if j < |w.calls| {
        assert ReqOk(w, j);
      }
    }
  }

  /** Request i writes or removes the object of its own key, which no recorded chunk uses. */
  lemma OwnObjectKeepsInv(w: World, w': World, i: nat)
    requires Inv(w) && i < |w.calls| == |w'.calls| && (w.calls[i].Appending? || w.calls[i].Unputting?)
    requires w' == w.(calls := w.calls[i := w'.calls[i]], objects := w'.objects)
    requires forall k :: k != i ==>
               (k in w'.objects <==> k in w.objects) && (k in w.objects ==> w'.objects[k] == w.objects[k])
    requires ReqOk(w', i)
    ensures Inv(w')
  {
    forall k | 0 <= k < |w'.log| ensures ObjectOk(w', k) {
      assert ObjectOk(w, k);
    }
    forall j | 0 <= j < |w'.calls| ensures ReqOk(w', j) {
      assert ReqOk(w, j);
    }
  }

  /** The state after a chunk is recorded. */
  function Recorded(w: World, i: nat, now: int): World
    requires i < |w.calls| && w.calls[i].Recording? && w.upload.Some?
  {
    var c := w.calls[i];
    var row := Row(c.offset, |c.body|, i);
    w.At(i, if c.offset + |c.body| >= c.size then Finalizing(c.size) else Done).(
      upload := Some(w.upload.value.(offset := c.offset + |c.body|, expires := now + UPLOAD_TTL)),
      rows := w.rows + [row], log := w.log + [row], accepted := w.accepted + [c.body])
  }

  lemma RecordedTables(w: World, i: nat, now: int)
    requires TablesOk(w) && i < |w.calls| && w.calls[i].Recording? && ReqOk(w, i)
    requires w.upload.Some? && w.upload.value.offset == w.calls[i].offset
    ensures TablesOk(Recorded(w, i, now)) && Recorded(w, i, now).Content() == w.Content() + w.calls[i].body
    ensures !Full(w)
  {
    var c := w.calls[i];
    JoinedAppend(w.accepted, c.body);
    TiledAppend(w.log, w.accepted, c.offset, Row(c.offset, |c.body|, i), c.body);
  }

  lemma RecordedObject(w: World, i: nat, now: int, k: nat)
    requires i < |w.calls| && w.calls[i].Recording? && ReqOk(w, i) && w.upload.Some?
    requires k <= |w.log| == |w.accepted| && (k < |w.log| ==> ObjectOk(w, k))
    ensures ObjectOk(Recorded(w, i, now), k)
  {
  }

  lemma RecordedRequest(w: World, i: nat, now: int, j: nat)
    requires i < |w.calls| && w.calls[i].Recording? && ReqOk(w, i) && w.upload.Some?
    requires j < |w.calls| && ReqOk(w, j) && !Full(w) && |w.Content()| == w.calls[i].offset
    requires Recorded(w, i, now).Content() == w.Content() + w.calls[i].body
    ensures ReqOk(Recorded(w, i, now), j)
  {
  }

  lemma RecordedKeepsInv(w: World, i: nat, now: int)
    requires Inv(w) && i < |w.calls| && w.calls[i].Recording?
    requires w.upload.Some? && w.upload.value.offset == w.calls[i].offset
    ensures Inv(Recorded(w, i, now))
  {
    var w' := Recorded(w, i, now);
    assert ReqOk(w, i);
    RecordedTables(w, i, now);
    forall k | 0 <= k < |w'.log| ensures ObjectOk(w', k) {
      RecordedObject(w, i, now, k);
    }
    forall j | 0 <= j < |w'.calls| ensures ReqOk(w', j) {
      RecordedRequest(w, i, now, j);
    }
  }

  lemma RecordKeepsInv(w: World, i: nat, now: int)
    requires Inv(w) && i < |w.calls| && w.calls[i].Recording?
    ensures Inv(StepCall(w, i, now))
  {
    var w' := StepCall(w, i, now);
    if w'.calls[i].Unputting? {
      MoveKeepsInv(w, w', i);
    } else {
      assert w' == Recorded(w, i, now);
      RecordedKeepsInv(w, i, now);
    }
  }

  lemma DropKeepsInv(w: World, i: nat, now: int)
    requires Inv(w) && i < |w.calls| && w.calls[i].Dropping?
    ensures Inv(StepCall(w, i, now))
  {
    var w' := StepCall(w, i, now);
    if w'.calls[i].Done? {
      MoveKeepsInv(w, w', i);
    } else {
      forall k | 0 <= k < |w'.log| ensures ObjectOk(w', k) {
        assert ObjectOk(w, k);
      }
      forall j | 0 <= j < |w'.calls| ensures ReqOk(w', j) {
        assert ReqOk(w, j);
      }
    }
  }

  lemma EraseKeepsInv(w: World, i: nat, now: int)
    requires Inv(w) && i < |w.calls| && w.calls[i].Erasing?
    ensures Inv(StepCall(w, i, now))
  {
    var w' := StepCall(w, i, now);
    assert ReqOk(w, i);
    forall k | 0 <= k < |w'.log| ensures ObjectOk(w', k) {
      assert ObjectOk(w, k);
    }
    forall j | 0 <= j < |w'.calls| ensures ReqOk(w', j) {
      assert ReqOk(w, j);
    }
  }

  /** What a request read back, whenever it did, is the tail of the accepted bytes, or nothing at all. */
  lemma FetchedOk(w: World, listed: seq<Row>, from: nat)
    requires Inv(w) && ListedOk(w, listed)
    ensures var data := Fetch(listed, w.objects, from);
            data.Some? ==> if listed == [] then data.value == [] && from == 0
                           else from <= |w.Content()| && data.value == w.Content()[from..]
    ensures listed == w.log && w.upload.Some? ==> (Fetch(listed, w.objects, from).Some? <==> from <= |w.Content()|)
  {
    forall k | 0 <= k < |w.log| ensures w.log[k].key in w.objects ==> w.objects[w.log[k].key] == w.accepted[k] {
      assert ObjectOk(w, k);
    }
    if listed == w.log {
      FetchFacts(w.log, w.accepted, |w.Content()|, w.objects, from);
      if w.upload.Some? {
        forall k | 0 <= k < |w.log| ensures w.log[k].key in w.objects {
          assert ObjectOk(w, k);
        }
        assert Kept(w.objects, w.log, w.accepted);
      }
    }
  }

  predicate Reads(c: Req) {
    c.Patching? || c.Matching? || c.Comparing? || c.Finalizing? || c.Assembling?
  }

  lemma ReadKeepsInv(w: World, i: nat, now: int)
    requires Inv(w) && i < |w.calls| && Reads(w.calls[i])
    ensures OnlyRequestMoves(w, StepCall(w, i, now), i) && Inv(StepCall(w, i, now))
  {
    var w' := StepCall(w, i, now);
    assert OnlyRequestMoves(w, w', i);
    ReadGivesOk(w, i, now);
    MoveKeepsInv(w, w', i);
  }

  lemma ReadGivesOk(w: World, i: nat, now: int)
    requires Inv(w) && i < |w.calls| && Reads(w.calls[i])
    ensures ReqOk(StepCall(w, i, now), i) && SavedOk(StepCall(w, i, now)) && !StepCall(w, i, now).calls[i].Patching?
  {
    assert ReqOk(w, i);
    if w.calls[i].Assembling? {
      FetchedOk(w, w.calls[i].listed, 0);
    } else if w.calls[i].Matching? || w.calls[i].Finalizing? {
      TiledIsOrdered(w.log, w.accepted, |w.Content()|);
    }
  }

  lemma AppendKeepsInv(w: World, i: nat, now: int)
    requires Inv(w) && i < |w.calls| && w.calls[i].Appending?
    ensures Inv(StepCall(w, i, now))
  {
    var w' := StepCall(w, i, now);
    assert ReqOk(w, i);
    if w'.calls[i].Recording? {
      OwnObjectKeepsInv(w, w', i);
    } else {
      MoveKeepsInv(w, w', i);
    }
  }

  lemma StepKeepsInv(w: World, i: nat, now: int)
    requires Inv(w) && i < |w.calls|
    ensures Inv(StepCall(w, i, now))
  {
    match w.calls[i]
    case Appending(_, _, _) => AppendKeepsInv(w, i, now);
    case Recording(_, _, _) => RecordKeepsInv(w, i, now);
    case Unputting => OwnObjectKeepsInv(w, StepCall(w, i, now), i);
    case Dropping(_) => DropKeepsInv(w, i, now);
    case Erasing(_) => EraseKeepsInv(w, i, now);
    case Done =>
    case Refused =>
    case _ => ReadKeepsInv(w, i, now);
  }

  lemma FailKeepsInv(w: World, i: nat)
    requires Inv(w) && i < |w.calls|
    ensures Inv(FailCall(w, i))
  {
    assert ReqOk(w, i);
    if FailCall(w, i) != w {
      MoveKeepsInv(w, FailCall(w, i), i);
    }
  }

  lemma NextKeepsInv(w: World, e: Event)
    requires Inv(w)
    ensures Inv(Next(w, e))
  {
    match e
    case Patch(offset, body) => ArrivalKeepsInv(w, Patching(offset, body));
    case Delete => ArrivalKeepsInv(w, Dropping(None));
    case Sweep(now) => ArrivalKeepsInv(w, Dropping(Some(now)));
    case Step(i, now) =>
      if i < |w.calls| {
        StepKeepsInv(w, i, now);
      }
    case Fail(i) =>
      if i < |w.calls| {
        FailKeepsInv(w, i);
      }
  }

  lemma {:induction false} RunKeepsInv(w: World, es: seq<Event>)
    requires Inv(w)
    ensures Inv(After(w, es))
    decreases |es|
  {
    if es != [] {
      NextKeepsInv(w, es[0]);
      RunKeepsInv(Next(w, es[0]), es[1..]);
    }
  }

  // ----- what holds of every run --------------------------------------------

  /**
   * In every run the chunk rows of an upload tile [0, offset), the offset never
   * passes the size, and reading the upload back gives the accepted bodies, joined.
   */
  lemma ChunksTileTheUpload(size: nat, expires: int, es: seq<Event>)
    ensures var w := After(Created(size, expires), es);
            w.upload.Some? ==>
              && w.upload.value.offset == |w.Content()| <= size
              && NoGapNoOverlap(w.rows, w.accepted, w.upload.value.offset)
              && Fetch(Ordered(w.rows), w.objects, 0) == Some(w.Content())
  {
    var w := After(Created(size, expires), es);
    RunKeepsInv(Created(size, expires), es);
    SizeIsFixed(Created(size, expires), es);
    if w.upload.Some? {
      TiledIsOrdered(w.log, w.accepted, |w.Content()|);
      FetchedOk(w, w.log, 0);
      TiledIsNoGapNoOverlap(w.log, w.accepted, |w.Content()|);
    }
  }

  lemma {:induction false} SizeIsFixed(w: World, es: seq<Event>)
    ensures After(w, es).size == w.size
    decreases |es|
  {
    if es != [] {
      SizeIsFixed(Next(w, es[0]), es[1..]);
    }
  }

  /** A deleted upload never comes back, and the offset and the accepted bytes of one that stays only grow. */
  ghost predicate Grown(w: World, w': World) {
    && w.Content() <= w'.Content()
    && (w'.upload.Some? ==> w.upload.Some? && w.upload.value.offset <= w'.upload.value.offset <= w.size)
  }

  lemma OnlyRecordingAppends(w: World, e: Event)
    requires !(e.Step? && e.i < |w.calls| && w.calls[e.i].Recording?)
    ensures Next(w, e).accepted == w.accepted && Next(w, e).size == w.size
    ensures Next(w, e).upload.Some? ==> Next(w, e).upload == w.upload
  {
  }

  lemma NextGrows(w: World, e: Event)
    requires Inv(w)
    ensures Grown(w, Next(w, e))
  {
    if e.Step? && e.i < |w.calls| && w.calls[e.i].Recording? {
      assert ReqOk(w, e.i);
      JoinedAppend(w.accepted, w.calls[e.i].body);
    } else {
      OnlyRecordingAppends(w, e);
    }
  }

  /** The offset never decreases and never passes the size, and no accepted byte ever changes. */
  lemma {:induction false} OffsetOnlyGrows(w: World, es: seq<Event>)
    requires Inv(w)
    ensures Grown(w, After(w, es))
    decreases |es|
  {
    if es != [] {
      NextKeepsInv(w, es[0]);
      NextGrows(w, es[0]);
      SizeIsFixed(w, [es[0]]);
      OffsetOnlyGrows(Next(w, es[0]), es[1..]);
    }
  }

  /**
   * A retried last chunk that is taken, whatever ran in between, is exactly the
   * accepted bytes from its offset to the end, and taking it writes nothing.
   */
  lemma TakenRetryIsTheTail(w: World, i: nat, now: int)
    requires Inv(w) && i < |w.calls| && w.calls[i].Comparing?
    ensures OnlyRequestMoves(w, StepCall(w, i, now), i) && StepCall(w, i, now).saved == w.saved
    ensures StepCall(w, i, now).calls[i].Finalizing? ==>
              w.calls[i].offset < |w.Content()| == w.size && w.calls[i].body == w.Content()[w.calls[i].offset..]
  {
    ReadKeepsInv(w, i, now);
    assert ReqOk(w, i);
    FetchedOk(w, w.calls[i].listed, w.calls[i].offset);
  }

  /** While the upload exists, a retry is taken if and only if it is the tail. */
  lemma RetryIsTakenExactlyWhenItIsTheTail(w: World, i: nat, now: int)
    requires Inv(w) && i < |w.calls| && w.calls[i].Matching? && w.upload.Some?
    ensures w.calls[i].offset < |w.Content()| == w.size
    ensures StepCall(StepCall(w, i, now), i, now).calls[i] ==
              if w.calls[i].body == w.Content()[w.calls[i].offset..] then Finalizing(w.size) else Refused
  {
    var w1 := StepCall(w, i, now);
    assert ReqOk(w, i);
    ReadKeepsInv(w, i, now);
    TiledIsOrdered(w.log, w.accepted, |w.Content()|);
    FetchedOk(w1, w1.log, w.calls[i].offset);
  }

  /** Every blob a run saves is the accepted bodies joined, of the declared size, or it is empty. */
  lemma SavedIsWholeOrEmpty(size: nat, expires: int, es: seq<Event>)
    ensures var w := After(Created(size, expires), es);
            forall b :: b in w.saved ==> |w.Content()| == size && (b == w.Content() || b == [])
  {
    RunKeepsInv(Created(size, expires), es);
    SizeIsFixed(Created(size, expires), es);
  }

  /**
   * The bytes finalized have the declared size if and only if the upload still
   * exists when its chunks are listed, or its size is zero. This holds whatever
   * the other requests do between the listing and the reading; a request whose
   * objects have gone by then saves nothing.
   */
  lemma FinalizesTheWholeUploadExactlyWhileItExists(w: World, i: nat, now: int, es: seq<Event>, later: int)
    requires Inv(w) && i < |w.calls| && w.calls[i].Finalizing?
    requires var w1 := StepCall(w, i, now); i < |After(w1, es).calls| && After(w1, es).calls[i] == w1.calls[i]
    ensures var w2 := After(StepCall(w, i, now), es); var w3 := StepCall(w2, i, later);
            if w3.calls[i].Refused? then w3.saved == w2.saved && w.upload.Some? && w2.upload.None?
            else
              && |w3.saved| == |w2.saved| + 1 && w3.saved[..|w2.saved|] == w2.saved
              && (|w3.saved[|w2.saved|]| == w.size <==> w.upload.Some? || w.size == 0)
              && (w.upload.Some? ==> w3.saved[|w2.saved|] == w.Content())
  {
    var w1 := StepCall(w, i, now);
    var w2 := After(w1, es);
    assert ReqOk(w, i);
    ReadKeepsInv(w, i, now);
    TiledIsOrdered(w.log, w.accepted, |w.Content()|);
    RunKeepsInv(w1, es);
    SizeIsFixed(w1, es);
    OffsetOnlyGrows(w1, es);
    assert ReqOk(w2, i);
    var listed := w1.calls[i].listed;
    assert listed == w.rows;
    FetchedOk(w2, listed, 0);
    FullIsFinal(w1, es);
  }

  /** Once every byte has been accepted, the content and the record of chunks are final. */
  lemma FullIsFinal(w: World, es: seq<Event>)
    requires Inv(w) && Full(w)
    ensures After(w, es).Content() == w.Content()
  {
    RunKeepsInv(w, es);
    OffsetOnlyGrows(w, es);
    SizeIsFixed(w, es);
    var w' := After(w, es);
    assert |w'.Content()| <= w'.size;
  }

  /** The whole upload arrives, then a DELETE lands before the chunks are listed. */
  function DeletedWhileFinalizing(body: Bytes, now: int): seq<Event> {
    [Patch(0, body), Step(0, now), Step(0, now), Step(0, now), Delete, Step(1, now), Step(0, now), Step(0, now)]
  }

  /** For any body at all, the PATCH that completed the upload then saves an empty blob. */
  lemma DeleteDuringFinalizeSavesNothing(body: Bytes, now: int)
    requires body != []
    ensures After(Created(|body|, now), DeletedWhileFinalizing(body, now)).saved == [[]]
  {
    var es, n := DeletedWhileFinalizing(body, now), |body|;
    var w0 := Created(n, now);
    var row := Row(0, n, 0);
    var upload := Upload(n, n, now + UPLOAD_TTL);
    var full := World(n, Some(upload), [row], map[0 := body], [Finalizing(n)], [row], [body], []);
    var dropped := full.(upload := None, rows := [], calls := [Finalizing(n), Erasing({0})]);
    FirstSteps(body, now);
    assert After(w0, es[..4]) == full;
    var w5 := full.(calls := [Finalizing(n), Dropping(None)]);
    assert Next(full, es[4]) == w5;
    assert (set r | r in [row] :: r.key) == {0};
    assert Next(w5, es[5]) == dropped;
    var w7 := dropped.(calls := [Assembling(n, []), Erasing({0})]);
    assert Next(dropped, es[6]) == w7;
    var w8 := w7.(calls := [Dropping(None), Erasing({0})], saved := [[]]);
    assert Next(w7, es[7]) == w8;
    assert es[..4] + es[4..] == es;
    AfterConcat(w0, es[..4], es[4..]);
    LastSteps(full, w5, dropped, w7, w8, es[4..]);
  }

  lemma LastSteps(a: World, b: World, c: World, d: World, e: World, es: seq<Event>)
    requires |es| == 4 && Next(a, es[0]) == b && Next(b, es[1]) == c && Next(c, es[2]) == d && Next(d, es[3]) == e
    ensures After(a, es) == e
  {
    assert After(d, es[3..]) == e;
    assert After(c, es[2..]) == e;
    assert After(b, es[1..]) == e;
  }

  lemma FirstSteps(body: Bytes, now: int)
    requires body != []
    ensures var n, row := |body|, Row(0, |body|, 0);
            After(Created(n, now), DeletedWhileFinalizing(body, now)[..4])
            == World(n, Some(Upload(n, n, now + UPLOAD_TTL)), [row], map[0 := body], [Finalizing(n)], [row], [body], [])
  {
    var n, es := |body|, DeletedWhileFinalizing(body, now)[..4];
    var w0 := Created(n, now);
    var w1 := w0.(calls := [Patching(0, body)]);
    var w2 := w0.(calls := [Appending(0, body, n)]);
    var w3 := w0.(calls := [Recording(0, body, n)], objects := map[0 := body]);
    assert Next(w0, es[0]) == w1;
    assert Next(w1, es[1]) == w2;
    assert Next(w2, es[2]) == w3;
    LastSteps(w0, w1, w2, w3, Next(w3, es[3]), es);
  }

  lemma {:induction false} AfterConcat(w: World, es: seq<Event>, fs: seq<Event>)
    ensures After(w, es + fs) == After(After(w, es), fs)
    decreases |es|
  {
    if es == [] {
      assert es + fs == fs;
    } else {
      assert (es + fs)[1..] == es[1..] + fs;
      AfterConcat(Next(w, es[0]), es[1..], fs);
    }
  }

  // ----- requests that are not disturbed ------------------------------------

  function Steps(i: nat, now: int, n: nat): seq<Event> {
    if n == 0 then [] else [Step(i, now)] + Steps(i, now, n - 1)
  }

  function Stepped(w: World, i: nat, now: int, n: nat): World
    decreases n
  {
    if n == 0 then w else Stepped(Next(w, Step(i, now)), i, now, n - 1)
  }

  lemma AfterFirst(w: World, e: Event, es: seq<Event>)
    ensures After(w, [e] + es) == After(Next(w, e), es)
  {
    assert ([e] + es)[1..] == es;
  }

  lemma {:induction false} AfterSteps(w: World, i: nat, now: int, n: nat)
    ensures After(w, Steps(i, now, n)) == Stepped(w, i, now, n)
    decreases n
  {
    if n > 0 {
      AfterFirst(w, Step(i, now), Steps(i, now, n - 1));
      AfterSteps(Next(w, Step(i, now)), i, now, n - 1);
    }
  }

  /** A request and nothing else: it has seven statements at most. */
  function Undisturbed(w: World, arrival: Event, now: int): seq<Event> {
    [arrival] + Steps(|w.calls|, now, 7)
  }

  lemma UndisturbedIsStepped(w: World, arrival: Event, now: int)
    ensures After(w, Undisturbed(w, arrival, now)) ==
            Stepped(Next(Next(w, arrival), Step(|w.calls|, now)), |w.calls|, now, 6)
  {
    AfterFirst(w, arrival, Steps(|w.calls|, now, 7));
    AfterSteps(Next(w, arrival), |w.calls|, now, 7);
  }

  lemma {:induction false} Idle(w: World, i: nat, now: int, n: nat)
    requires i < |w.calls| && (w.calls[i].Done? || w.calls[i].Refused?)
    ensures Stepped(w, i, now, n) == w
    decreases n
  {
    if n > 0 {
      Idle(w, i, now, n - 1);
    }
  }

  /** The upload is gone with its rows and its objects, and request i is done. */
  ghost predicate Erased(w: World, w': World, i: nat)
    requires i < |w.calls|
  {
    && w' == w.(upload := None, rows := [], objects := w'.objects, calls := w.calls[i := Done])
    && forall k :: k in w'.objects <==> k in w.objects && forall r :: r in w.rows ==> r.key != k
  }

  lemma TwoSteps(w: World, i: nat, now: int, n: nat)
    requires n >= 2
    ensures Stepped(w, i, now, n) == Stepped(Next(Next(w, Step(i, now)), Step(i, now)), i, now, n - 2)
  {
    assert Stepped(w, i, now, n) == Stepped(Next(w, Step(i, now)), i, now, n - 1);
  }

  lemma DropAlone(w: World, i: nat, now: int, n: nat)
    requires i < |w.calls| && w.calls[i] == Dropping(None) && w.upload.Some? && n >= 2
    ensures Erased(w, Stepped(w, i, now, n), i)
  {
    var w1 := Next(w, Step(i, now));
    var w2 := Next(w1, Step(i, now));
    assert Stepped(w1, i, now, n - 1) == Stepped(w2, i, now, n - 2);
    Idle(w2, i, now, n - 2);
  }

  lemma ReadAllAlone(w: World, i: nat, now: int)
    requires Inv(w) && i < |w.calls| && w.calls[i].Finalizing? && w.upload.Some?
    ensures StepCall(StepCall(w, i, now), i, now) ==
            w.(calls := w.calls[i := Dropping(None)], saved := w.saved + [w.Content()])
  {
    var w1 := StepCall(w, i, now);
    TiledIsOrdered(w.log, w.accepted, |w.Content()|);
    StepKeepsInv(w, i, now);
    FetchedOk(w1, w1.log, 0);
  }

  /** A request that finalizes saves what was accepted and deletes the upload. */
  lemma FinalizeAlone(w: World, i: nat, now: int, n: nat)
    requires Inv(w) && i < |w.calls| && w.calls[i].Finalizing? && w.upload.Some? && n >= 4
    ensures Erased(w.(saved := w.saved + [w.Content()]), Stepped(w, i, now, n), i)
  {
    var w2 := w.(calls := w.calls[i := Dropping(None)], saved := w.saved + [w.Content()]);
    ReadAllAlone(w, i, now);
    TwoSteps(w, i, now, n);
    assert w2.calls[i := Done] == w.calls[i := Done];
    DropAlone(w2, i, now, n - 2);
  }

  lemma RetryAlone(w: World, i: nat, now: int)
    requires Inv(w) && i < |w.calls| && w.calls[i].Matching? && w.upload.Some?
    ensures w.calls[i].offset < |w.Content()| == w.size
    ensures var w' := Stepped(w, i, now, 6);
            if w.calls[i].body == w.Content()[w.calls[i].offset..]
            then Erased(w.(saved := w.saved + [w.Content()]), w', i)
            else w' == w.(calls := w.calls[i := Refused])
  {
    RetryIsTakenExactlyWhenItIsTheTail(w, i, now);
    var w1 := Next(w, Step(i, now));
    var w2 := Next(w1, Step(i, now));
    StepKeepsInv(w, i, now);
    StepKeepsInv(w1, i, now);
    assert Stepped(w1, i, now, 5) == Stepped(w2, i, now, 4);
    if w2.calls[i].Refused? {
      Idle(w2, i, now, 4);
    } else {
      FinalizeAlone(w2, i, now, 4);
    }
  }

  /** The chunk is recorded where it belongs: no other row has its offset. */
  lemma RecordAlone(w: World, i: nat, now: int)
    requires Inv(w) && i < |w.calls| && w.calls[i].Recording?
    requires w.upload.Some? && w.upload.value.offset == w.calls[i].offset
    ensures StepCall(w, i, now) == Recorded(w, i, now)
  {
    var offset := w.calls[i].offset;
    forall r | r in w.rows ensures r.offset != offset {
      var k :| 0 <= k < |w.rows| && w.rows[k] == r;
      TiledMeet(w.log, w.accepted, |w.Content()|, k);
    }
  }

  /** What an append that meets nothing else leaves: the body accepted at `now`, and the request in `c`. */
  ghost predicate Appended(w: World, w': World, i: nat, body: Bytes, now: int)
    requires i < |w.calls| && w.upload.Some?
  {
    && w'.calls == w.calls[i := Done] && w'.saved == w.saved && w'.size == w.size
    && w'.Content() == w.Content() + body
    && w'.upload == Some(Upload(w.size, |w.Content()| + |body|,
                                if body == [] then w.upload.value.expires else now + 86_400))
  }

  /** The body fills the upload: everything is saved, and the upload is gone. */
  ghost predicate Filled(w: World, w': World, i: nat, body: Bytes)
    requires i < |w.calls|
  {
    && w'.calls == w.calls[i := Done] && w'.upload.None? && w'.size == w.size
    && w'.saved == w.saved + [w.Content() + body] && w'.Content() == w.Content() + body
  }

  lemma AppendAlone(w: World, i: nat, now: int)
    requires Inv(w) && i < |w.calls| && w.calls[i].Appending? && w.upload.Some?
    requires w.calls[i].offset == w.upload.value.offset
    ensures var w', room := Stepped(w, i, now, 6), w.size - |w.Content()|;
            var body := w.calls[i].body;
            if |body| > room then w' == w.(calls := w.calls[i := Refused])
            else if |body| < room then Appended(w, w', i, body, now)
            else Filled(w, w', i, body)
  {
    assert ReqOk(w, i);
    var body, room := w.calls[i].body, w.size - |w.Content()|;
    var w1 := Next(w, Step(i, now));
    if body != [] && |body| <= room {
      AppendBytesAlone(w, i, now);
    } else if body == [] && room == 0 {
      StepKeepsInv(w, i, now);
      FinalizeAlone(w1, i, now, 5);
      assert w.Content() + body == w.Content();
    } else {
      Idle(w1, i, now, 5);
      assert body == [] ==> w.Content() + body == w.Content();
    }
  }

  lemma AppendBytesAlone(w: World, i: nat, now: int)
    requires Inv(w) && i < |w.calls| && w.calls[i].Appending? && w.upload.Some?
    requires w.calls[i].offset == w.upload.value.offset
    requires 0 < |w.calls[i].body| <= w.size - |w.Content()|
    ensures var w', body := Stepped(w, i, now, 6), w.calls[i].body;
            if |body| < w.size - |w.Content()| then Appended(w, w', i, body, now) else Filled(w, w', i, body)
  {
    assert ReqOk(w, i);
    var body := w.calls[i].body;
    var w1 := w.(calls := w.calls[i := Recording(|w.Content()|, body, w.size)], objects := w.objects[i := body]);
    assert Next(w, Step(i, now)) == w1;
    StepKeepsInv(w, i, now);
    RecordAlone(w1, i, now);
    RecordedTables(w1, i, now);
    RecordedKeepsInv(w1, i, now);
    var w2 := Recorded(w1, i, now);
    assert Stepped(w1, i, now, 5) == Stepped(w2, i, now, 4);
    if |body| < w.size - |w.Content()| {
      Idle(w2, i, now, 4);
    } else {
      FinalizeAlone(w2, i, now, 4);
    }
  }

  /** How the handler answers a PATCH, on the world before and after it. */
  predicate HandlerAnswers(w: World, w': World, offset: nat, body: Bytes, now: int) {
    var content := w.Content();
    if w.upload.None? then w' == w.(calls := w.calls + [Refused])
    else
      var u := w.upload.value;
      if now > u.expires then
        w'.calls == w.calls + [Done] && w'.upload.None? && w'.saved == w.saved && w'.Content() == content
      else if offset == u.offset && |body| < u.size - offset then
        && w'.calls == w.calls + [Done] && w'.saved == w.saved && w'.Content() == content + body
        && w'.upload == Some(Upload(u.size, offset + |body|, if body == [] then u.expires else now + 86_400))
      else if offset == u.offset && |body| == u.size - offset then
        w'.calls == w.calls + [Done] && w'.upload.None? && w'.saved == w.saved + [content + body]
      else if offset < u.offset == u.size && |content| == u.size && body == content[offset..] then
        w'.calls == w.calls + [Done] && w'.upload.None? && w'.saved == w.saved + [content]
      else w' == w.(calls := w.calls + [Refused])
  }

  ghost predicate Looked(w: World, w1: World, req: Req) {
    && w1 == w.(calls := w.calls + [req])
    && w1.calls[|w.calls| := Done] == w.calls + [Done] && w1.calls[|w.calls| := Refused] == w.calls + [Refused]
  }

  /** What an append comes to is the handler's answer. */
  lemma AppendMeets(w: World, w1: World, w': World, i: nat, offset: nat, body: Bytes, now: int)
    requires TablesOk(w) && w.upload.Some? && offset == w.upload.value.offset && now <= w.upload.value.expires
    requires i == |w.calls| && Looked(w, w1, Appending(offset, body, w.size))
    requires if |body| > w.size - offset then w' == w1.(calls := w1.calls[i := Refused])
             else if |body| < w.size - offset then Appended(w1, w', i, body, now)
             else Filled(w1, w', i, body)
    ensures HandlerAnswers(w, w', offset, body, now)
  {
    assert w1.Content() == w.Content();
  }

  lemma AppendAnswers(w: World, w1: World, offset: nat, body: Bytes, now: int)
    requires Inv(w) && Inv(w1)
    requires OnGet(w, offset, body, now).Appending? && Looked(w, w1, OnGet(w, offset, body, now))
    ensures HandlerAnswers(w, Stepped(w1, |w.calls|, now, 6), offset, body, now)
  {
    AppendAlone(w1, |w.calls|, now);
    AppendMeets(w, w1, Stepped(w1, |w.calls|, now, 6), |w.calls|, offset, body, now);
  }

  lemma RetryAnswers(w: World, w1: World, offset: nat, body: Bytes, now: int)
    requires Inv(w1) && OnGet(w, offset, body, now).Matching? && Looked(w, w1, OnGet(w, offset, body, now))
    ensures HandlerAnswers(w, Stepped(w1, |w.calls|, now, 6), offset, body, now)
  {
    RetryAlone(w1, |w.calls|, now);
  }

  lemma ExpiredAnswers(w: World, w1: World, offset: nat, body: Bytes, now: int)
    requires Inv(w1) && OnGet(w, offset, body, now).Dropping? && Looked(w, w1, OnGet(w, offset, body, now))
    ensures HandlerAnswers(w, Stepped(w1, |w.calls|, now, 6), offset, body, now)
  {
    DropAlone(w1, |w.calls|, now, 6);
  }

  lemma RefusalAnswers(w: World, w1: World, offset: nat, body: Bytes, now: int)
    requires Inv(w1) && OnGet(w, offset, body, now).Refused? && Looked(w, w1, OnGet(w, offset, body, now))
    ensures HandlerAnswers(w, Stepped(w1, |w.calls|, now, 6), offset, body, now)
  {
    Idle(w1, |w.calls|, now, 6);
  }

  /** The request after it has looked at the upload. */
  lemma PatchLooks(w: World, offset: nat, body: Bytes, now: int) returns (w': World)
    requires Inv(w)
    ensures Looked(w, w', OnGet(w, offset, body, now)) && Inv(w')
    ensures After(w, Undisturbed(w, Patch(offset, body), now)) == Stepped(w', |w.calls|, now, 6)
  {
    var w1 := Next(w, Patch(offset, body));
    w' := Next(w1, Step(|w.calls|, now));
    UndisturbedIsStepped(w, Patch(offset, body), now);
    NextKeepsInv(w, Patch(offset, body));
    StepKeepsInv(w1, |w.calls|, now);
  }

  /**
   * A PATCH that meets nothing else answers like the handler: it appends the next
   * bytes, saves and deletes the upload they fill, takes a retry of the stored
   * tail, deletes an expired upload, and otherwise changes nothing.
   */
  lemma UndisturbedPatch(w: World, offset: nat, body: Bytes, now: int)
    requires Inv(w)
    ensures HandlerAnswers(w, After(w, Undisturbed(w, Patch(offset, body), now)), offset, body, now)
  {
    var w1 := PatchLooks(w, offset, body, now);
    match OnGet(w, offset, body, now)
    case Refused => RefusalAnswers(w, w1, offset, body, now);
    case Dropping(_) => ExpiredAnswers(w, w1, offset, body, now);
    case Matching(_, _, _) => RetryAnswers(w, w1, offset, body, now);
    case Appending(_, _, _) => AppendAnswers(w, w1, offset, body, now);
  }

  /** An undisturbed DELETE removes the upload; a sweep does exactly once it has expired. */
  lemma UndisturbedRemoval(w: World, sweep: bool, now: int)
    ensures var w' := After(w, Undisturbed(w, if sweep then Sweep(now) else Delete, now));
            && w'.calls == w.calls + [Done] && w'.saved == w.saved && w'.Content() == w.Content()
            && if w.upload.Some? && (sweep ==> w.upload.value.expires < now) then
                 && w'.upload.None? && w'.rows == []
                 && forall k :: k in w'.objects <==> k in w.objects && forall r :: r in w.rows ==> r.key != k
               else w' == w.(calls := w.calls + [Done])
  {
    var arrival, i, guard := if sweep then Sweep(now) else Delete, |w.calls|, if sweep then Some(now) else None;
    var w1 := w.(calls := w.calls + [Dropping(guard)]);
    UndisturbedIsStepped(w, arrival, now);
    assert Next(w, arrival) == w1;
    assert forall c, d :: (w.calls + [c])[i := d] == w.calls + [d];
    RemovalAlone(w1, i, now, guard);
  }

  lemma RemovalAlone(w: World, i: nat, now: int, guard: Option<int>)
    requires i < |w.calls| && w.calls[i] == Dropping(guard)
    ensures var w' := Stepped(Next(w, Step(i, now)), i, now, 6);
            if w.upload.Some? && (guard.Some? ==> w.upload.value.expires < guard.value) then Erased(w, w', i)
            else w' == w.(calls := w.calls[i := Done])
  {
    var w1 := Next(w, Step(i, now));
    var w2 := Next(w1, Step(i, now));
    assert Stepped(w1, i, now, 6) == Stepped(w2, i, now, 5);
    Idle(w2, i, now, 5);
  }

  /** A PATCH that cannot record its chunk takes its object away again, and changes nothing else. */
  lemma FailedRecordLeavesNothing(w: World, i: nat, now: int)
    requires i < |w.calls| && w.calls[i].Recording?
    ensures Next(Next(w, Fail(i)), Step(i, now)) == w.(calls := w.calls[i := Refused], objects := w.objects - {i})
    ensures w.upload.None? || w.upload.value.offset != w.calls[i].offset ==>
              Next(Next(w, Step(i, now)), Step(i, now)) == Next(Next(w, Fail(i)), Step(i, now))
  {
  }
}
