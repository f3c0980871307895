/**
 * One resumable (tus) upload: its row, the rows of its chunks, and the objects
 * that hold the chunks' bytes. The row and the chunk rows change together, in
 * one transaction; objects are written before and removed after.
 */
module TusStore {
  import opened Common

  /** How long an upload may go without a chunk, in seconds. */
  const UPLOAD_TTL := 24 * 60 * 60

  datatype Upload = Upload(size: nat, offset: nat, expires: int)

  datatype Row = Row(offset: nat, size: nat, key: nat)

  /**
   * `Broken` stands for every failure to read the chunks back. `CheckFailed` and
   * `Rejected` are checks that stop a request: the first leaves the upload for a
   * retry, the second deletes it.
   */
  datatype Error = NotFound | Conflict | TooLarge | Gone | Broken | CheckFailed | Rejected

  // ----- tiling -------------------------------------------------------------

  function Joined(bodies: seq<Bytes>): Bytes {
    if bodies == [] then [] else Joined(bodies[..|bodies| - 1]) + bodies[|bodies| - 1]
  }

  lemma JoinedAppend(bodies: seq<Bytes>, b: Bytes)
    ensures Joined(bodies + [b]) == Joined(bodies) + b
  {
    assert (bodies + [b])[..|bodies|] == bodies;
  }

  /** The rows cover [0, end) in order, one non-empty chunk after the other, with these contents. */
  ghost predicate Tiled(rows: seq<Row>, bodies: seq<Bytes>, end: nat)
    decreases |rows|
  {
    && |rows| == |bodies|
    && if rows == [] then end == 0
       else
         var n := |rows| - 1;
         && rows[n].size == |bodies[n]| > 0
         && rows[n].offset + rows[n].size == end
         && Tiled(rows[..n], bodies[..n], rows[n].offset)
  }

  lemma {:induction false} TiledLength(rows: seq<Row>, bodies: seq<Bytes>, end: nat)
    requires Tiled(rows, bodies, end)
    ensures |Joined(bodies)| == end
    decreases |rows|
  {
    if rows != [] {
      var n := |rows| - 1;
      TiledLength(rows[..n], bodies[..n], rows[n].offset);
    }
  }

  lemma TiledAppend(rows: seq<Row>, bodies: seq<Bytes>, end: nat, r: Row, b: Bytes)
    requires Tiled(rows, bodies, end) && r.offset == end && r.size == |b| > 0
    ensures Tiled(rows + [r], bodies + [b], end + |b|)
  {
    assert (rows + [r])[..|rows|] == rows && (bodies + [b])[..|rows|] == bodies;
  }

  /** Neighbouring rows meet, the first starts at 0, the last ends at the end: no gap and no overlap. */
  lemma {:induction false} TiledMeet(rows: seq<Row>, bodies: seq<Bytes>, end: nat, i: nat)
    requires Tiled(rows, bodies, end) && i < |rows|
    ensures rows[i].offset == if i == 0 then 0 else rows[i - 1].offset + rows[i - 1].size
    ensures rows[i].offset + rows[i].size <= end
    ensures i == |rows| - 1 ==> rows[i].offset + rows[i].size == end
    ensures rows[i].size == |bodies[i]| > 0
    decreases |rows|
  {
    var n := |rows| - 1;
    if i < n {
      TiledMeet(rows[..n], bodies[..n], rows[n].offset, i);
    } else if n > 0 {
      assert rows[..n][n - 1] == rows[n - 1];
    }
  }

  ghost predicate NoGapNoOverlap(rows: seq<Row>, bodies: seq<Bytes>, end: nat) {
    && |rows| == |bodies|
    && (forall i :: 0 <= i < |rows| ==>
          && rows[i].offset == (if i == 0 then 0 else rows[i - 1].offset + rows[i - 1].size)
          && rows[i].size == |bodies[i]| > 0)
    && end == if rows == [] then 0 else rows[|rows| - 1].offset + rows[|rows| - 1].size
  }

  lemma TiledIsNoGapNoOverlap(rows: seq<Row>, bodies: seq<Bytes>, end: nat)
    requires Tiled(rows, bodies, end)
    ensures NoGapNoOverlap(rows, bodies, end)
  {
    forall i | 0 <= i < |rows|
      ensures rows[i].offset == (if i == 0 then 0 else rows[i - 1].offset + rows[i - 1].size)
      ensures rows[i].size == |bodies[i]| > 0
    {
      TiledMeet(rows, bodies, end, i);
    }
  }

  // ----- ORDER BY chunk_offset ----------------------------------------------

  function Insert(rows: seq<Row>, r: Row): seq<Row> {
    if rows == [] then [r]
    else if r.offset < rows[|rows| - 1].offset then Insert(rows[..|rows| - 1], r) + [rows[|rows| - 1]]
    else rows + [r]
  }

  /** The rows of the table, given in insertion order, as the query returns them. */
  function Ordered(rows: seq<Row>): seq<Row> {
    if rows == [] then [] else Insert(Ordered(rows[..|rows| - 1]), rows[|rows| - 1])
  }

  lemma {:induction false} TiledIsOrdered(rows: seq<Row>, bodies: seq<Bytes>, end: nat)
    requires Tiled(rows, bodies, end)
    ensures Ordered(rows) == rows
    decreases |rows|
  {
    if rows != [] {
      var n := |rows| - 1;
      TiledIsOrdered(rows[..n], bodies[..n], rows[n].offset);
      if n > 0 {
        TiledMeet(rows, bodies, end, n);
        assert rows[..n][n - 1] == rows[n - 1];
      }
    }
  }

  // ----- reading back -------------------------------------------------------

  ghost predicate Kept(objects: map<nat, Bytes>, rows: seq<Row>, bodies: seq<Bytes>)
    requires |rows| == |bodies|
  {
    forall i :: 0 <= i < |rows| ==> rows[i].key in objects && objects[rows[i].key] == bodies[i]
  }

  /** What is left of a chunk at pos once the bytes before `from` are skipped. */
  function Tail(data: Bytes, pos: nat, from: nat): Bytes {
    if from <= pos then data else if from - pos < |data| then data[from - pos..] else []
  }

  /** One round of the loop: pos and the bytes so far, or None for a gap or a chunk that cannot be read. */
  function ReadRow(acc: (nat, Bytes), r: Row, objects: map<nat, Bytes>, from: nat): Option<(nat, Bytes)> {
    var pos := acc.0 + r.size;
    if r.offset != acc.0 then None
    else if pos <= from then Some((pos, acc.1))
    else if r.key !in objects || |objects[r.key]| != r.size then None
    else Some((pos, acc.1 + Tail(objects[r.key], r.offset, from)))
  }

  function ReadRows(rows: seq<Row>, objects: map<nat, Bytes>, from: nat): Option<(nat, Bytes)> {
    if rows == [] then Some((0, []))
    else
      var acc := ReadRows(rows[..|rows| - 1], objects, from);
      if acc.None? then None else ReadRow(acc.value, rows[|rows| - 1], objects, from)
  }

  /** What ReadFrom makes of the listed rows: the bytes from `from` on, or None for an error. */
  function Fetch(rows: seq<Row>, objects: map<nat, Bytes>, from: nat): Option<Bytes> {
    var acc := ReadRows(rows, objects, from);
    if acc.None? || from > acc.value.0 then None else Some(acc.value.1)
  }

  lemma TailAppend(a: Bytes, b: Bytes, from: nat)
    ensures Tail(a + b, 0, from) == Tail(a, 0, from) + Tail(b, |a|, from)
    ensures |a| + |b| <= from ==> Tail(b, |a|, from) == []
  {
  }

  /** Whatever is read of a tiled upload is right, and everything is read if every object is there. */
  lemma {:induction false} ReadRowsFacts(
    rows: seq<Row>, bodies: seq<Bytes>, end: nat, objects: map<nat, Bytes>, from: nat)
    requires Tiled(rows, bodies, end)
    requires forall i :: 0 <= i < |rows| && rows[i].key in objects ==> objects[rows[i].key] == bodies[i]
    ensures ReadRows(rows, objects, from).Some? ==>
              ReadRows(rows, objects, from).value == (end, Tail(Joined(bodies), 0, from))
    ensures Kept(objects, rows, bodies) ==> ReadRows(rows, objects, from).Some?
    decreases |rows|
  {
    TiledLength(rows, bodies, end);
    if rows != [] {
      var n := |rows| - 1;
      ReadRowsFacts(rows[..n], bodies[..n], rows[n].offset, objects, from);
      TiledLength(rows[..n], bodies[..n], rows[n].offset);
      TailAppend(Joined(bodies[..n]), bodies[n], from);
      if Kept(objects, rows, bodies) {
        assert Kept(objects, rows[..n], bodies[..n]);
      }
    }
  }

  /** ReadFrom gives exactly the accepted bytes from the offset on, and an error past the end. */
  lemma FetchFacts(rows: seq<Row>, bodies: seq<Bytes>, end: nat, objects: map<nat, Bytes>, from: nat)
    requires Tiled(rows, bodies, end)
    requires forall i :: 0 <= i < |rows| && rows[i].key in objects ==> objects[rows[i].key] == bodies[i]
    ensures |Joined(bodies)| == end
    ensures Fetch(rows, objects, from).Some? ==>
              from <= end && Fetch(rows, objects, from).value == Joined(bodies)[from..]
    ensures Kept(objects, rows, bodies) ==> (Fetch(rows, objects, from).Some? <==> from <= end)
  {
    ReadRowsFacts(rows, bodies, end, objects, from);
    TiledLength(rows, bodies, end);
  }

  // ----- the store ----------------------------------------------------------

  class TusStore {
    var upload: Option<Upload>
    var rows: seq<Row>
    var objects: map<nat, Bytes>
    ghost var bodies: seq<Bytes>

    ghost predicate Valid()
      reads this
    {
      && (upload.None? ==> rows == [] && bodies == [])
      && (upload.Some? ==> Tiled(rows, bodies, upload.value.offset) && Kept(objects, rows, bodies))
    }

    ghost function Content(): Bytes
      reads this
    {
      Joined(bodies)
    }

    constructor Create(size: nat, now: int)
      ensures Valid() && Content() == []
      ensures upload == Some(Upload(size, 0, now + 86_400))
    {
      upload := Some(Upload(size, 0, now + UPLOAD_TTL));
      rows, objects := [], map[];
      bodies := [];
    }

    /**
     * Appends if the offset is still the upload's, and otherwise leaves nothing
     * behind. The key's random suffix is taken to make it new.
     */
    method AppendChunk(offset: nat, data: Bytes, key: nat, now: int) returns (r: Result<nat, Error>)
      requires Valid() && key !in objects
      modifies this
      ensures Valid()
      ensures r.Ok? <==> data == [] || (old(upload).Some? && old(upload).value.offset == offset)
      ensures r.Ok? ==> r.value == offset + |data|
      ensures r.Ok? && data != [] ==>
                && upload == Some(old(upload).value.(offset := offset + |data|, expires := now + 86_400))
                && Content() == old(Content()) + data
      ensures r.Err? ==> r.error == Conflict
      ensures r.Err? || data == [] ==> unchanged(this)
    {
      if data == [] {
        return Ok(offset);
      }
      ghost var before := objects;
      objects := objects[key := data];
      if upload.None? || upload.value.offset != offset {
        objects := objects - {key};
        assert objects == before;
        return Err(Conflict);
      }
      TiledAppend(rows, bodies, offset, Row(offset, |data|, key), data);
      JoinedAppend(bodies, data);
      upload := Some(upload.value.(offset := offset + |data|, expires := now + UPLOAD_TTL));
      rows := rows + [Row(offset, |data|, key)];
      bodies := bodies + [data];
      return Ok(offset + |data|);
    }

    method ReadChunk(chunk: Row) returns (r: Result<Bytes, Error>)
      ensures r == if chunk.key in objects && |objects[chunk.key]| == chunk.size
                   then Ok(objects[chunk.key]) else Err(Broken)
    {
      if chunk.key !in objects {
        return Err(Broken);
      }
      if |objects[chunk.key]| != chunk.size {
        return Err(Broken);
      }
      return Ok(objects[chunk.key]);
    }

    /** Reads as Fetch does: the accepted bytes from an offset on; a deleted upload reads as an empty one. */
    method ReadFrom(from: nat) returns (r: Result<Bytes, Error>)
      ensures r == match Fetch(Ordered(rows), objects, from) case None => Err(Broken) case Some(b) => Ok(b)
      ensures Valid() ==> r == if from <= |Content()| then Ok(Content()[from..]) else Err(Broken)
    {
      if Valid() {
        FetchContent(from);
      }
      var chunks := Ordered(rows);
      var pos, buf := 0, [];
      for i := 0 to |chunks|
        invariant ReadRows(chunks[..i], objects, from) == Some((pos, buf))
      {
        ReadRowsStep(chunks, objects, from, i);
        var chunk := chunks[i];
        if chunk.offset != pos {
          return Err(Broken);
        }
        pos := pos + chunk.size;
        if pos <= from {
          continue;
        }
        var read := ReadChunk(chunk);
        if read.Err? {
          return Err(Broken);
        }
        var data := read.value;
        if from > chunk.offset {
          data := data[from - chunk.offset..];
        }
        buf := buf + data;
      }
      assert chunks[..|chunks|] == chunks;
      if from > pos {
        return Err(Broken);
      }
      return Ok(buf);
    }

    lemma FetchContent(from: nat)
      requires Valid()
      ensures Fetch(Ordered(rows), objects, from) == if from <= |Content()| then Some(Content()[from..]) else None
    {
      var end := if upload.Some? then upload.value.offset else 0;
      assert Tiled(rows, bodies, end) && Kept(objects, rows, bodies);
      TiledIsOrdered(rows, bodies, end);
      FetchFacts(rows, bodies, end, objects, from);
    }

    method Delete() returns (r: Result<(), Error>)
      requires Valid()
      modifies this
      ensures Valid()
      ensures r == if old(upload).Some? then Ok(()) else Err(NotFound)
      ensures upload.None? && Content() == []
      ensures forall k ::
                k in objects <==> k in old(objects) && forall i :: 0 <= i < |old(rows)| ==> old(rows)[i].key != k
      ensures forall k :: k in objects ==> objects[k] == old(objects)[k]
    {
      if upload.None? {
        return Err(NotFound);
      }
      var keys := set r | r in rows :: r.key;
      upload, rows := None, [];
      bodies := [];
      objects := objects - keys;
      return Ok(());
    }

    /** The sweep's delete: an upload whose expiry a chunk has moved forward stays. */
    method DeleteIfExpired(now: int) returns (removed: bool)
      requires Valid()
      modifies this
      ensures Valid()
      ensures removed <==> old(upload).Some? && old(upload).value.expires < now
      ensures removed ==> upload.None? && Content() == []
      ensures !removed ==> unchanged(this)
    {
      if upload.None? || upload.value.expires >= now {
        return false;
      }
      var _ := Delete();
      return true;
    }
  }

  /** The loop's next round, and that a round that fails makes the whole read fail. */
  lemma ReadRowsStep(rows: seq<Row>, objects: map<nat, Bytes>, from: nat, i: nat)
    requires i < |rows| && ReadRows(rows[..i], objects, from).Some?
    ensures ReadRows(rows[..i + 1], objects, from) ==
              ReadRow(ReadRows(rows[..i], objects, from).value, rows[i], objects, from)
    ensures ReadRows(rows[..i + 1], objects, from).None? ==> ReadRows(rows, objects, from).None?
  {
    assert rows[..i + 1][..i] == rows[..i];
    if ReadRows(rows, objects, from).Some? {
      ReadRowsPrefix(rows, objects, from, i + 1);
    }
  }

  lemma {:induction false} ReadRowsPrefix(rows: seq<Row>, objects: map<nat, Bytes>, from: nat, n: nat)
    requires n <= |rows| && ReadRows(rows, objects, from).Some?
    ensures ReadRows(rows[..n], objects, from).Some?
    decreases |rows|
  {
    if n == |rows| {
      assert rows[..n] == rows;
    } else {
      var init := rows[..|rows| - 1];
      assert init[..n] == rows[..n];
      ReadRowsPrefix(init, objects, from, n);
    }
  }
}
