/**
 * A chunked upload session: chunks arrive in any order and are assembled when
 * all are recorded. A SHA-256 digest is taken to determine its content.
 */
module Chunks {
  import opened Common

  datatype Digest = Digest(content: Bytes)

  function Sha256(b: Bytes): Digest { Digest(b) }

  // ----- arithmetic of chunks -----------------------------------------------

  datatype Config = Config(defaultSize: int, minSize: int, maxSize: int)

  function Distance(a: int, b: int): nat {
    if a < b then b - a else a - b
  }

  /** The size in the configured bounds nearest to the one requested, or to the default when none is (0). */
  function ChunkSizeFor(requested: int, cfg: Config): (size: int)
    ensures var wanted := if requested == 0 then cfg.defaultSize else requested;
            if cfg.minSize <= cfg.maxSize then
              && cfg.minSize <= size <= cfg.maxSize
              && forall s :: cfg.minSize <= s <= cfg.maxSize ==> Distance(wanted, size) <= Distance(wanted, s)
            else size == cfg.maxSize
  {
    var wanted := if requested == 0 then cfg.defaultSize else requested;
    var atLeast := if wanted < cfg.minSize then cfg.minSize else wanted;
    if atLeast > cfg.maxSize then cfg.maxSize else atLeast
  }

  function TotalChunks(total: nat, size: nat): nat
    requires size > 0
  {
    (total + size - 1) / size
  }

  /** The ceiling: just enough chunks, the last one not empty. */
  lemma TotalChunksIsCeiling(total: nat, size: nat)
    requires size > 0 && total > 0
    ensures var n := TotalChunks(total, size);
            n > 0 && (n - 1) * size < total <= n * size
  {
    var n := TotalChunks(total, size);
    var r := (total + size - 1) % size;
    assert total + size - 1 == n * size + r;
    assert n > 0;
    assert (n - 1) * size == n * size - size;
  }

  /** A chunk number is in range if and only if the chunk starts before the end of the upload. */
  lemma InRangeBySize(total: nat, size: nat, num: int)
    requires size > 0 && total > 0
    ensures num < TotalChunks(total, size) <==> num * size < total
  {
    var n := TotalChunks(total, size);
    TotalChunksIsCeiling(total, size);
    if num < n {
      TimesKeepsOrder(num, n - 1, size);
    } else {
      TimesKeepsOrder(n, num, size);
    }
  }

  lemma TimesKeepsOrder(a: int, b: int, size: nat)
    requires a <= b
    ensures a * size <= b * size
  {
    assert (b - a) * size >= 0;
  }

  // ----- rows ---------------------------------------------------------------

  datatype Status = Active | Complete | Expired | Aborted

  datatype Session = Session(
    total: nat, chunkSize: nat, received: nat, status: Status, expires: int, hash: Option<Digest>)
  {
    function Count(): nat
      requires chunkSize > 0
    {
      TotalChunks(total, chunkSize)
    }
  }

  datatype Row = Row(num: nat, size: nat, offset: nat, digest: Digest)

  function RowFor(s: Session, num: nat, data: Bytes): Row {
    Row(num, |data|, num * s.chunkSize, Sha256(data))
  }

  /** What UploadChunk accepts: full chunks, and a last one no longer than a chunk. */
  predicate SizeAccepted(chunkSize: nat, count: nat, num: nat, len: nat) {
    if num + 1 == count then len <= chunkSize else len == chunkSize
  }

  ghost predicate RowOk(chunkSize: nat, count: nat, r: Row) {
    && r.num < count
    && r.offset == r.num * chunkSize
    && r.size == |r.digest.content|
    && SizeAccepted(chunkSize, count, r.num, r.size)
  }

  ghost predicate RowsOk(chunkSize: nat, count: nat, rows: map<nat, Row>) {
    forall n :: n in rows ==> rows[n].num == n && RowOk(chunkSize, count, rows[n])
  }

  // ----- ORDER BY chunk_num and the pigeonhole ------------------------------

  ghost predicate Ascending(rs: seq<Row>) {
    forall i, j :: 0 <= i < j < |rs| ==> rs[i].num < rs[j].num
  }

  function InsertRow(rs: seq<Row>, r: Row): seq<Row> {
    if rs == [] then [r] else if r.num < rs[0].num then [r] + rs else [rs[0]] + InsertRow(rs[1..], r)
  }

  lemma RestAscends(rs: seq<Row>)
    requires rs != [] && Ascending(rs)
    ensures Ascending(rs[1..]) && forall x :: x in rs[1..] ==> rs[0].num < x.num
  {
    forall x | x in rs[1..] ensures rs[0].num < x.num {
      var k :| 0 <= k < |rs| - 1 && rs[1..][k] == x;
      assert rs[k + 1] == x;
    }
  }

  lemma {:induction false} InsertRowFacts(rs: seq<Row>, r: Row)
    requires Ascending(rs) && forall x :: x in rs ==> x.num != r.num
    ensures Ascending(InsertRow(rs, r)) && |InsertRow(rs, r)| == |rs| + 1
    ensures forall x :: x in InsertRow(rs, r) <==> x == r || x in rs
  {
    if rs != [] {
      assert rs[0] in rs;
      RestAscends(rs);
      assert forall x :: x in rs <==> x == rs[0] || x in rs[1..];
      if rs[0].num < r.num {
        InsertRowFacts(rs[1..], r);
        assert forall x :: x in InsertRow(rs[1..], r) ==> rs[0].num < x.num;
      }
    }
  }

  lemma {:induction false} NumAtLeastIndex(rs: seq<Row>, i: nat)
    requires Ascending(rs) && i < |rs|
    ensures i <= rs[i].num
  {
    if i > 0 {
      NumAtLeastIndex(rs, i - 1);
      assert rs[i - 1].num < rs[i].num;
    }
  }

  lemma {:induction false} NumAtMostFromEnd(rs: seq<Row>, i: nat, n: nat)
    requires Ascending(rs) && i < |rs| && forall r :: r in rs ==> r.num < n
    ensures rs[i].num + (|rs| - i) <= n
    decreases |rs| - i
  {
    assert rs[i] in rs;
    if i + 1 < |rs| {
      NumAtMostFromEnd(rs, i + 1, n);
      assert rs[i].num < rs[i + 1].num;
    }
  }

  /** n rows with distinct numbers below n, in order, are exactly chunks 0 to n - 1. */
  lemma Pigeonhole(rs: seq<Row>, n: nat)
    requires Ascending(rs) && |rs| == n && forall r :: r in rs ==> r.num < n
    ensures forall i :: 0 <= i < n ==> rs[i].num == i
  {
    forall i | 0 <= i < n ensures rs[i].num == i {
      NumAtLeastIndex(rs, i);
      NumAtMostFromEnd(rs, i, n);
    }
  }

  // ----- assembled bytes ----------------------------------------------------

  /** The recorded contents of chunks 0 to n - 1, in order. */
  function Assembled(rows: map<nat, Row>, n: nat): Bytes
    requires forall i :: 0 <= i < n ==> i in rows
  {
    if n == 0 then [] else Assembled(rows, n - 1) + rows[n - 1].digest.content
  }

  /** A prefix of full chunks. */
  lemma {:induction false} PrefixLength(size: nat, count: nat, rows: map<nat, Row>, n: nat)
    requires n < count && RowsOk(size, count, rows)
    requires forall i :: 0 <= i < n ==> i in rows
    ensures |Assembled(rows, n)| == n * size
  {
    if n > 0 {
      PrefixLength(size, count, rows, n - 1);
      assert RowOk(size, count, rows[n - 1]);
      assert n * size == (n - 1) * size + size;
    }
  }

  /** Every chunk starts at its recorded offset. */
  lemma {:induction false} ChunkStartsAtOffset(size: nat, count: nat, rows: map<nat, Row>, n: nat, i: nat)
    requires i < n <= count && RowsOk(size, count, rows)
    requires forall k :: 0 <= k < n ==> k in rows
    ensures rows[i].offset + rows[i].size <= |Assembled(rows, n)|
    ensures Assembled(rows, n)[rows[i].offset..rows[i].offset + rows[i].size] == rows[i].digest.content
  {
    var before, last := Assembled(rows, n - 1), rows[n - 1];
    if i == n - 1 {
      PrefixLength(size, count, rows, n - 1);
      assert RowOk(size, count, last);
      assert |before| == last.offset;
    } else {
      ChunkStartsAtOffset(size, count, rows, n - 1, i);
      var from, to := rows[i].offset, rows[i].offset + rows[i].size;
      assert (before + last.digest.content)[from..to] == before[from..to];
    }
  }

  /**
   * The length of a complete upload: between n - 1 and n chunks, and the
   * declared total exactly when the last chunk has the size it should.
   */
  lemma AssembledLength(total: nat, size: nat, rows: map<nat, Row>)
    requires size > 0 && total > 0 && RowsOk(size, TotalChunks(total, size), rows)
    requires forall i :: 0 <= i < TotalChunks(total, size) ==> i in rows
    ensures var n := TotalChunks(total, size); var len := |Assembled(rows, n)|;
            && n > 0
            && (n - 1) * size <= len <= n * size
            && (len == total <==> rows[n - 1].size == total - (n - 1) * size)
  {
    TotalChunksIsCeiling(total, size);
    LastChunkLength(size, TotalChunks(total, size), rows);
  }

  lemma LastChunkLength(size: nat, count: nat, rows: map<nat, Row>)
    requires count > 0 && RowsOk(size, count, rows)
    requires forall i :: 0 <= i < count ==> i in rows
    ensures |Assembled(rows, count)| == (count - 1) * size + rows[count - 1].size
    ensures (count - 1) * size <= |Assembled(rows, count)| <= count * size
  {
    PrefixLength(size, count, rows, count - 1);
    assert RowOk(size, count, rows[count - 1]);
    assert count * size == (count - 1) * size + size;
  }

  datatype Arrival = Arrival(num: nat, data: Bytes)

  /** The table after accepted chunks arrived in this order. */
  function RowsAfter(s: Session, as_: seq<Arrival>): map<nat, Row> {
    if as_ == [] then map[]
    else RowsAfter(s, as_[..|as_| - 1])[as_[|as_| - 1].num := RowFor(s, as_[|as_| - 1].num, as_[|as_| - 1].data)]
  }

  ghost predicate DistinctNums(as_: seq<Arrival>) {
    forall i, j :: 0 <= i < j < |as_| ==> as_[i].num != as_[j].num
  }

  lemma {:induction false} RowsAfterIsUnordered(s: Session, as_: seq<Arrival>)
    requires DistinctNums(as_)
    ensures forall a :: a in as_ ==> a.num in RowsAfter(s, as_) && RowsAfter(s, as_)[a.num] == RowFor(s, a.num, a.data)
    ensures forall n :: n in RowsAfter(s, as_) ==> exists a :: a in as_ && a.num == n
    decreases |as_|
  {
    if as_ != [] {
      var init, last := as_[..|as_| - 1], as_[|as_| - 1];
      RowsAfterIsUnordered(s, init);
      assert as_ == init + [last];
      forall a | a in init ensures a.num != last.num {
        var i :| 0 <= i < |init| && init[i] == a;
        assert as_[i].num != last.num;
      }
      forall n | n in RowsAfter(s, as_) ensures exists a :: a in as_ && a.num == n {
        if n != last.num {
          var a :| a in init && a.num == n;
          assert a in as_;
        }
      }
    }
  }

  lemma NewNum(s: Session, as_: seq<Arrival>, a: Arrival)
    requires DistinctNums(as_) && a.num !in RowsAfter(s, as_)
    ensures DistinctNums(as_ + [a])
  {
    RowsAfterIsUnordered(s, as_);
  }

  lemma RowsAfterOneMore(s: Session, as_: seq<Arrival>, a: Arrival)
    ensures RowsAfter(s, as_ + [a]) == RowsAfter(s, as_)[a.num := RowFor(s, a.num, a.data)]
  {
    assert (as_ + [a])[..|as_|] == as_;
  }

  /** The same chunks in any arrival order leave the same table, so the same bytes. */
  lemma ArrivalOrderIsIrrelevant(s: Session, as_: seq<Arrival>, bs: seq<Arrival>)
    requires DistinctNums(as_) && DistinctNums(bs) && forall a :: a in as_ <==> a in bs
    ensures RowsAfter(s, as_) == RowsAfter(s, bs)
  {
    RowsAfterIsUnordered(s, as_);
    RowsAfterIsUnordered(s, bs);
    var r, q := RowsAfter(s, as_), RowsAfter(s, bs);
    forall n ensures n in r <==> n in q {
      if n in r {
        var a :| a in as_ && a.num == n;
        assert a in bs;
      }
      if n in q {
        var a :| a in bs && a.num == n;
        assert a in as_;
      }
    }
    forall n | n in r ensures r[n] == q[n] {
      var a :| a in as_ && a.num == n;
      assert a in bs;
    }
  }

  // ----- a file split into chunks -------------------------------------------

  /** Chunk `num` of `whole`. */
  function Slice(whole: Bytes, size: nat, num: nat): Bytes
    requires num * size <= |whole|
  {
    whole[num * size..Min(num * size + size, |whole|)]
  }

  /** Every arrival is the chunk of `whole` that its number says. */
  ghost predicate IsSplit(whole: Bytes, size: nat, arrivals: seq<Arrival>) {
    forall a :: a in arrivals ==> a.num * size < |whole| && a.data == Slice(whole, size, a.num)
  }

  lemma SliceSize(whole: Bytes, size: nat, a: Arrival)
    requires size > 0 && a.num * size < |whole| && a.data == Slice(whole, size, a.num)
    ensures if a.num * size + size < |whole| then |a.data| == size else |a.data| <= size
  {
  }

  lemma NextIsNew(s: Session, as_: seq<Arrival>, k: nat)
    requires DistinctNums(as_) && k < |as_|
    ensures as_[k].num !in RowsAfter(s, as_[..k])
  {
    RowsAfterIsUnordered(s, as_[..k]);
    forall a | a in as_[..k] ensures a.num != as_[k].num {
      var i :| 0 <= i < k && as_[i] == a;
    }
  }

  ghost predicate OfOneFile(s: Session, whole: Bytes, arrivals: seq<Arrival>) {
    |whole| == s.total && DistinctNums(arrivals) && IsSplit(whole, s.chunkSize, arrivals)
  }

  lemma NextOfOneFile(s: Session, whole: Bytes, arrivals: seq<Arrival>, k: nat)
    requires s.chunkSize > 0 && k < |arrivals|
    ensures OfOneFile(s, whole, arrivals) ==>
              var a := arrivals[k];
              && a.num * s.chunkSize < s.total && a.num !in RowsAfter(s, arrivals[..k])
              && if a.num * s.chunkSize + s.chunkSize < s.total then |a.data| == s.chunkSize
                 else |a.data| <= s.chunkSize
  {
    if OfOneFile(s, whole, arrivals) {
      assert arrivals[k] in arrivals;
      NextIsNew(s, arrivals, k);
      SliceSize(whole, s.chunkSize, arrivals[k]);
    }
  }

  lemma {:induction false} RowPerArrival(s: Session, as_: seq<Arrival>)
    requires DistinctNums(as_)
    ensures |RowsAfter(s, as_)| == |as_|
    decreases |as_|
  {
    if as_ != [] {
      var init, last := as_[..|as_| - 1], as_[|as_| - 1];
      RowPerArrival(s, init);
      RowsAfterIsUnordered(s, init);
      assert as_ == init + [last];
      NextIsNew(s, as_, |init|);
    }
  }

  lemma {:induction false} Numbers(n: nat, keys: set<nat>)
    requires |keys| == n && forall k :: k in keys ==> k < n
    ensures forall k :: 0 <= k < n ==> k in keys
    decreases n
  {
    if n > 0 {
      if n - 1 in keys {
        Numbers(n - 1, keys - {n - 1});
        forall k | 0 <= k < n ensures k in keys {
          assert k == n - 1 || k in keys - {n - 1};
        }
      } else {
        NoMoreThan(n - 1, keys);
      }
    }
  }

  lemma {:induction false} NoMoreThan(n: nat, keys: set<nat>)
    requires forall k :: k in keys ==> k < n
    ensures |keys| <= n
    decreases n
  {
    if n == 0 {
      assert keys == {};
    } else {
      NoMoreThan(n - 1, keys - {n - 1});
    }
  }

  /** As many arrivals as chunks, none twice, are all the chunks. */
  lemma AllArrived(s: Session, whole: Bytes, arrivals: seq<Arrival>)
    requires s.chunkSize > 0 && s.total > 0
    requires OfOneFile(s, whole, arrivals) && |arrivals| == s.Count()
    ensures var rows := RowsAfter(s, arrivals);
            && |rows| == s.Count()
            && forall n :: 0 <= n < s.Count() ==> n in rows && RecordsSlice(whole, s.chunkSize, rows, n)
  {
    var rows := RowsAfter(s, arrivals);
    RowsAfterIsUnordered(s, arrivals);
    RowPerArrival(s, arrivals);
    forall n | n in rows.Keys ensures n < s.Count() {
      var a :| a in arrivals && a.num == n;
      InRangeBySize(s.total, s.chunkSize, n);
    }
    Numbers(s.Count(), rows.Keys);
    forall n | 0 <= n < s.Count()
      ensures n in rows && RecordsSlice(whole, s.chunkSize, rows, n)
    {
      assert n in rows.Keys;
      var a :| a in arrivals && a.num == n;
    }
  }

  /** Row `n` records chunk `n` of `whole`. */
  ghost predicate RecordsSlice(whole: Bytes, size: nat, rows: map<nat, Row>, n: nat) {
    n in rows && n * size < |whole| && rows[n].digest == Sha256(Slice(whole, size, n))
  }

  lemma NextSlice(whole: Bytes, from: nat, size: nat)
    requires from < |whole|
    ensures whole[..Min(from, |whole|)] + whole[from..Min(from + size, |whole|)] == whole[..Min(from + size, |whole|)]
  {
  }

  /** The chunks of a file, put together in order, are the file up to where the last of them ends. */
  lemma {:induction false} SlicesJoin(whole: Bytes, size: nat, rows: map<nat, Row>, n: nat)
    requires forall i :: 0 <= i < n ==> i in rows && RecordsSlice(whole, size, rows, i)
    ensures Assembled(rows, n) == whole[..Min(n * size, |whole|)]
  {
    if n > 0 {
      SlicesJoin(whole, size, rows, n - 1);
      assert RecordsSlice(whole, size, rows, n - 1);
      assert n * size == (n - 1) * size + size;
      NextSlice(whole, (n - 1) * size, size);
    }
  }

  // ----- the service --------------------------------------------------------

  datatype Error =
    | SessionComplete | SessionExpired | SessionAborted
    | ChunkOutOfRange | ChunkAlreadyUploaded | ChunkSizeMismatch
    | UploadIncomplete | ChunkMissing | ChunkHashMismatch | HashMismatch | OverTier | NotSaved

  function StatusError(st: Status): Error
    requires st != Active
  {
    match st case Complete => SessionComplete case Expired => SessionExpired case Aborted => SessionAborted
  }

  /** The size check as the code makes it: exact, with some tolerance for the last chunk. */
  predicate SizeAllowed(s: Session, num: nat, len: nat)
    requires s.chunkSize > 0 && s.total > 0 && num < s.Count()
    ensures SizeAllowed(s, num, len) == SizeAccepted(s.chunkSize, s.Count(), num, len)
  {
    TotalChunksIsCeiling(s.total, s.chunkSize);
    var isLast := num == s.Count() - 1;
    var expected := if isLast then s.total - num * s.chunkSize else s.chunkSize;
    len == expected || (isLast && len <= s.chunkSize)
  }

  /** A session that started as `s`, with nothing recorded, has received exactly these chunks, each once. */
  ghost predicate Received(
    s: Session, arrivals: seq<Arrival>, session: Session, rows: map<nat, Row>, files: map<nat, Bytes>)
  {
    && DistinctNums(arrivals) && rows == RowsAfter(s, arrivals)
    && session == s.(received := s.received + |arrivals|)
    && files.Keys == rows.Keys && forall n :: n in rows ==> Sha256(files[n]) == rows[n].digest
  }

  lemma OneMoreReceived(
    s: Session, arrivals: seq<Arrival>, session: Session, rows: map<nat, Row>, files: map<nat, Bytes>, a: Arrival)
    requires Received(s, arrivals, session, rows, files) && a.num !in rows
    ensures Received(s, arrivals + [a], session.(received := session.received + 1),
                     rows[a.num := RowFor(session, a.num, a.data)], files[a.num := a.data])
  {
    NewNum(s, arrivals, a);
    RowsAfterOneMore(s, arrivals, a);
  }

  class ChunkedUpload {
    var session: Session
    var rows: map<nat, Row>
    var files: map<nat, Bytes>

    ghost predicate Valid()
      reads this
    {
      session.chunkSize > 0 && session.total > 0 && RowsOk(session.chunkSize, session.Count(), rows)
    }

    /** CreateSession refuses an empty upload; the chunk count it announces is the ceiling. */
    constructor (total: nat, requested: int, cfg: Config, expires: int, hash: Option<Digest>)
      requires total > 0 && 0 < cfg.minSize && 0 < cfg.maxSize
      ensures Valid() && rows == map[] && files == map[]
      ensures session == Session(total, ChunkSizeFor(requested, cfg), 0, Active, expires, hash)
    {
      session := Session(total, ChunkSizeFor(requested, cfg), 0, Active, expires, hash);
      rows := map[];
      files := map[];
    }

    method UploadChunk(now: int, num: int, data: Bytes) returns (r: Result<Row, Error>)
      requires Valid()
      modifies this
      ensures Valid()
      ensures var s := old(session);
              r.Ok? <==> && s.status == Active && now <= s.expires
                         && 0 <= num && num * s.chunkSize < s.total && num !in old(rows)
                         && if num * s.chunkSize + s.chunkSize < s.total then |data| == s.chunkSize
                            else |data| <= s.chunkSize
      ensures r.Ok? ==>
                && r.value == RowFor(session, num, data)
                && rows == old(rows)[num := r.value] && files == old(files)[num := data]
                && session == old(session).(received := old(session).received + 1)
      ensures r.Err? ==> rows == old(rows) && files == old(files)
      ensures r.Err? ==>
                if old(session).status == Complete then r.error == SessionComplete
                else if old(session).status == Aborted then r.error == SessionAborted
                else if old(session).status == Expired || now > old(session).expires then r.error == SessionExpired
                else if num < 0 || num * session.chunkSize >= session.total then r.error == ChunkOutOfRange
                else if num in old(rows) then r.error == ChunkAlreadyUploaded
                else r.error == ChunkSizeMismatch
      ensures r.Err? ==>
                var late := old(session).status == Active && now > old(session).expires;
                session == old(session).(status := if late then Expired else old(session).status)
    {
      InRangeBySize(session.total, session.chunkSize, num);
      InRangeBySize(session.total, session.chunkSize, num + 1);
      assert (num + 1) * session.chunkSize == num * session.chunkSize + session.chunkSize;
      if session.status != Active {
        return Err(StatusError(session.status));
      }
      if now > session.expires {
        session := session.(status := Expired);
        return Err(SessionExpired);
      }
      var total := session.Count();
      if num < 0 || num >= total {
        return Err(ChunkOutOfRange);
      }
      if num in rows {
        return Err(ChunkAlreadyUploaded);
      }
      if !SizeAllowed(session, num, |data|) {
        return Err(ChunkSizeMismatch);
      }
      files := files[num := data];
      var row := RowFor(session, num, data);
      rows := rows[num := row];
      session := session.(received := session.received + 1);
      return Ok(row);
    }

    /**
     * Chunks uploaded one after the other: as long as each is accepted, the table
     * and the files hold exactly these chunks, each once. A live session accepts
     * the chunks of any file `whole` of the announced size, in any order.
     */
    method UploadEach(now: int, arrivals: seq<Arrival>, ghost whole: Bytes) returns (accepted: bool)
      requires Valid() && rows == map[] && files == map[]
      modifies this
      ensures Valid()
      ensures accepted ==> Uploaded(old(session), arrivals)
      ensures old(session).status == Active && now <= old(session).expires && OfOneFile(old(session), whole, arrivals)
              ==> accepted
    {
      for k := 0 to |arrivals|
        invariant Valid() && Uploaded(old(session), arrivals[..k])
      {
        var stored := UploadNext(now, arrivals, k, old(session), whole);
        if !stored {
          return false;
        }
      }
      assert arrivals[..|arrivals|] == arrivals;
      return true;
    }

    /** One round of it. */
    method UploadNext(now: int, arrivals: seq<Arrival>, k: nat, ghost s: Session, ghost whole: Bytes)
      returns (stored: bool)
      requires Valid() && k < |arrivals| && Uploaded(s, arrivals[..k])
      modifies this
      ensures Valid()
      ensures stored ==> Uploaded(s, arrivals[..k + 1])
      ensures s.status == Active && now <= s.expires && OfOneFile(s, whole, arrivals) ==> stored
    {
      NextOfOneFile(s, whole, arrivals, k);
      if arrivals[k].num !in rows {
        OneMoreReceived(s, arrivals[..k], session, rows, files, arrivals[k]);
      }
      var r := UploadChunk(now, arrivals[k].num, arrivals[k].data);
      assert arrivals[..k + 1] == arrivals[..k] + [arrivals[k]];
      return r.Ok?;
    }

    /**
     * A file split into chunks that are uploaded in any order is put together again: everything CompleteUpload
     * asks for is there, and the recorded chunks in order are the file.
     */
    lemma SplitIsReassembled(s: Session, whole: Bytes, arrivals: seq<Arrival>, expected: Option<Digest>)
      requires Valid() && Uploaded(s, arrivals) && s.received == 0
      requires OfOneFile(s, whole, arrivals) && |arrivals| == s.Count()
      ensures FilesMatch(s.Count()) && Assembled(rows, s.Count()) == whole
      ensures Completable(expected) <==>
                && s.status == Active
                && (expected.Some? ==> expected == Some(Sha256(whole)))
                && (expected.None? && s.hash.Some? ==> s.hash == Some(Sha256(whole)))
    {
      AllArrived(s, whole, arrivals);
      SlicesJoin(whole, s.chunkSize, rows, s.Count());
      TotalChunksIsCeiling(s.total, s.chunkSize);
    }

    ghost predicate Uploaded(s: Session, arrivals: seq<Arrival>)
      reads this
    {
      Received(s, arrivals, session, rows, files)
    }

    /** GetUploadChunks: every row, ordered by chunk number. */
    method GetUploadChunks() returns (chunks: seq<Row>)
      requires Valid()
      ensures Ascending(chunks) && |chunks| == |rows|
      ensures forall x :: x in chunks <==> x.num in rows && rows[x.num] == x
    {
      chunks := [];
      var todo := rows.Keys;
      while todo != {}
        invariant todo <= rows.Keys && Ascending(chunks)
        invariant |chunks| + |todo| == |rows|
        invariant forall x :: x in chunks <==> x.num in rows && x.num !in todo && rows[x.num] == x
        decreases todo
      {
        var n :| n in todo;
        InsertRowFacts(chunks, rows[n]);
        chunks := InsertRow(chunks, rows[n]);
        todo := todo - {n};
      }
    }

    /** The ordered rows if there are as many as chunks; then row i is chunk i. */
    method CountedChunks(total: nat) returns (r: Option<seq<Row>>)
      requires Valid() && total == session.Count()
      ensures r.Some? <==> |rows| == total
      ensures r.Some? ==> |r.value| == total && forall i :: 0 <= i < total ==> i in rows && r.value[i] == rows[i]
    {
      var chunks := GetUploadChunks();
      if |chunks| != total {
        return None;
      }
      Pigeonhole(chunks, total);
      forall i | 0 <= i < total ensures i in rows && chunks[i] == rows[i] {
        assert chunks[i] in chunks && chunks[i].num == i;
      }
      return Some(chunks);
    }

    /** Each chunk's file is read and checked against the digest recorded for it. */
    method Assemble(chunks: seq<Row>, total: nat) returns (r: Result<Bytes, Error>)
      requires |chunks| == total && forall i :: 0 <= i < total ==> i in rows && chunks[i] == rows[i]
      ensures r.Ok? <==> FilesMatch(total)
      ensures r.Ok? ==> r.value == Assembled(rows, total)
      ensures r.Err? ==> Breaks(total, r.error)
    {
      var assembled := [];
      for i := 0 to total
        invariant FilesMatch(i) && assembled == Assembled(rows, i)
      {
        if i !in files {
          return Err(ChunkMissing);
        }
        var data := files[i];
        if Sha256(data) != chunks[i].digest {
          return Err(ChunkHashMismatch);
        }
        assembled := assembled + data;
      }
      return Ok(assembled);
    }

    /** Chunks 0 to n - 1 are recorded, and their files hold what was recorded. */
    ghost predicate FilesMatch(n: nat)
      reads this
    {
      forall i :: 0 <= i < n ==> i in rows && i in files && Sha256(files[i]) == rows[i].digest
    }

    /** The first file that does not hold what was recorded is missing, or has other bytes. */
    ghost predicate Breaks(n: nat, e: Error)
      reads this
    {
      exists i :: 0 <= i < n && FilesMatch(i) &&
        if i !in files then e == ChunkMissing
        else i in rows && Sha256(files[i]) != rows[i].digest && e == ChunkHashMismatch
    }

    /** Everything CompleteUpload asks for. */
    ghost predicate Completable(expected: Option<Digest>)
      requires session.chunkSize > 0
      reads this
    {
      && session.status == Active
      && session.received == session.Count() == |rows|
      && FilesMatch(session.Count())
      && DigestMatches(expected)
    }

    /** The assembled bytes have the digest the caller names, or else the one the session was created with, if any. */
    ghost predicate DigestMatches(expected: Option<Digest>)
      requires session.chunkSize > 0 && FilesMatch(session.Count())
      reads this
    {
      var digest := Sha256(Assembled(rows, session.Count()));
      && (expected.Some? ==> expected.value == digest)
      && (expected.None? && session.hash.Some? ==> session.hash.value == digest)
    }

    /**
     * Succeeds exactly when every chunk 0 to n - 1 is recorded and counted and
     * its file still holds what was recorded, the digest matches, the tier
     * allows the bytes and the blob is saved; the bytes are then the recorded
     * chunks in order, whatever order they came in. `allowed` is the outcome of the
     * tier check and `saves` that of SaveWithDedup.
     */
    method CompleteUpload(expected: Option<Digest>, allowed: bool, saves: bool) returns (r: Result<Bytes, Error>)
      requires Valid()
      modifies this`session
      ensures Valid()
      ensures r.Ok? <==> old(Completable(expected)) && allowed && saves
      ensures r.Err? ==>
                if session.status == Complete then r.error == SessionComplete
                else if session.status == Aborted then r.error == SessionAborted
                else if session.status == Expired then r.error == SessionExpired
                else if !(session.received == session.Count() == |rows|) then r.error == UploadIncomplete
                else if !FilesMatch(session.Count()) then Breaks(session.Count(), r.error)
                else if !DigestMatches(expected) then r.error == HashMismatch
                else r.error == if !allowed then OverTier else NotSaved
      ensures r.Ok? ==> FilesMatch(session.Count()) && r.value == Assembled(rows, session.Count())
      ensures session == if r.Ok?
                         then old(session).(status := Complete, hash :=
                           if old(session).hash.None? then Some(Sha256(r.value)) else old(session).hash)
                         else old(session)
    {
      if session.status != Active {
        return Err(StatusError(session.status));
      }
      var total := session.Count();
      if session.received != total {
        return Err(UploadIncomplete);
      }
      var chunks := CountedChunks(total);
      if chunks.None? {
        return Err(UploadIncomplete);
      }
      r := Assemble(chunks.value, total);
      if r.Err? {
        return;
      }
      var wanted := Wanted(session, expected);
      if wanted.Some? && wanted.value != Sha256(r.value) {
        return Err(HashMismatch);
      }
      if !allowed {
        return Err(OverTier);
      }
      if !saves {
        return Err(NotSaved);
      }
      var hash := if session.hash.None? then Some(Sha256(r.value)) else session.hash;
      session := session.(status := Complete, hash := hash);
    }

    method AbortUpload()
      requires Valid()
      modifies this
      ensures Valid() && session == old(session).(status := Aborted) && rows == map[] && files == map[]
    {
      session := session.(status := Aborted);
      files := map[];
      rows := map[];
    }
  }

  /** The digest the finished upload must have: the caller's, or else the session's. */
  function Wanted(s: Session, expected: Option<Digest>): Option<Digest> {
    if expected.Some? then expected else s.hash
  }
}
