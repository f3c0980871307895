/** Streaming the chunk files of a session one after another. */
module ChunkReader {
  import opened Common

  datatype ReadError = NoError | EOF | OpenFailed

  /** The chunk files' bytes in order; a file that cannot be opened contributes none. */
  function Joined(files: seq<Option<Bytes>>): Bytes {
    if files == [] then [] else (if files[0].Some? then files[0].value else []) + Joined(files[1..])
  }

  predicate PositionOk(files: seq<Option<Bytes>>, idx: nat, pos: Option<nat>) {
    && idx <= |files|
    && (pos.Some? ==> idx < |files| && files[idx].Some? && pos.value <= |files[idx].value|)
  }

  /** What is left to read from a position: in an open file, or before the file at idx is opened. */
  function Rest(files: seq<Option<Bytes>>, idx: nat, pos: Option<nat>): Bytes
    requires PositionOk(files, idx, pos)
  {
    if pos.Some? then files[idx].value[pos.value..] + Joined(files[idx + 1..]) else Joined(files[idx..])
  }

  /** Opening the next file changes nothing of what is left. */
  lemma OpenKeepsRest(files: seq<Option<Bytes>>, idx: nat)
    requires idx < |files| && files[idx].Some?
    ensures Rest(files, idx, Some(0)) == Rest(files, idx, None)
  {
    assert files[idx..][1..] == files[idx + 1..];
    assert files[idx].value[0..] == files[idx].value;
  }

  /** Crossing the end of a file changes nothing of what is left. */
  lemma CrossKeepsRest(files: seq<Option<Bytes>>, idx: nat)
    requires idx < |files| && files[idx].Some?
    ensures Rest(files, idx, Some(|files[idx].value|)) == Rest(files, idx + 1, None)
  {
    var data := files[idx].value;
    assert data[|data|..] == [];
  }

  /** Reading n bytes of a file takes them off what is left. */
  lemma ReadTakesNext(files: seq<Option<Bytes>>, idx: nat, pos: nat, n: nat)
    requires PositionOk(files, idx, Some(pos)) && pos + n <= |files[idx].value|
    ensures Rest(files, idx, Some(pos)) == files[idx].value[pos..pos + n] + Rest(files, idx, Some(pos + n))
  {
    SliceSplits(files[idx].value, pos, n, Joined(files[idx + 1..]));
  }

  lemma SliceSplits(data: Bytes, pos: nat, n: nat, tail: Bytes)
    requires pos + n <= |data|
    ensures data[pos..] + tail == data[pos..pos + n] + (data[pos + n..] + tail)
  {
    assert data[pos..] == data[pos..pos + n] + data[pos + n..];
  }

  class StreamingChunkReader {
    /** The files on disk, chunk_000000 onward. */
    const files: seq<Option<Bytes>>
    var currentIdx: nat
    /** The read position in the current file, when one is open. */
    var currentFile: Option<nat>

    ghost predicate Valid()
      reads this
    {
      PositionOk(files, currentIdx, currentFile)
    }

    /** What the reads still to come will return, together. */
    ghost function Remaining(): Bytes
      requires Valid()
      reads this
    {
      Rest(files, currentIdx, currentFile)
    }

    constructor (fs: seq<Option<Bytes>>)
      ensures Valid() && files == fs && Remaining() == Joined(fs)
    {
      files := fs;
      currentIdx := 0;
      currentFile := None;
      new;
      assert files[0..] == files;
    }

    /**
     * Whatever the buffer size, a read returns the next bytes and loses none;
     * it makes progress when the buffer is not empty; and it reports the end
     * only when every file has been read.
     */
    method Read(size: nat) returns (out: Bytes, err: ReadError)
      requires Valid()
      modifies this`currentIdx, this`currentFile
      ensures Valid() && |out| <= size && old(Remaining()) == out + Remaining()
      ensures err == EOF ==> out == [] && Remaining() == [] && currentIdx == |files|
      ensures err == OpenFailed ==> out == [] && currentIdx < |files| && files[currentIdx].None?
      ensures err == NoError && size > 0 ==> out != []
    {
      while true
        invariant Valid() && Remaining() == old(Remaining())
        decreases |files| - currentIdx, if currentFile.Some? then 0 else 1
      {
        if currentFile.Some? {
          var pos, data := currentFile.value, files[currentIdx].value;
          if size > 0 && pos == |data| {
            // io.EOF from the file: close it and move to the next chunk.
            CrossKeepsRest(files, currentIdx);
            currentFile := None;
            currentIdx := currentIdx + 1;
            continue;
          }
          var n := Min(size, |data| - pos);
          ReadTakesNext(files, currentIdx, pos, n);
          currentFile := Some(pos + n);
          return data[pos..pos + n], NoError;
        }
        if currentIdx >= |files| {
          return [], EOF;
        }
        if files[currentIdx].None? {
          return [], OpenFailed;
        }
        OpenKeepsRest(files, currentIdx);
        currentFile := Some(0);
      }
    }

    /**
     * Reads with buffers of any sizes, one after the other, return the stream
     * in order: from a fresh reader, all of it once a read reports the end.
     */
    method ReadEach(sizes: seq<nat>) returns (outs: seq<Bytes>, errs: seq<ReadError>)
      requires Valid()
      modifies this`currentIdx, this`currentFile
      ensures Valid() && |outs| == |errs| == |sizes|
      ensures old(Remaining()) == Concat(outs) + Remaining()
      ensures EOF in errs ==> Remaining() == [] && Concat(outs) == old(Remaining())
    {
      outs, errs := [], [];
      for k := 0 to |sizes|
        invariant Valid() && |outs| == |errs| == k
        invariant old(Remaining()) == Concat(outs) + Remaining()
        invariant EOF in errs ==> Remaining() == []
      {
        ghost var before := Remaining();
        var out, err := Read(sizes[k]);
        ConcatAppend(outs, out);
        assert Concat(outs) + before == Concat(outs + [out]) + Remaining();
        outs, errs := outs + [out], errs + [err];
      }
    }
  }

  function Concat(outs: seq<Bytes>): Bytes {
    if outs == [] then [] else Concat(outs[..|outs| - 1]) + outs[|outs| - 1]
  }

  lemma ConcatAppend(outs: seq<Bytes>, out: Bytes)
    ensures Concat(outs + [out]) == Concat(outs) + out
  {
    assert (outs + [out])[..|outs|] == outs;
  }

  /** A fresh reader with readable files gives every byte of every file, for any buffer sizes that reach the end. */
  method StreamAll(files: seq<Option<Bytes>>, sizes: seq<nat>) returns (outs: seq<Bytes>, errs: seq<ReadError>)
    ensures |outs| == |errs| == |sizes|
    ensures Concat(outs) <= Joined(files)
    ensures EOF in errs ==> Concat(outs) == Joined(files)
  {
    var reader := new StreamingChunkReader(files);
    outs, errs := reader.ReadEach(sizes);
  }
}
