/** Storing a blob and serving it back: row, stored object and encryption mode together. */
module BlobStore {
  import opened Common
  import opened Encryption

  datatype BlobRow = BlobRow(
    size: nat, blob: Bytes, mode: Mode, dek: Option<string>, nonce: Option<string>, originalSize: Option<int>)

  /** The parts of a blob descriptor that depend on the mode. */
  datatype Blob = Blob(size: int, blob: Bytes, mode: Mode)

  datatype Error = NotFound | AlreadyStored | DecryptionFailed

  /** The size in a row's descriptor, before GetDescriptor or GetFromHash adjusts it. */
  function DescriptorSize(r: BlobRow): int {
    if r.originalSize.Some? then r.originalSize.value else r.size
  }

  function OrEmpty(s: Option<string>): string {
    if s.Some? then s.value else ""
  }

  predicate Enabled(enc: Option<Encryptor>) {
    enc.Some? && enc.value.IsEnabled()
  }

  /** What the service serves of a row whose object, if there is one, holds these bytes. */
  function Served(enc: Option<Encryptor>, r: BlobRow, stored: Option<Bytes>): Result<Blob, Error> {
    var data := if |r.blob| == 0 && stored.Some? then stored.value else r.blob;
    if r.mode == ModeServer && Enabled(enc) then
      (match enc.value.Decrypt(EncryptedBlob(data, OrEmpty(r.dek), OrEmpty(r.nonce), 0, ModeServer))
      case None => Err(DecryptionFailed)
      case Some(plain) => Ok(Blob(DescriptorSize(r), plain, r.mode)))
    else Ok(Blob(DescriptorSize(r), data, r.mode))
  }

  function HeadSize(r: BlobRow): int {
    if r.mode == ModeServer then DescriptorSize(r) else r.size
  }

  /** Server-side encryption is also the default where it is enabled. */
  predicate Encrypts(enc: Option<Encryptor>, mode: Mode) {
    (mode == ModeServer || mode == ModeNone) && Enabled(enc)
  }

  /** The row of a saved blob. */
  function RowOf(enc: Option<Encryptor>, size: int, blob: Bytes, mode: Mode, d: Draw): BlobRow {
    if Encrypts(enc, mode) then
      var e := enc.value.Encrypt(blob, d);
      BlobRow(|e.ciphertext|, e.ciphertext, ModeServer, Some(e.encryptedDEK), Some(e.nonce), Some(e.originalSize))
    else if mode == ModeE2E then BlobRow(|blob|, blob, ModeE2E, None, None, Some(size))
    else BlobRow(|blob|, blob, ModeNone, None, None, None)
  }

  /** The size in the descriptor that Save returns. */
  function ReturnedSize(enc: Option<Encryptor>, size: int, blob: Bytes, mode: Mode): int {
    if Encrypts(enc, mode) then |blob| else size
  }

  ghost predicate LawfulEncryptor(enc: Option<Encryptor>) {
    enc.Some? ==> enc.value.p.Lawful()
  }

  /** `r` keeps `blob` sealed: its plain size, and a data key that opens it. */
  predicate Sealed(e: Encryptor, r: BlobRow, blob: Bytes, d: Draw) {
    && r.mode == ModeServer && r.size == |r.blob| && r.originalSize == Some(|blob|)
    && r.dek.Some? && r.nonce.Some? && e.SealedUnder(r.blob, r.dek.value, r.nonce.value, blob, d)
  }

  /** `r` keeps the bytes of `blob` as they came, and of an e2e blob the declared size. */
  predicate AsCame(r: BlobRow, size: int, blob: Bytes, mode: Mode) {
    r == BlobRow(|blob|, blob, if mode == ModeE2E then ModeE2E else ModeNone, None, None,
                 if mode == ModeE2E then Some(size) else None)
  }

  /** A blob is sealed if there is a master key of 32 bytes and the mode is server or none, or else kept as it came. */
  lemma SealedExactlyWhen(enc: Option<Encryptor>, size: int, blob: Bytes, mode: Mode, d: Draw)
    requires LawfulEncryptor(enc) && d.Valid()
    ensures var row := RowOf(enc, size, blob, mode, d);
            if enc.Some? && |enc.value.kek| == 32 && mode in {ModeServer, ModeNone}
            then Sealed(enc.value, row, blob, d) && ReturnedSize(enc, size, blob, mode) == |blob|
            else AsCame(row, size, blob, mode) && ReturnedSize(enc, size, blob, mode) == size
  {
    if Encrypts(enc, mode) {
      DecryptUndoesEncrypt(enc.value, blob, d);
    }
  }

  /** In every mode, with or without object storage, a saved blob is served as the bytes that were saved. */
  lemma SavedIsServed(enc: Option<Encryptor>, size: int, blob: Bytes, mode: Mode, d: Draw, stored: Option<Bytes>)
    requires LawfulEncryptor(enc) && d.Valid()
    requires stored.Some? ==> stored.value == RowOf(enc, size, blob, mode, d).blob
    ensures var r := RowOf(enc, size, blob, mode, d);
            Served(enc, r, stored) == Ok(Blob(if mode == ModeE2E then size else |blob|, blob, r.mode))
  {
    if Encrypts(enc, mode) {
      DecryptUndoesEncrypt(enc.value, blob, d);
    }
  }

  /**
   * Every caller declares the length of the bytes it saves. Then the sizes that
   * Save returned, that GetDescriptor and GetFromHash report, and the number of
   * bytes served, are all that length, in every mode.
   */
  lemma SizesAgree(enc: Option<Encryptor>, blob: Bytes, mode: Mode, d: Draw, stored: Option<Bytes>)
    requires LawfulEncryptor(enc) && d.Valid()
    requires stored.Some? ==> stored.value == RowOf(enc, |blob|, blob, mode, d).blob
    ensures var r := RowOf(enc, |blob|, blob, mode, d); var full := Served(enc, r, stored);
            && full.Ok?
            && ReturnedSize(enc, |blob|, blob, mode) == HeadSize(r) == full.value.size == |full.value.blob| == |blob|
  {
    SavedIsServed(enc, |blob|, blob, mode, d, stored);
  }

  /** With any declared size, GetDescriptor is right, and GetFromHash is unless an e2e size is wrong. */
  lemma SizesAgreeExactlyWhen(
    enc: Option<Encryptor>, size: int, blob: Bytes, mode: Mode, d: Draw, stored: Option<Bytes>)
    requires LawfulEncryptor(enc) && d.Valid()
    requires stored.Some? ==> stored.value == RowOf(enc, size, blob, mode, d).blob
    ensures var r := RowOf(enc, size, blob, mode, d); var full := Served(enc, r, stored);
            && full.Ok?
            && HeadSize(r) == |full.value.blob|
            && (full.value.size == HeadSize(r) <==> mode != ModeE2E || size == |blob|)
  {
    SavedIsServed(enc, size, blob, mode, d, stored);
  }

  /** With encryption switched off since, the saved bytes are served if and only if they were not encrypted. */
  lemma SwitchedOffServesExactlyThePlain(
    enc: Option<Encryptor>, off: Option<Encryptor>, size: int, blob: Bytes, mode: Mode, d: Draw, stored: Option<Bytes>)
    requires LawfulEncryptor(enc) && d.Valid() && !Enabled(off)
    requires stored.Some? ==> stored.value == RowOf(enc, size, blob, mode, d).blob
    ensures var full := Served(off, RowOf(enc, size, blob, mode, d), stored);
            full.Ok? && (full.value.blob == blob <==>
                          !(enc.Some? && |enc.value.kek| == 32 && mode in {ModeServer, ModeNone}))
  {
    if Encrypts(enc, mode) {
      DecryptUndoesEncrypt(enc.value, blob, d);
    }
  }

  /** What was saved under a hash: the bytes, and the size declared with them. */
  datatype Saved = Saved(content: Bytes, declared: int)

  /** The size GetFromHash reports: the length of the bytes, or for an e2e blob the one declared. */
  function FullSize(s: Saved, mode: Mode): int {
    if mode == ModeE2E then s.declared else |s.content|
  }

  /** The row alone, without its object, serves what was saved, and both sizes are as they should be. */
  ghost predicate Holds(enc: Option<Encryptor>, r: BlobRow, s: Saved) {
    && Served(enc, r, None) == Ok(Blob(FullSize(s, r.mode), s.content, r.mode))
    && HeadSize(r) == |s.content|
  }

  lemma SavedHolds(enc: Option<Encryptor>, size: int, blob: Bytes, mode: Mode, d: Draw)
    requires LawfulEncryptor(enc) && d.Valid()
    ensures Holds(enc, RowOf(enc, size, blob, mode, d), Saved(blob, size))
  {
    SizesAgreeExactlyWhen(enc, size, blob, mode, d, None);
    SavedIsServed(enc, size, blob, mode, d, None);
  }

  /** The two sizes of a stored blob agree if and only if it is not e2e or was declared with its length. */
  lemma ReportedSizesAgreeExactlyWhen(enc: Option<Encryptor>, r: BlobRow, s: Saved)
    requires Holds(enc, r, s)
    ensures FullSize(s, r.mode) == HeadSize(r) <==> r.mode != ModeE2E || s.declared == |s.content|
  {
  }

  class BlobService {
    const encryptor: Option<Encryptor>
    const hasStorage: bool
    var blobs: map<string, BlobRow>
    var objects: map<string, Bytes>
    /** What was saved under each hash still stored. */
    ghost var contents: map<string, Saved>

    /** Every row serves what was saved under its hash, and no object adds bytes to a row stored empty. */
    ghost predicate Valid()
      reads this
    {
      && LawfulEncryptor(encryptor)
      && contents.Keys == blobs.Keys
      && (!hasStorage ==> objects == map[])
      && (forall h :: h in blobs ==> Holds(encryptor, blobs[h], contents[h]))
      && forall h :: h in blobs && |blobs[h].blob| == 0 && h in objects ==> objects[h] == []
    }

    function ObjectOf(hash: string): Option<Bytes>
      reads this
    {
      if hasStorage && hash in objects then Some(objects[hash]) else None
    }

    constructor (encryptor: Option<Encryptor>, hasStorage: bool)
      requires LawfulEncryptor(encryptor)
      ensures Valid() && blobs == map[] && objects == map[]
      ensures this.encryptor == encryptor && this.hasStorage == hasStorage
    {
      this.encryptor, this.hasStorage := encryptor, hasStorage;
      blobs, objects := map[], map[];
      contents := map[];
    }

    /** The choice Save makes by mode. */
    method Prepare(size: int, blob: Bytes, mode: Mode, draw: Draw)
      returns (data: Bytes, dek: Option<string>, nonce: Option<string>, originalSize: Option<int>, finalMode: Mode)
      ensures RowOf(encryptor, size, blob, mode, draw) == BlobRow(|data|, data, finalMode, dek, nonce, originalSize)
      ensures LawfulEncryptor(encryptor) && draw.Valid() ==>
                var row := BlobRow(|data|, data, finalMode, dek, nonce, originalSize);
                if encryptor.Some? && |encryptor.value.kek| == 32 && mode in {ModeServer, ModeNone}
                then Sealed(encryptor.value, row, blob, draw) else AsCame(row, size, blob, mode)
      ensures (if originalSize.Some? then originalSize.value else size) == ReturnedSize(encryptor, size, blob, mode)
    {
      if LawfulEncryptor(encryptor) && draw.Valid() {
        SealedExactlyWhen(encryptor, size, blob, mode, draw);
      }
      data, dek, nonce, originalSize, finalMode := blob, None, None, None, ModeNone;
      match mode {
        case ModeServer =>
          if encryptor.Some? && encryptor.value.IsEnabled() {
            var e := encryptor.value.Encrypt(blob, draw);
            return e.ciphertext, Some(e.encryptedDEK), Some(e.nonce), Some(e.originalSize), ModeServer;
          }
        case ModeE2E =>
          originalSize, finalMode := Some(size), ModeE2E;
        case ModeNone =>
          if encryptor.Some? && encryptor.value.IsEnabled() {
            var e := encryptor.value.Encrypt(blob, draw);
            return e.ciphertext, Some(e.encryptedDEK), Some(e.nonce), Some(e.originalSize), ModeServer;
          }
        case ModeOther(_) =>
      }
    }

    /** A hash already stored is refused: its row stays, but the object just written over it is removed. */
    method Save(hash: string, size: int, blob: Bytes, mode: Mode, draw: Draw) returns (r: Result<Blob, Error>)
      requires Valid() && draw.Valid()
      modifies this
      ensures Valid()
      ensures contents == if hash in old(contents) then old(contents) else old(contents)[hash := Saved(blob, size)]
      ensures hash in old(blobs) ==> r == Err(AlreadyStored) && blobs == old(blobs)
      ensures hash in old(blobs) ==> objects == old(objects) - {hash}
      ensures hash !in old(blobs) ==>
        var row := RowOf(encryptor, size, blob, mode, draw);
        && r == Ok(Blob(ReturnedSize(encryptor, size, blob, mode), [], row.mode))
        && blobs == old(blobs)[hash := row]
        && objects == (if hasStorage then old(objects)[hash := row.blob] else old(objects))
      ensures hash !in old(blobs) ==>
        && r.Ok? && hash in blobs && (hasStorage ==> hash in objects && objects[hash] == blobs[hash].blob)
        && if encryptor.Some? && |encryptor.value.kek| == 32 && mode in {ModeServer, ModeNone}
           then Sealed(encryptor.value, blobs[hash], blob, draw) && r.value.size == |blob|
           else AsCame(blobs[hash], size, blob, mode) && r.value.size == size
    {
      var dataToStore, dek, nonce, originalSize, finalMode := Prepare(size, blob, mode, draw);
      if hasStorage {
        objects := objects[hash := dataToStore];
      }
      if hash in blobs {
        if hasStorage {
          objects := objects - {hash};
        }
        return Err(AlreadyStored);
      }
      blobs := blobs[hash := BlobRow(|dataToStore|, dataToStore, finalMode, dek, nonce, originalSize)];
      contents := contents[hash := Saved(blob, size)];
      SavedHolds(encryptor, size, blob, mode, draw);
      return Ok(Blob(if originalSize.Some? then originalSize.value else size, [], finalMode));
    }

    /** Serves what was saved under the hash, whatever has been saved, refused or deleted since. */
    method GetFromHash(hash: string) returns (r: Result<Blob, Error>)
      ensures Valid() ==> (r.Ok? <==> hash in contents)
      ensures Valid() && r.Ok? ==>
                r.value.blob == contents[hash].content && r.value.size == FullSize(contents[hash], r.value.mode)
      ensures r == if hash in blobs then Served(encryptor, blobs[hash], ObjectOf(hash)) else Err(NotFound)
    {
      if hash !in blobs {
        return Err(NotFound);
      }
      var row := blobs[hash];
      var size, data := DescriptorSize(row), row.blob;
      if hasStorage && |row.blob| == 0 {
        if hash in objects {
          data := objects[hash];
        }
      }
      if row.mode == ModeServer && encryptor.Some? && encryptor.value.IsEnabled() {
        var sealed := EncryptedBlob(data, OrEmpty(row.dek), OrEmpty(row.nonce), 0, ModeServer);
        var decrypted := encryptor.value.Decrypt(sealed);
        if decrypted.None? {
          return Err(DecryptionFailed);
        }
        data := decrypted.value;
        if row.originalSize.Some? {
          size := row.originalSize.value;
        }
      }
      return Ok(Blob(size, data, row.mode));
    }

    method GetDescriptor(hash: string) returns (r: Result<Blob, Error>)
      ensures Valid() && r.Ok? ==> hash in contents && r.value.size == |contents[hash].content|
      ensures r == if hash !in blobs then Err(NotFound)
                   else Ok(Blob(HeadSize(blobs[hash]), [], blobs[hash].mode))
    {
      if hash !in blobs {
        return Err(NotFound);
      }
      var row := blobs[hash];
      var size := DescriptorSize(row);
      if row.mode != ModeServer {
        size := row.size;
      }
      return Ok(Blob(size, [], row.mode));
    }

    method DeleteFromHash(hash: string)
      requires Valid()
      modifies this
      ensures Valid() && blobs == old(blobs) - {hash}
      ensures objects == old(objects) - {hash} && contents == old(contents) - {hash}
    {
      blobs := blobs - {hash};
      contents := contents - {hash};
      if hasStorage {
        objects := objects - {hash};
      }
    }
  }
}
