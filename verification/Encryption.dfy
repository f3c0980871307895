/**
 * Envelope encryption at rest: every blob has its own data key, which is stored
 * sealed under the master key. The cipher and base64 are functions of which
 * only the laws below are assumed; random draws are parameters.
 */
module Encryption {
  import opened Common

  const NONCE_SIZE := 12
  const TAG_SIZE := 16

  datatype Primitives = Primitives(
    seal: (Bytes, Bytes, Bytes) -> Bytes,
    open: (Bytes, Bytes, Bytes) -> Option<Bytes>,
    encode: Bytes -> string,
    decode: string -> Option<Bytes>)
  {
    /** Opening undoes sealing under the same key and nonce, sealing adds a tag, and decoding undoes encoding. */
    ghost predicate Lawful() {
      && (forall k, n, m :: open(k, n, seal(k, n, m)) == Some(m) && |seal(k, n, m)| == |m| + TAG_SIZE)
      && (forall b :: decode(encode(b)) == Some(b))
    }
  }

  function ZeroTag(): Bytes {
    seq(TAG_SIZE, _ => 0)
  }

  function AsChars(b: Bytes): string {
    seq(|b|, i requires 0 <= i < |b| => b[i] as char)
  }

  function FromChars(s: string): Option<Bytes> {
    if forall i :: 0 <= i < |s| ==> s[i] as int < 256
    then Some(seq(|s|, i requires 0 <= i < |s| && s[i] as int < 256 => s[i] as int))
    else None
  }

  /** No cipher at all, but the laws hold of it. */
  const PLAIN := Primitives(
    (k, n, m) => m + ZeroTag(),
    (k, n, c) => if |c| >= TAG_SIZE then Some(c[..|c| - TAG_SIZE]) else None,
    AsChars,
    FromChars)

  /** The laws can be met. */
  lemma LawsCanBeMet()
    ensures PLAIN.Lawful()
  {
    forall k, n, m: Bytes
      ensures PLAIN.open(k, n, PLAIN.seal(k, n, m)) == Some(m) && |PLAIN.seal(k, n, m)| == |m| + TAG_SIZE
    {
      assert (m + ZeroTag())[..|m|] == m;
    }
    forall b: Bytes ensures PLAIN.decode(PLAIN.encode(b)) == Some(b) {
      assert FromChars(AsChars(b)).value == b;
    }
  }

  /** What Encrypt draws at random. */
  datatype Draw = Draw(dek: Bytes, dataNonce: Bytes, kekNonce: Bytes)
  {
    predicate Valid() {
      |dek| == 32 && |dataNonce| == |kekNonce| == NONCE_SIZE
    }
  }

  datatype Mode = ModeNone | ModeServer | ModeE2E | ModeOther(name: string)

  datatype EncryptedBlob = EncryptedBlob(
    ciphertext: Bytes, encryptedDEK: string, nonce: string, originalSize: nat, mode: Mode)

  /** The lengths for which the block cipher takes a key. */
  predicate IsKey(k: Bytes) {
    |k| == 16 || |k| == 24 || |k| == 32
  }

  datatype Encryptor = Encryptor(kek: Bytes, p: Primitives)
  {
    predicate IsEnabled() {
      |kek| == 32
    }

    function Encrypt(plaintext: Bytes, d: Draw): EncryptedBlob {
      EncryptedBlob(
        p.seal(d.dek, d.dataNonce, plaintext),
        p.encode(d.kekNonce + p.seal(kek, d.kekNonce, d.dek)),
        p.encode(d.dataNonce),
        |plaintext|,
        ModeServer)
    }

    /** The data key of a blob, if its sealed form opens under the master key. */
    function OpenKey(encryptedDEK: string): Option<Bytes> {
      var sealed := p.decode(encryptedDEK);
      if sealed.None? || |sealed.value| < NONCE_SIZE then None
      else p.open(kek, sealed.value[..NONCE_SIZE], sealed.value[NONCE_SIZE..])
    }

    /**
     * `ciphertext` is `plaintext` and a tag of 16 bytes, to be opened with the drawn data key and nonce; the key is
     * stored behind its own nonce of 12 bytes, to be opened with the master key.
     */
    predicate SealedUnder(ciphertext: Bytes, encryptedDEK: string, nonce: string, plaintext: Bytes, d: Draw) {
      && |ciphertext| == |plaintext| + 16
      && p.open(d.dek, d.dataNonce, ciphertext) == Some(plaintext)
      && p.decode(nonce) == Some(d.dataNonce)
      && var stored := p.decode(encryptedDEK);
      && stored.Some? && |stored.value| == 12 + 32 + 16
      && stored.value[..12] == d.kekNonce && p.open(kek, d.kekNonce, stored.value[12..]) == Some(d.dek)
    }

    function Decrypt(e: EncryptedBlob): Option<Bytes> {
      if e.mode == ModeNone || e.mode == ModeE2E then Some(e.ciphertext)
      else
        var dek := OpenKey(e.encryptedDEK);
        var nonce := p.decode(e.nonce);
        if dek.None? || !IsKey(dek.value) || nonce.None? || |nonce.value| != NONCE_SIZE then None
        else p.open(dek.value, nonce.value, e.ciphertext)
    }
  }

  /** Decrypting what was encrypted gives the plaintext back, through the sealed data key. */
  lemma DecryptUndoesEncrypt(enc: Encryptor, plaintext: Bytes, d: Draw)
    requires enc.p.Lawful() && d.Valid()
    ensures enc.OpenKey(enc.Encrypt(plaintext, d).encryptedDEK) == Some(d.dek)
    ensures enc.Decrypt(enc.Encrypt(plaintext, d)) == Some(plaintext)
    ensures enc.Encrypt(plaintext, d).originalSize == |plaintext| && enc.Encrypt(plaintext, d).mode == ModeServer
    ensures enc.SealedUnder(enc.Encrypt(plaintext, d).ciphertext, enc.Encrypt(plaintext, d).encryptedDEK,
                            enc.Encrypt(plaintext, d).nonce, plaintext, d)
  {
    var sealed := d.kekNonce + enc.p.seal(enc.kek, d.kekNonce, d.dek);
    assert sealed[..NONCE_SIZE] == d.kekNonce && sealed[NONCE_SIZE..] == enc.p.seal(enc.kek, d.kekNonce, d.dek);
    assert enc.p.decode(enc.p.encode(sealed)) == Some(sealed);
    assert enc.p.open(enc.kek, d.kekNonce, enc.p.seal(enc.kek, d.kekNonce, d.dek)) == Some(d.dek);
    assert enc.p.decode(enc.p.encode(d.dataNonce)) == Some(d.dataNonce);
  }
}
