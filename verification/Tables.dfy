/**
 * The tables behind blob ownership (blobs, blob_references, users) and the SQL
 * statements and locked transactions that change them. Each function is one
 * atomic step.
 */
module Tables {
  import opened Common

  type Pubkey = string

  /** A content hash determines the content, hence its length: the length is carried with the digest. */
  datatype Hash = Hash(digest: string, length: nat)

  /** A blobs row. `size` is the stored length (ciphertext in server mode), `original` the plaintext length. */
  datatype Row = Row(uploader: Pubkey, size: nat, original: Option<nat>, refCount: int)
  {
    /** The size a descriptor reports, and so what an owner is charged and credited. */
    function DescriptorSize(): nat {
      if original.Some? then original.value else size
    }
  }

  datatype Tables = Tables(blobs: map<Hash, Row>, refs: set<(Pubkey, Hash)>, users: map<Pubkey, nat>)

  const EMPTY := Tables(map[], {}, map[])

  // ----- the invariant ------------------------------------------------------

  /** The foreign key: every reference points at a row; and every row describes its own content. */
  ghost predicate Sound(t: Tables) {
    && (forall r :: r in t.refs ==> r.1 in t.blobs)
    && (forall h :: h in t.blobs ==> t.blobs[h].DescriptorSize() == h.length)
  }

  // ----- queries ------------------------------------------------------------

  predicate HasOwner(t: Tables, h: Hash) {
    exists r :: r in t.refs && r.1 == h
  }

  function OwnersOf(t: Tables, h: Hash): set<Pubkey> {
    set r | r in t.refs && r.1 == h :: r.0
  }

  function Used(t: Tables, u: Pubkey): nat {
    if u in t.users then t.users[u] else 0
  }

  function BlobsOf(t: Tables, u: Pubkey): set<Hash> {
    set r | r in t.refs && r.0 == u :: r.1
  }

  function Length(): Hash -> int {
    (h: Hash) => h.length
  }

  /** What user `u` should be charged for: the sum of the sizes of the blobs `u` references. */
  ghost function Owned(t: Tables, u: Pubkey): int {
    SetSum(BlobsOf(t, u), Length())
  }

  // ----- statements ---------------------------------------------------------

  /** InsertBlob: refused when the primary key exists. */
  function InsertBlob(t: Tables, h: Hash, row: Row): Option<Tables> {
    if h in t.blobs then None else Some(t.(blobs := t.blobs[h := row]))
  }

  datatype RefInsert = Inserted | Conflict | NoSuchBlob

  /** CreateBlobReference: ON CONFLICT DO NOTHING, and the foreign key needs the row. */
  function CreateReference(t: Tables, p: Pubkey, h: Hash): (Tables, RefInsert) {
    if (p, h) in t.refs then (t, Conflict)
    else if h !in t.blobs then (t, NoSuchBlob)
    else (t.(refs := t.refs + {(p, h)}), Inserted)
  }

  function AddToRefCount(t: Tables, h: Hash, d: int): Tables {
    if h in t.blobs then t.(blobs := t.blobs[h := t.blobs[h].(refCount := t.blobs[h].refCount + d)]) else t
  }

  function DeleteReferenceRow(t: Tables, p: Pubkey, h: Hash): (Tables, nat) {
    (t.(refs := t.refs - {(p, h)}), if (p, h) in t.refs then 1 else 0)
  }

  /** DeleteOwnerlessBlob: the NOT EXISTS is evaluated in the same statement. */
  function DeleteOwnerless(t: Tables, h: Hash): (Tables, bool) {
    if h in t.blobs && !HasOwner(t, h) then (t.(blobs := t.blobs - {h}), true) else (t, false)
  }

  /** DeleteBlobFromHash: unconditional, and the foreign key cascades. */
  function DeleteBlob(t: Tables, h: Hash): Tables {
    if h in t.blobs
    then t.(blobs := t.blobs - {h}, refs := set r | r in t.refs && r.1 != h)
    else t
  }

  /** IncrementUsage: the user row is created first when it is missing. */
  function IncrementUsage(t: Tables, u: Pubkey, n: nat): Tables {
    t.(users := t.users[u := Used(t, u) + n])
  }

  /** DecrementUserUsage: clamped at zero, and only an existing row is updated. */
  function DecrementUsage(t: Tables, u: Pubkey, n: nat): Tables {
    if u in t.users then t.(users := t.users[u := if t.users[u] >= n then t.users[u] - n else 0]) else t
  }

  /** The part of a credit of `n` that the clamp at zero discards. */
  function Clamped(t: Tables, u: Pubkey, n: nat): nat {
    if Used(t, u) >= n then 0 else n - Used(t, u)
  }

  // ----- transactions under the blob row's lock -----------------------------

  datatype Added = Gone | AlreadyOwned | NewReference

  /** addReference as one atomic step. */
  function AddReference(t: Tables, p: Pubkey, h: Hash): (Tables, Added) {
    if h !in t.blobs then (t, Gone)
    else if (p, h) in t.refs then (t, AlreadyOwned)
    else (AddToRefCount(t.(refs := t.refs + {(p, h)}), h, 1), NewReference)
  }

  datatype Removal = NotFound | Removed(last: bool)

  /**
   * DeleteReference as one atomic step: the row goes exactly when `p` was its
   * only owner, whatever ref_count says.
   */
  function RemoveReference(t: Tables, p: Pubkey, h: Hash): (Tables, Removal) {
    if (p, h) !in t.refs then (t, NotFound)
    else
      var others := t.(refs := t.refs - {(p, h)});
      if HasOwner(others, h) then (AddToRefCount(others, h, -1), Removed(false))
      else (others.(blobs := t.blobs - {h}), Removed(h in t.blobs))
  }

  // ----- facts about the queries --------------------------------------------

  lemma OwnedAdd(t: Tables, t': Tables, p: Pubkey, h: Hash)
    requires (p, h) !in t.refs && t'.refs == t.refs + {(p, h)}
    ensures Owned(t', p) == Owned(t, p) + h.length
    ensures forall u :: u != p ==> Owned(t', u) == Owned(t, u)
  {
    assert h !in BlobsOf(t, p);
    assert BlobsOf(t', p) == BlobsOf(t, p) + {h} by {
      assert (p, h) in t'.refs;
    }
    SetSumAdd(BlobsOf(t, p), h, Length());
    forall u | u != p ensures Owned(t', u) == Owned(t, u) {
      assert BlobsOf(t', u) == BlobsOf(t, u);
    }
  }

  lemma OwnedRemove(t: Tables, t': Tables, p: Pubkey, h: Hash)
    requires (p, h) in t.refs && t'.refs == t.refs - {(p, h)}
    ensures Owned(t', p) == Owned(t, p) - h.length
    ensures forall u :: u != p ==> Owned(t', u) == Owned(t, u)
  {
    assert t.refs == t'.refs + {(p, h)};
    OwnedAdd(t', t, p, h);
  }

  /** A cascading delete takes the blob's length off exactly its owners. */
  lemma OwnedDeleteBlob(t: Tables, h: Hash, u: Pubkey)
    requires Sound(t)
    ensures Owned(DeleteBlob(t, h), u) == Owned(t, u) - (if (u, h) in t.refs then h.length else 0)
  {
    var t' := DeleteBlob(t, h);
    if (u, h) in t.refs {
      assert h in BlobsOf(t, u);
      assert BlobsOf(t', u) == BlobsOf(t, u) - {h};
      SetSumRemove(BlobsOf(t, u), h, Length());
    } else {
      assert BlobsOf(t', u) == BlobsOf(t, u);
    }
  }

  lemma OwnedSame(t: Tables, t': Tables, u: Pubkey)
    requires t'.refs == t.refs
    ensures Owned(t', u) == Owned(t, u)
  {
    assert BlobsOf(t', u) == BlobsOf(t, u);
  }

  lemma {:induction false} LengthsNonNegative(hs: set<Hash>)
    ensures 0 <= SetSum(hs, Length())
  {
    if hs != {} {
      var h :| h in hs && SetSum(hs, Length()) == Length()(h) + SetSum(hs - {h}, Length());
      LengthsNonNegative(hs - {h});
    }
  }
}
