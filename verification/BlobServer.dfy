/**
 * The server's operations, each run to completion with no database error, in
 * the order the code issues its statements. used_bytes is conserved: it stays
 * the sum of the sizes of the blobs each key references.
 */
module BlobServer {
  import opened Common
  import Sql = Tables
  import opened Tables
  import opened Ownership

  /** Usage is exactly what is owned, for every key. */
  ghost predicate Conserved(t: Tables) {
    forall u :: Used(t, u) == Owned(t, u)
  }

  // ----- what a sweep of expired blobs frees --------------------------------

  ghost predicate Distinct<T(!new)>(s: seq<T>) {
    forall i, j :: 0 <= i < j < |s| ==> s[i] != s[j]
  }

  function StoredSize(t: Tables, u: Pubkey): Hash -> int {
    (h: Hash) => if (u, h) in t.refs && h in t.blobs then t.blobs[h].size else 0
  }

  function ChargedSize(t: Tables, u: Pubkey): Hash -> int {
    (h: Hash) => if (u, h) in t.refs then h.length else 0
  }

  /** The bytes a sweep over `hs` credits `u` with: stored sizes. */
  function StoredFreed(t: Tables, hs: seq<Hash>, u: Pubkey): int {
    Sum(hs, StoredSize(t, u))
  }

  /** The bytes `u` was charged for those blobs: plaintext lengths. */
  function ChargedFreed(t: Tables, hs: seq<Hash>, u: Pubkey): int {
    Sum(hs, ChargedSize(t, u))
  }

  // ----- rows ---------------------------------------------------------------

  /** The same row up to ref_count. */
  predicate SameRow(a: Row, b: Row) {
    a == b.(refCount := a.refCount)
  }

  /** Rows that stay keep what they say of their content. */
  ghost predicate RowsKept(t: Tables, t': Tables) {
    forall h :: h in t.blobs && h in t'.blobs ==> SameRow(t'.blobs[h], t.blobs[h])
  }

  /** Rows that come are those of the items. */
  ghost predicate RowsCome(t: Tables, t': Tables, items: seq<Item>) {
    forall h :: h in t'.blobs && h !in t.blobs ==> exists i :: i in items && i.h == h && SameRow(t'.blobs[h], i.row)
  }

  /** A row stored as it was sent (plaintext or e2e): its size is its length. */
  ghost predicate StoredPlain(t: Tables, h: Hash) {
    h in t.blobs ==> t.blobs[h].size == h.length
  }

  ghost predicate AllPlain(t: Tables) {
    forall h :: h in t.blobs ==> StoredPlain(t, h)
  }

  /** Encryption never stores fewer bytes than it was given. */
  ghost predicate NeverShrinks(t: Tables) {
    forall h :: h in t.blobs ==> h.length <= t.blobs[h].size
  }

  // ----- operations ---------------------------------------------------------

  datatype Operation =
    | Uploading(p: Pubkey, item: Item)
    | BatchUploading(p: Pubkey, items: seq<Item>)
    | Deleting(p: Pubkey, h: Hash)
    | BatchDeleting(p: Pubkey, hashes: seq<Hash>)
    | AdminDeleting(h: Hash)
    | Expiring(due: seq<Hash>)
    | Collecting(listing: seq<Hash>)
  {
    function Files(): seq<Item> {
      match this
      case Uploading(_, item) => [item]
      case BatchUploading(_, items) => items
      case _ => []
    }

    predicate Batch() {
      BatchUploading? || BatchDeleting?
    }

    ghost predicate Ok() {
      forall i :: i in Files() ==> ItemOk(i)
    }

    /** It neither sweeps an encrypted blob nor, with quotas disabled, charges or credits a batch. */
    ghost predicate Conserves(t: Tables, quotaEnabled: bool) {
      && (quotaEnabled || !Batch())
      && (Expiring? ==> forall h :: h in due ==> StoredPlain(t, h))
    }

    /** Everything it uploads is stored as it was sent. */
    ghost predicate Plain() {
      forall i :: i in Files() ==> i.row.size == i.h.length
    }
  }

  /** What the query for expired blobs lists: rows that exist, each once. */
  function Listed(t: Tables, due: seq<Hash>): (r: seq<Hash>)
    ensures forall h :: h in r <==> h in due && h in t.blobs
    ensures forall i, j :: 0 <= i < j < |r| ==> r[i] != r[j]
  {
    if due == [] then []
    else
      var rest := Listed(t, due[1..]);
      if due[0] in t.blobs && due[0] !in rest then [due[0]] + rest else rest
  }

  class BlobServer {
    var db: Tables
    const quotaEnabled: bool
    /** How many bytes of credit the clamp at zero has discarded so far. */
    ghost var discarded: nat

    constructor (enabled: bool)
      ensures db == EMPTY && quotaEnabled == enabled && discarded == 0
    {
      db := EMPTY;
      quotaEnabled := enabled;
      discarded := 0;
    }

    /** The one place where usage is credited. */
    method Credit(u: Pubkey, n: nat)
      modifies this
      ensures db == DecrementUsage(old(db), u, n)
      ensures discarded == old(discarded) + Clamped(old(db), u, n)
    {
      discarded := discarded + Clamped(db, u, n);
      db := DecrementUsage(db, u, n);
    }

    /** One transaction; the lock makes it one step for the hash. */
    method AddReference(p: Pubkey, h: Hash) returns (added: bool, gone: bool)
      modifies this`db
      ensures var (t, r) := Sql.AddReference(old(db), p, h);
              db == t && added == r.NewReference? && gone == r.Gone?
    {
      if h !in db.blobs {
        return false, true;
      }
      var (t, inserted) := CreateReference(db, p, h);
      if inserted == Conflict {
        return false, false;
      }
      db := AddToRefCount(t, h, 1);
      return true, false;
    }

    /** One transaction; a refused removal is rolled back. */
    method DeleteReference(p: Pubkey, h: Hash) returns (r: Removal)
      requires Sound(db)
      modifies this`db
      ensures (db, r) == RemoveReference(old(db), p, h)
    {
      var (t, removed) := DeleteReferenceRow(db, p, h);
      if removed == 0 {
        return NotFound;
      }
      var (t', last) := DeleteOwnerless(AddToRefCount(t, h, -1), h);
      assert t'.blobs == if last then t.blobs - {h} else AddToRefCount(t, h, -1).blobs;
      db := t';
      return Removed(last);
    }

    /** Run alone, a save always succeeds, and it is new exactly when the key did not own the blob. */
    method SaveWithDedup(p: Pubkey, i: Item) returns (size: nat, newReference: bool)
      requires Sound(db) && ItemOk(i)
      modifies this`db
      ensures Sound(db)
      ensures newReference <==> (p, i.h) !in old(db).refs
      ensures size == i.h.length
      ensures db.refs == old(db).refs + {(p, i.h)} && db.users == old(db).users
      ensures db.blobs.Keys == old(db).blobs.Keys + {i.h}
      ensures RowsKept(old(db), db) && (i.h !in old(db).blobs ==> db.blobs[i.h] == i.row)
    {
      if i.h in db.blobs {
        size := db.blobs[i.h].DescriptorSize();
        if (p, i.h) in db.refs {
          assert db.refs == db.refs + {(p, i.h)};
          return size, false;
        }
        var added, gone := AddReference(p, i.h);
        if !gone {
          return size, added;
        }
      }
      db := db.(blobs := db.blobs[i.h := i.row]);
      var (t, inserted) := CreateReference(db, p, i.h);
      db := t;
      return i.row.DescriptorSize(), inserted == Inserted;
    }

    method UploadBlob(p: Pubkey, i: Item) returns (size: nat)
      requires Sound(db) && ItemOk(i)
      modifies this`db
      ensures Sound(db) && size == i.h.length
      ensures db.refs == old(db).refs + {(p, i.h)}
      ensures db.blobs.Keys == old(db).blobs.Keys + {i.h}
      ensures RowsKept(old(db), db) && (i.h !in old(db).blobs ==> db.blobs[i.h] == i.row)
      ensures forall u :: Used(db, u) == Used(old(db), u) + if u == p && (p, i.h) !in old(db).refs then size else 0
      ensures Conserved(old(db)) ==> Conserved(db)
    {
      var newReference;
      size, newReference := SaveWithDedup(p, i);
      if newReference {
        OwnedAdd(old(db), db, p, i.h);
        db := IncrementUsage(db, p, size);
      } else {
        assert db.refs == old(db).refs;
      }
      forall u ensures Owned(db, u) == Owned(old(db), u) + if u == p && newReference then size else 0 {
        if newReference {
          OwnedAdd(old(db), db, p, i.h);
        } else {
          OwnedSame(old(db), db, u);
        }
      }
    }

    /** The loop of a batch upload. */
    method SaveAll(p: Pubkey, items: seq<Item>) returns (charge: nat)
      requires Sound(db) && forall i :: i in items ==> ItemOk(i)
      modifies this`db
      ensures BatchSaved(old(db), db, p, items, charge)
    {
      charge := 0;
      NothingSaved(db, p);
      assert items[..0] == [];
      for k := 0 to |items|
        invariant BatchSaved(old(db), db, p, items[..k], charge)
      {
        ghost var before := db;
        var size, newReference := SaveWithDedup(p, items[k]);
        assert items[..k + 1] == items[..k] + [items[k]];
        BatchSavedOneMore(old(db), before, db, p, items[..k], items[k], charge, newReference);
        if newReference {
          charge := charge + size;
        }
      }
      assert items[..|items|] == items;
    }

    /** Files are saved one by one and charged together at the end. */
    method BatchUpload(p: Pubkey, items: seq<Item>) returns (charge: nat)
      requires Sound(db) && forall i :: i in items ==> ItemOk(i)
      modifies this`db
      ensures Sound(db)
      ensures db.refs == old(db).refs + set i | i in items :: (p, i.h)
      ensures db.blobs.Keys == old(db).blobs.Keys + set i | i in items :: i.h
      ensures RowsKept(old(db), db) && RowsCome(old(db), db, items)
      ensures charge == Owned(db, p) - Owned(old(db), p)
      ensures forall u :: Used(db, u) == Used(old(db), u) + if u == p && quotaEnabled then charge else 0
      ensures Conserved(old(db)) ==> (Conserved(db) <==> quotaEnabled || charge == 0)
    {
      charge := SaveAll(p, items);
      ghost var saved := db;
      if quotaEnabled && charge > 0 {
        db := IncrementUsage(db, p, charge);
      }
      UsageOnly(old(db), saved, db, items);
    }

    /** True exactly when the key owned the blob, and then it is credited what it was charged. */
    method DeleteBlob(p: Pubkey, h: Hash) returns (deleted: bool)
      requires Sound(db)
      modifies this
      ensures Sound(db)
      ensures deleted <==> (p, h) in old(db).refs
      ensures db.refs == old(db).refs - {(p, h)}
      ensures h in db.blobs <==> h in old(db).blobs && (deleted ==> HasOwner(db, h))
      ensures RowsKept(old(db), db) && forall g :: g != h ==> (g in db.blobs <==> g in old(db).blobs)
      ensures Conserved(old(db)) ==>
                && Conserved(db) && discarded == old(discarded)
                && forall u :: Used(db, u) == Used(old(db), u) - if u == p && deleted then h.length else 0
    {
      if h !in db.blobs {
        return false;
      }
      var size := db.blobs[h].DescriptorSize();
      if (p, h) !in db.refs {
        return false;
      }
      RemovedAndCredited(db, p, h);
      var r := DeleteReference(p, h);
      Credit(p, size);
      return true;
    }

    /** The loop of a batch delete. */
    method RemoveAll(p: Pubkey, hashes: seq<Hash>) returns (freed: nat)
      requires Sound(db)
      modifies this`db
      ensures BatchRemoved(old(db), db, p, hashes, freed)
    {
      freed := 0;
      for k := 0 to |hashes|
        invariant BatchRemoved(old(db), db, p, hashes[..k], freed)
      {
        var h := hashes[k];
        assert hashes[..k + 1] == hashes[..k] + [h];
        BatchRemovedOneMore(old(db), db, p, hashes[..k], h, freed);
        if (p, h) in db.refs {
          var size := if h in db.blobs then db.blobs[h].DescriptorSize() else 0;
          var r := DeleteReference(p, h);
          freed := freed + size;
        }
      }
      assert hashes[..|hashes|] == hashes;
    }

    /** References are removed one by one and credited together at the end. */
    method BatchDelete(p: Pubkey, hashes: seq<Hash>) returns (freed: nat)
      requires Sound(db)
      modifies this
      ensures Sound(db)
      ensures db.refs == old(db).refs - set h | h in hashes :: (p, h)
      ensures RowsKept(old(db), db)
      ensures forall h ::
                h in db.blobs <==> h in old(db).blobs && (h in hashes && (p, h) in old(db).refs ==> HasOwner(db, h))
      ensures freed == Owned(old(db), p) - Owned(db, p)
      ensures Conserved(old(db)) ==>
                && discarded == old(discarded)
                && (forall u :: Used(db, u) == Used(old(db), u) - if u == p && quotaEnabled then freed else 0)
                && (Conserved(db) <==> quotaEnabled || freed == 0)
    {
      freed := RemoveAll(p, hashes);
      ghost var removed := db;
      LengthsNonNegative(BlobsOf(removed, p));
      if quotaEnabled && freed > 0 {
        Credit(p, freed);
      }
      UsageOnly(old(db), removed, db, []);
    }

    /** Every owner is removed and credited, and the row goes with the last of them. */
    method AdminDelete(h: Hash) returns (removed: set<Pubkey>, deleted: bool)
      requires Sound(db)
      modifies this
      ensures Sound(db)
      ensures deleted <==> h in old(db).blobs
      ensures removed == OwnersOf(old(db), h)
      ensures h !in db.blobs && db.blobs.Keys == old(db).blobs.Keys - {h} && RowsKept(old(db), db)
      ensures db.refs == old(db).refs - set p | p in removed :: (p, h)
      ensures Conserved(old(db)) ==> Conserved(db) && discarded == old(discarded)
    {
      removed := {};
      if h !in db.blobs {
        assert OwnersOf(db, h) == {};
        return {}, false;
      }
      var size := db.blobs[h].DescriptorSize();
      var owners := OwnersOf(db, h);
      var todo := owners;
      while todo != {}
        invariant OwnersRemoved(old(db), db, h, removed, todo) && removed + todo == owners
        invariant Conserved(old(db)) ==> Conserved(db) && discarded == old(discarded)
        decreases todo
      {
        var p :| p in todo;
        ghost var before := db;
        OwnersRemovedOneMore(old(db), before, h, removed, todo, p);
        var r := DeleteReference(p, h);
        removed := removed + {p};
        Credit(p, size);
        todo := todo - {p};
      }
      if h in db.blobs {
        DeletingOwnerlessIsNeutral(db, h);
        db := Sql.DeleteBlob(db, h);
      }
      return removed, true;
    }

    /**
     * One sweep over the expired rows the query listed. Owners are looked up
     * before the cascading delete and credited with the stored size.
     */
    method CleanupExpired(expired: seq<Hash>)
      requires Sound(db) && Distinct(expired) && forall h :: h in expired ==> h in db.blobs
      modifies this
      ensures Sound(db)
      ensures db.blobs == old(db).blobs - set h | h in expired
      ensures db.refs == set r | r in old(db).refs && r.1 !in expired
      ensures forall u :: Owned(db, u) == Owned(old(db), u) - ChargedFreed(old(db), expired, u)
      ensures forall u :: Used(db, u) == Max(0, Used(old(db), u) - StoredFreed(old(db), expired, u))
      ensures Conserved(old(db)) && (forall h :: h in expired ==> StoredPlain(old(db), h)) ==>
                Conserved(db) && discarded == old(discarded)
    {
      var freed := SweepAll(expired);
      if Conserved(old(db)) && forall h :: h in expired ==> StoredPlain(old(db), h) {
        PlainSweepIsExact(old(db), expired, db, freed);
      }
      CreditAll(freed);
    }

    /** The loop of a sweep. */
    method SweepAll(expired: seq<Hash>) returns (freed: map<Pubkey, nat>)
      requires Sound(db) && Distinct(expired) && forall h :: h in expired ==> h in db.blobs
      modifies this`db
      ensures Swept(old(db), expired, db, freed)
    {
      freed := map[];
      for k := 0 to |expired|
        invariant Swept(old(db), expired[..k], db, freed)
      {
        var h := expired[k];
        assert expired[..k + 1] == expired[..k] + [h];
        SweepOne(old(db), expired[..k], db, freed, h);
        var size := db.blobs[h].size;
        var owners := OwnersOf(db, h);
        db := Sql.DeleteBlob(db, h);
        freed := FreeTo(freed, owners, size);
      }
      assert expired[..|expired|] == expired;
    }

    /** The credits of a sweep, in any order. */
    method CreditAll(freed: map<Pubkey, nat>)
      modifies this
      ensures db == old(db).(users := db.users)
      ensures forall u :: Owned(db, u) == Owned(old(db), u)
      ensures forall u :: Used(db, u) == if u in freed then Max(0, Used(old(db), u) - freed[u]) else Used(old(db), u)
      ensures (forall u :: u in freed ==> freed[u] <= Used(old(db), u)) ==> discarded == old(discarded)
    {
      var todo := freed.Keys;
      while todo != {}
        invariant todo <= freed.Keys
        invariant db == old(db).(users := db.users)
        invariant forall u :: Used(db, u) ==
                              if u in freed && u !in todo then Max(0, Used(old(db), u) - freed[u]) else Used(old(db), u)
        invariant (forall u :: u in freed ==> freed[u] <= Used(old(db), u)) ==> discarded == old(discarded)
        decreases todo
      {
        var u :| u in todo;
        Credit(u, freed[u]);
        todo := todo - {u};
      }
      forall u ensures Owned(db, u) == Owned(old(db), u) {
        OwnedSame(old(db), db, u);
      }
    }

    /** Garbage collection removes exactly the listed rows that are still ownerless. */
    method DeleteOwnerlessBlobs(listing: seq<Hash>) returns (hashes: seq<Hash>)
      requires Sound(db)
      modifies this`db
      ensures Sound(db)
      ensures db.refs == old(db).refs && db.users == old(db).users
      ensures db.blobs == map h | h in old(db).blobs && (h in listing ==> HasOwner(old(db), h)) :: old(db).blobs[h]
      ensures forall h :: h in hashes <==> h in listing && h in old(db).blobs && !HasOwner(old(db), h)
      ensures Conserved(old(db)) ==> Conserved(db)
    {
      hashes := [];
      for k := 0 to |listing|
        invariant db.refs == old(db).refs && db.users == old(db).users
        invariant db.blobs ==
                    map h | h in old(db).blobs && (h in listing[..k] ==> HasOwner(old(db), h)) :: old(db).blobs[h]
        invariant forall h :: h in hashes <==> h in listing[..k] && h in old(db).blobs && !HasOwner(old(db), h)
      {
        var h := listing[k];
        assert listing[..k + 1] == listing[..k] + [h];
        var (t, deleted) := DeleteOwnerless(db, h);
        db := t;
        if deleted {
          hashes := hashes + [h];
        }
      }
      assert listing[..|listing|] == listing;
      forall u ensures Owned(db, u) == Owned(old(db), u) {
        OwnedSame(old(db), db, u);
      }
    }

    /** Any operation, whatever it stores and whether or not usage was exact. */
    method Perform(o: Operation)
      requires Sound(db) && NeverShrinks(db) && o.Ok()
      modifies this
      ensures Sound(db) && NeverShrinks(db)
      ensures AllPlain(old(db)) && o.Plain() ==> AllPlain(db)
      ensures Conserved(old(db)) && o.Conserves(old(db), quotaEnabled) ==> Conserved(db) && discarded == old(discarded)
    {
      match o {
        case Uploading(p, item) =>
          var _ := UploadBlob(p, item);
          OneRowComes(old(db), db, item);
        case BatchUploading(p, items) =>
          var _ := BatchUpload(p, items);
        case Deleting(p, h) =>
          var _ := DeleteBlob(p, h);
        case BatchDeleting(p, hashes) =>
          var _ := BatchDelete(p, hashes);
        case AdminDeleting(h) =>
          var _, _ := AdminDelete(h);
        case Expiring(due) =>
          CleanupExpired(Listed(db, due));
        case Collecting(listing) =>
          var _ := DeleteOwnerlessBlobs(listing);
      }
      RowsStayOk(old(db), db, o);
    }

    /**
     * Over every sequence of complete operations but sweeps, with blobs stored
     * encrypted or not, usage is exact and the clamp discards nothing.
     */
    method ServeWithoutSweeps(os: seq<Operation>)
      requires Sound(db) && NeverShrinks(db) && Conserved(db)
      requires forall o :: o in os ==> o.Ok() && !o.Expiring? && (quotaEnabled || !o.Batch())
      modifies this
      ensures Sound(db) && NeverShrinks(db) && Conserved(db)
      ensures discarded == old(discarded)
    {
      for k := 0 to |os|
        invariant Sound(db) && NeverShrinks(db) && Conserved(db) && discarded == old(discarded)
      {
        Perform(os[k]);
      }
    }

    /**
     * Over every sequence of complete operations, sweeps included, on blobs
     * stored as they were sent, usage is exact, the clamp discards nothing, and
     * recalculating anyone's usage changes nothing.
     */
    method Serve(os: seq<Operation>)
      requires Sound(db) && AllPlain(db) && Conserved(db)
      requires forall o :: o in os ==> o.Ok() && o.Plain() && (quotaEnabled || !o.Batch())
      modifies this
      ensures Sound(db) && AllPlain(db) && Conserved(db)
      ensures discarded == old(discarded)
      ensures forall u :: u in db.users ==> Recalculate(db, u) == db
    {
      for k := 0 to |os|
        invariant Sound(db) && AllPlain(db) && Conserved(db) && discarded == old(discarded)
      {
        Perform(os[k]);
      }
      forall u | u in db.users ensures Recalculate(db, u) == db {
        RecalculateIsNoOpExactlyWhen(db, u);
      }
    }

    /** ActionReport "removed": the blob goes for all its owners, and only its first uploader is credited. */
    method RemoveReported(h: Hash)
      requires Sound(db)
      modifies this
      ensures Sound(db) && db.blobs == old(db).blobs - {h}
      ensures db.refs == set r | r in old(db).refs && r.1 != h
      ensures forall u :: Used(db, u) == if h in old(db).blobs && u == old(db).blobs[h].uploader != ""
                                         then Max(0, Used(old(db), u) - h.length) else Used(old(db), u)
      ensures Conserved(old(db)) && h.length > 0 ==> (Conserved(db) <==> OnlyUploaderPays(old(db), h))
    {
      ghost var before := db;
      if h in db.blobs {
        var row := db.blobs[h];
        db := Sql.DeleteBlob(db, h);
        if row.uploader != "" {
          Credit(row.uploader, row.DescriptorSize());
        }
        if Conserved(before) && h.length > 0 {
          ReportedConservesExactlyWhen(before, h, db);
        }
      } else {
        assert forall r :: r in db.refs ==> r.1 in db.blobs;
        assert db.refs == set r | r in db.refs && r.1 != h;
      }
    }
  }

  // ----- removal after a report ---------------------------------------------

  /** Nobody but the named first uploader was charged for `h`; of an ownerless blob, the uploader uses nothing else. */
  ghost predicate OnlyUploaderPays(t: Tables, h: Hash) {
    h in t.blobs ==>
      var p := t.blobs[h].uploader;
      if p == "" then OwnersOf(t, h) == {}
      else OwnersOf(t, h) == {p} || (OwnersOf(t, h) == {} && Used(t, p) == 0)
  }

  /**
   * Removal after a report credits one key. Usage stays exact if and only if
   * that key was the only owner: every other owner goes on being charged.
   */
  lemma ReportedConservesExactlyWhen(t: Tables, h: Hash, t': Tables)
    requires Sound(t) && Conserved(t) && h in t.blobs && h.length > 0
    requires var p, gone := t.blobs[h].uploader, Sql.DeleteBlob(t, h);
             t' == if p != "" then DecrementUsage(gone, p, h.length) else gone
    ensures Conserved(t') <==> OnlyUploaderPays(t, h)
  {
    var p, gone := t.blobs[h].uploader, Sql.DeleteBlob(t, h);
    forall u
      ensures Owned(t', u) == Used(t, u) - (if u in OwnersOf(t, h) then h.length else 0)
      ensures Owned(t', u) >= 0
      ensures Used(t', u) == if u == p != "" then Max(0, Used(t, u) - h.length) else Used(t, u)
    {
      assert u in OwnersOf(t, h) <==> (u, h) in t.refs;
      OwnedDeleteBlob(t, h, u);
      OwnedSame(gone, t', u);
      LengthsNonNegative(BlobsOf(t', u));
    }
    if Conserved(t') {
      forall u | u in OwnersOf(t, h) ensures u == p != "" {
        assert Used(t', u) == Owned(t', u);
      }
      if OwnersOf(t, h) == {} && p != "" {
        assert Used(t', p) == Owned(t', p);
      } else if p != "" {
        assert OwnersOf(t, h) == {p};
      }
    }
  }

  lemma OneRowComes(t: Tables, t': Tables, i: Item)
    requires t'.blobs.Keys == t.blobs.Keys + {i.h} && (i.h !in t.blobs ==> t'.blobs[i.h] == i.row)
    ensures RowsCome(t, t', [i])
  {
    forall h | h in t'.blobs && h !in t.blobs ensures exists j :: j in [i] && j.h == h && SameRow(t'.blobs[h], j.row) {
      assert i in [i];
    }
  }

  /** Rows that stay and rows that come keep the relation of size and length. */
  lemma RowsStayOk(t: Tables, t': Tables, o: Operation)
    requires RowsKept(t, t') && RowsCome(t, t', o.Files()) && o.Ok()
    ensures NeverShrinks(t) ==> NeverShrinks(t')
    ensures AllPlain(t) && o.Plain() ==> AllPlain(t')
  {
    forall h | h in t'.blobs && h !in t.blobs
      ensures h.length <= t'.blobs[h].size && (o.Plain() ==> t'.blobs[h].size == h.length)
    {
      var i :| i in o.Files() && i.h == h && SameRow(t'.blobs[h], i.row);
      assert ItemOk(i);
    }
  }

  // ----- loops over files, hashes and owners --------------------------------

  /** A change of usage alone moves neither references nor rows. */
  lemma UsageOnly(t0: Tables, t: Tables, t': Tables, items: seq<Item>)
    requires t' == t.(users := t'.users)
    ensures forall u :: Owned(t', u) == Owned(t, u)
    ensures RowsKept(t0, t') == RowsKept(t0, t) && RowsCome(t0, t', items) == RowsCome(t0, t, items)
    ensures forall h :: HasOwner(t', h) == HasOwner(t, h)
  {
    forall u ensures Owned(t', u) == Owned(t, u) {
      OwnedSame(t, t', u);
    }
  }

  /** A batch upload that started at `t0` after these items: saved, not charged yet. */
  ghost predicate BatchSaved(t0: Tables, t: Tables, p: Pubkey, items: seq<Item>, charge: nat) {
    Referenced(t0, t, p, items, charge) && RowsCome(t0, t, items)
  }

  ghost predicate Referenced(t0: Tables, t: Tables, p: Pubkey, items: seq<Item>, charge: nat) {
    && Sound(t) && t.users == t0.users
    && t.refs == t0.refs + (set i | i in items :: (p, i.h))
    && t.blobs.Keys == t0.blobs.Keys + (set i | i in items :: i.h)
    && RowsKept(t0, t)
    && OwnsMore(t0, t, p, charge)
  }

  /** Only `p` owns more than before, by n bytes. */
  ghost predicate OwnsMore(t: Tables, t': Tables, p: Pubkey, n: int) {
    forall u :: Owned(t', u) == Owned(t, u) + if u == p then n else 0
  }

  /** What one save of a batch does. */
  ghost predicate SavedOne(t: Tables, t': Tables, p: Pubkey, i: Item, newReference: bool) {
    && Sound(t') && t'.users == t.users
    && (newReference <==> (p, i.h) !in t.refs)
    && t'.refs == t.refs + {(p, i.h)} && t'.blobs.Keys == t.blobs.Keys + {i.h}
    && RowsKept(t, t') && (i.h !in t.blobs ==> t'.blobs[i.h] == i.row)
  }

  lemma NothingSaved(t: Tables, p: Pubkey)
    requires Sound(t)
    ensures BatchSaved(t, t, p, [], 0)
  {
    var none: seq<Item> := [];
    assert (set i | i in none :: (p, i.h)) == {} && (set i | i in none :: i.h) == {};
  }

  lemma BatchSavedOneMore(
    t0: Tables, t: Tables, t': Tables, p: Pubkey, items: seq<Item>, i: Item, charge: nat, newReference: bool)
    requires BatchSaved(t0, t, p, items, charge) && SavedOne(t, t', p, i, newReference)
    ensures BatchSaved(t0, t', p, items + [i], charge + if newReference then i.h.length else 0)
  {
    ReferencedOneMore(t0, t, t', p, items, i, charge, newReference);
    RowsComeToo(t0, t, t', items, i);
  }

  lemma ReferencedOneMore(
    t0: Tables, t: Tables, t': Tables, p: Pubkey, items: seq<Item>, i: Item, charge: nat, newReference: bool)
    requires Referenced(t0, t, p, items, charge) && SavedOne(t, t', p, i, newReference)
    ensures Referenced(t0, t', p, items + [i], charge + if newReference then i.h.length else 0)
  {
    RowsKeptToo(t0, t, t');
    OwnsOneMore(t0, t, t', p, i.h, charge);
    ImagesGrow(p, items, i);
  }

  lemma RowsKeptToo(t0: Tables, t: Tables, t': Tables)
    requires RowsKept(t0, t) && RowsKept(t, t')
    requires forall h :: h in t0.blobs && h in t'.blobs ==> h in t.blobs
    ensures RowsKept(t0, t')
  {
  }

  lemma OwnsOneMore(t0: Tables, t: Tables, t': Tables, p: Pubkey, h: Hash, n: int)
    requires OwnsMore(t0, t, p, n) && t'.refs == t.refs + {(p, h)}
    ensures OwnsMore(t0, t', p, n + if (p, h) in t.refs then 0 else h.length)
  {
    if (p, h) in t.refs {
      assert t'.refs == t.refs;
      forall u ensures Owned(t', u) == Owned(t, u) {
        OwnedSame(t, t', u);
      }
    } else {
      OwnedAdd(t, t', p, h);
    }
  }

  lemma ImagesGrow(p: Pubkey, items: seq<Item>, i: Item)
    ensures (set j | j in items + [i] :: (p, j.h)) == (set j | j in items :: (p, j.h)) + {(p, i.h)}
    ensures (set j | j in items + [i] :: j.h) == (set j | j in items :: j.h) + {i.h}
  {
    assert forall j :: j in items + [i] <==> j in items || j == i;
  }

  /** A batch delete that started at `t0` after these hashes: removed, not credited yet. */
  ghost predicate BatchRemoved(t0: Tables, t: Tables, p: Pubkey, hs: seq<Hash>, freed: nat) {
    && Sound(t) && t.users == t0.users
    && t.refs == t0.refs - (set h | h in hs :: (p, h))
    && RowsKept(t0, t) && RowsGone(t0, t, p, hs)
    && OwnsMore(t0, t, p, -(freed as int))
  }

  /** The rows that went are those of removed references that had no other owner. */
  ghost predicate RowsGone(t0: Tables, t: Tables, p: Pubkey, hs: seq<Hash>) {
    forall h :: h in t.blobs <==> h in t0.blobs && (h in hs && (p, h) in t0.refs ==> HasOwner(t, h))
  }

  lemma BatchRemovedOneMore(t0: Tables, t: Tables, p: Pubkey, hs: seq<Hash>, h: Hash, freed: nat)
    requires Sound(t0) && BatchRemoved(t0, t, p, hs, freed)
    ensures (p, h) in t.refs ==> BatchRemoved(t0, RemoveReference(t, p, h).0, p, hs + [h], freed + h.length)
    ensures (p, h) !in t.refs ==> BatchRemoved(t0, t, p, hs + [h], freed)
  {
    assert (set g | g in hs + [h] :: (p, g)) == (set g | g in hs :: (p, g)) + {(p, h)} by {
      assert forall g :: g in hs + [h] <==> g in hs || g == h;
    }
    if (p, h) in t.refs {
      var t' := RemoveReference(t, p, h).0;
      RemovalShrinksOwners(t, p, h);
      RemovalKeepsOthers(t, p, h);
      RowsKeptToo(t0, t, t');
      OwnsOneLess(t0, t, t', p, h, -(freed as int));
      RowsGoneToo(t0, t, t', p, hs, h);
    } else {
      assert t.refs - {(p, h)} == t.refs;
      assert (p, h) in t0.refs ==> h in hs;
    }
  }

  lemma OwnsOneLess(t0: Tables, t: Tables, t': Tables, p: Pubkey, h: Hash, n: int)
    requires OwnsMore(t0, t, p, n) && (p, h) in t.refs && t'.refs == t.refs - {(p, h)}
    ensures OwnsMore(t0, t', p, n - h.length)
  {
    OwnedRemove(t, t', p, h);
  }

  lemma RowsGoneToo(t0: Tables, t: Tables, t': Tables, p: Pubkey, hs: seq<Hash>, h: Hash)
    requires RowsGone(t0, t, p, hs) && (p, h) in t0.refs && h in t.blobs && (h in t'.blobs <==> HasOwner(t', h))
    requires forall g :: g != h ==> (g in t'.blobs <==> g in t.blobs) && HasOwner(t', g) == HasOwner(t, g)
    ensures RowsGone(t0, t', p, hs + [h])
  {
    assert forall g :: g in hs + [h] <==> g in hs || g == h;
  }

  /** An admin delete that started at `t0` with some of the owners removed. */
  ghost predicate OwnersRemoved(t0: Tables, t: Tables, h: Hash, removed: set<Pubkey>, todo: set<Pubkey>) {
    && Sound(t) && todo == OwnersOf(t, h)
    && t.refs == t0.refs - (set p | p in removed :: (p, h))
    && t.blobs.Keys - {h} == t0.blobs.Keys - {h} && RowsKept(t0, t)
  }

  lemma OwnersRemovedOneMore(t0: Tables, t: Tables, h: Hash, removed: set<Pubkey>, todo: set<Pubkey>, p: Pubkey)
    requires OwnersRemoved(t0, t, h, removed, todo) && p in todo
    ensures var t' := RemoveReference(t, p, h).0; var t'' := DecrementUsage(t', p, h.length);
            && OwnersRemoved(t0, t'', h, removed + {p}, todo - {p})
            && (Conserved(t) ==> Conserved(t'') && Clamped(t', p, h.length) == 0)
  {
    assert (p, h) in t.refs;
    RemovalShrinksOwners(t, p, h);
    RemovalKeepsOthers(t, p, h);
    CreditRemoval(t, RemoveReference(t, p, h).0, p, h);
  }

  lemma RowsComeToo(t: Tables, before: Tables, after: Tables, items: seq<Item>, i: Item)
    requires RowsCome(t, before, items) && RowsKept(before, after)
    requires after.blobs.Keys == before.blobs.Keys + {i.h} && (i.h !in before.blobs ==> after.blobs[i.h] == i.row)
    ensures RowsCome(t, after, items + [i])
  {
    forall h | h in after.blobs && h !in t.blobs
      ensures exists j :: j in items + [i] && j.h == h && SameRow(after.blobs[h], j.row)
    {
      if h in before.blobs {
        var j :| j in items && j.h == h && SameRow(before.blobs[h], j.row);
        assert j in items + [i];
      } else {
        assert i in items + [i];
      }
    }
  }

  lemma RemovalKeepsOthers(t: Tables, p: Pubkey, h: Hash)
    requires Sound(t) && (p, h) in t.refs
    ensures var t' := RemoveReference(t, p, h).0;
            && RowsKept(t, t')
            && (h in t'.blobs <==> HasOwner(t', h))
            && forall g :: g != h ==> (g in t'.blobs <==> g in t.blobs) && HasOwner(t', g) == HasOwner(t, g)
  {
    var t' := RemoveReference(t, p, h).0;
    forall g | g != h ensures HasOwner(t', g) == HasOwner(t, g) {
      if HasOwner(t, g) {
        var r :| r in t.refs && r.1 == g;
        assert r in t'.refs;
      }
    }
  }

  /** Crediting the length of a removed reference restores conservation, and the clamp does not fire. */
  lemma CreditRemoval(t: Tables, t': Tables, p: Pubkey, h: Hash)
    requires Sound(t) && (p, h) in t.refs && t' == RemoveReference(t, p, h).0
    ensures Conserved(t) ==>
              && Conserved(DecrementUsage(t', p, h.length))
              && Clamped(t', p, h.length) == 0
              && Used(DecrementUsage(t', p, h.length), p) == Used(t, p) - h.length
  {
    OwnedRemove(t, t', p, h);
    LengthsNonNegative(BlobsOf(t', p));
    forall u ensures Owned(DecrementUsage(t', p, h.length), u) == Owned(t', u) {
      OwnedSame(t', DecrementUsage(t', p, h.length), u);
    }
  }

  /** A whole delete: the reference goes, the row with the last one, and usage with what was charged. */
  lemma RemovedAndCredited(t: Tables, p: Pubkey, h: Hash)
    requires Sound(t) && (p, h) in t.refs
    ensures var t' := RemoveReference(t, p, h).0; var t'' := DecrementUsage(t', p, h.length);
            && Sound(t'') && t''.refs == t.refs - {(p, h)} && RowsKept(t, t'')
            && (h in t''.blobs <==> HasOwner(t'', h))
            && (forall g :: g != h ==> (g in t''.blobs <==> g in t.blobs))
            && (Conserved(t) ==> Conserved(t'') && Clamped(t', p, h.length) == 0)
            && (Conserved(t) ==> forall u :: Used(t'', u) == Used(t, u) - if u == p then h.length else 0)
  {
    RemovalShrinksOwners(t, p, h);
    RemovalKeepsOthers(t, p, h);
    CreditRemoval(t, RemoveReference(t, p, h).0, p, h);
  }

  lemma RemovalShrinksOwners(t: Tables, p: Pubkey, h: Hash)
    requires Sound(t) && (p, h) in t.refs
    ensures var t' := RemoveReference(t, p, h).0;
            && Sound(t')
            && OwnersOf(t', h) == OwnersOf(t, h) - {p}
            && t'.refs == t.refs - {(p, h)}
            && t'.blobs.Keys - {h} == t.blobs.Keys - {h}
  {
    var t' := RemoveReference(t, p, h).0;
    forall q ensures q in OwnersOf(t', h) <==> q in OwnersOf(t, h) - {p} {
      assert (q, h) in t'.refs <==> (q, h) in t.refs && q != p;
    }
  }

  lemma DeletingOwnerlessIsNeutral(t: Tables, h: Hash)
    requires Sound(t) && h in t.blobs && OwnersOf(t, h) == {}
    ensures var t' := Sql.DeleteBlob(t, h);
            && Sound(t') && t'.refs == t.refs && t'.blobs.Keys == t.blobs.Keys - {h}
            && (Conserved(t) ==> Conserved(t'))
  {
    var t' := Sql.DeleteBlob(t, h);
    forall r | r in t.refs ensures r.1 != h {
      assert r.1 == h ==> r.0 in OwnersOf(t, h);
    }
    assert t'.refs == t.refs;
    forall u ensures Owned(t', u) == Owned(t, u) {
      OwnedSame(t, t', u);
    }
  }

  /** The state of a sweep that started at `t0` after the rows of `done`. */
  ghost predicate Swept(t0: Tables, done: seq<Hash>, t: Tables, freed: map<Pubkey, nat>) {
    && t == Tables(t0.blobs - (set h | h in done), (set r | r in t0.refs && r.1 !in done), t0.users)
    && (forall u :: (if u in freed then freed[u] else 0) == StoredFreed(t0, done, u))
    && (forall u :: Owned(t, u) == Owned(t0, u) - ChargedFreed(t0, done, u))
  }

  lemma SweepOne(t0: Tables, done: seq<Hash>, t: Tables, freed: map<Pubkey, nat>, h: Hash)
    requires Sound(t0) && Swept(t0, done, t, freed) && h in t0.blobs && h !in done
    ensures h in t.blobs && t.blobs[h] == t0.blobs[h]
    ensures Swept(t0, done + [h], Sql.DeleteBlob(t, h), FreeTo(freed, OwnersOf(t, h), t.blobs[h].size))
  {
    var t' := Sql.DeleteBlob(t, h);
    var freed' := FreeTo(freed, OwnersOf(t, h), t.blobs[h].size);
    assert t'.blobs == t0.blobs - (set g | g in done + [h]);
    assert t'.refs == set r | r in t0.refs && r.1 !in done + [h];
    forall u
      ensures (if u in freed' then freed'[u] else 0) == StoredFreed(t0, done + [h], u)
      ensures Owned(t', u) == Owned(t0, u) - ChargedFreed(t0, done + [h], u)
    {
      assert (u, h) in t.refs <==> (u, h) in t0.refs;
      assert u in OwnersOf(t, h) <==> (u, h) in t.refs;
      OwnedDeleteBlob(t, h, u);
      SumAppend(done, h, StoredSize(t0, u));
      SumAppend(done, h, ChargedSize(t0, u));
    }
  }

  // ----- when the stored size is what usage is measured by ------------------

  lemma {:induction false} FreedBounds(t: Tables, hs: seq<Hash>, u: Pubkey)
    requires Sound(t) && NeverShrinks(t)
    ensures 0 <= ChargedFreed(t, hs, u) <= StoredFreed(t, hs, u)
    ensures ChargedFreed(t, hs, u) == StoredFreed(t, hs, u) <==>
            forall h :: h in hs && (u, h) in t.refs ==> StoredPlain(t, h)
  {
    if hs != [] {
      FreedBounds(t, hs[1..], u);
      assert forall h :: h in hs <==> h == hs[0] || h in hs[1..];
    }
  }

  lemma {:induction false} ChargedFreedIsOwnedPart(t: Tables, hs: seq<Hash>, u: Pubkey, rest: set<Hash>)
    requires Distinct(hs) && rest <= BlobsOf(t, u)
    requires forall h :: h in hs && (u, h) in t.refs ==> h in rest
    ensures ChargedFreed(t, hs, u) <= SetSum(rest, Length())
    decreases |hs|
  {
    LengthsNonNegative(rest);
    if hs != [] {
      var h := hs[0];
      if (u, h) in t.refs {
        SetSumRemove(rest, h, Length());
        forall g | g in hs[1..] && (u, g) in t.refs ensures g in rest - {h} {
          assert g in hs;
          var k :| 0 <= k < |hs| - 1 && hs[1..][k] == g;
          assert hs[k + 1] != hs[0];
        }
        ChargedFreedIsOwnedPart(t, hs[1..], u, rest - {h});
      } else {
        forall g | g in hs[1..] && (u, g) in t.refs ensures g in rest {
          assert g in hs;
        }
        ChargedFreedIsOwnedPart(t, hs[1..], u, rest);
      }
    }
  }

  lemma {:induction false} PlainFreed(t: Tables, hs: seq<Hash>, u: Pubkey)
    requires Sound(t) && forall h :: h in hs ==> StoredPlain(t, h)
    ensures StoredFreed(t, hs, u) == ChargedFreed(t, hs, u)
  {
    if hs != [] {
      assert hs[0] in hs;
      PlainFreed(t, hs[1..], u);
    }
  }

  /** A sweep over blobs stored as they were sent credits what was charged, and no more than is used. */
  lemma PlainExpiryIsExact(t: Tables, expired: seq<Hash>)
    requires Sound(t) && Conserved(t) && Distinct(expired) && forall h :: h in expired ==> StoredPlain(t, h)
    ensures forall u :: StoredFreed(t, expired, u) == ChargedFreed(t, expired, u) <= Used(t, u)
  {
    forall u ensures StoredFreed(t, expired, u) == ChargedFreed(t, expired, u) <= Used(t, u) {
      PlainFreed(t, expired, u);
      forall h | h in expired && (u, h) in t.refs ensures h in BlobsOf(t, u) {
      }
      ChargedFreedIsOwnedPart(t, expired, u, BlobsOf(t, u));
    }
  }

  lemma PlainSweepIsExact(t: Tables, expired: seq<Hash>, t': Tables, freed: map<Pubkey, nat>)
    requires Sound(t) && Conserved(t) && Distinct(expired) && forall h :: h in expired ==> StoredPlain(t, h)
    requires Swept(t, expired, t', freed)
    ensures forall u :: u in freed ==> freed[u] <= Used(t', u)
    ensures forall u :: Owned(t', u) == Max(0, Used(t, u) - StoredFreed(t, expired, u))
  {
    PlainExpiryIsExact(t, expired);
    forall u | u in freed ensures freed[u] <= Used(t', u) {
      assert freed[u] == StoredFreed(t, expired, u);
    }
    forall u ensures Owned(t', u) == Max(0, Used(t, u) - StoredFreed(t, expired, u)) {
      assert StoredFreed(t, expired, u) == ChargedFreed(t, expired, u) <= Used(t, u);
    }
  }

  /** What CleanupExpired's contract says of usage: each owner is credited with stored sizes, clamped. */
  ghost predicate SweptUsage(t: Tables, expired: seq<Hash>, t': Tables) {
    && (forall u :: Owned(t', u) == Owned(t, u) - ChargedFreed(t, expired, u))
    && (forall u :: Used(t', u) == Max(0, Used(t, u) - StoredFreed(t, expired, u)))
  }

  /**
   * Expiration credits the stored size, not the charged one. A key's usage
   * stays exact if and only if none of its expired blobs is server-encrypted,
   * or else everything it is charged for expires, when the clamp hides the
   * difference.
   */
  lemma ExpirationConservesExactlyWhen(t: Tables, expired: seq<Hash>, t': Tables, u: Pubkey)
    requires Sound(t) && NeverShrinks(t) && Conserved(t) && Distinct(expired) && SweptUsage(t, expired, t')
    ensures Used(t', u) == Owned(t', u) <==>
            || (forall h :: h in expired && (u, h) in t.refs ==> StoredPlain(t, h))
            || ChargedFreed(t, expired, u) == Used(t, u)
  {
    FreedBounds(t, expired, u);
    forall h | h in expired && (u, h) in t.refs ensures h in BlobsOf(t, u) {
    }
    ChargedFreedIsOwnedPart(t, expired, u, BlobsOf(t, u));
  }

  function RowSize(t: Tables): Hash -> int {
    (h: Hash) => if h in t.blobs then t.blobs[h].size else 0
  }

  /** RecalculateUserUsage: the sum of stored sizes, for a user row that exists. */
  ghost function Recalculate(t: Tables, u: Pubkey): Tables {
    var total := SetSum(BlobsOf(t, u), RowSize(t));
    if u in t.users && total >= 0 then t.(users := t.users[u := total]) else t
  }

  lemma {:induction false} StoredSumBounds(t: Tables, hs: set<Hash>)
    requires Sound(t) && NeverShrinks(t) && forall h :: h in hs ==> h in t.blobs
    ensures SetSum(hs, Length()) <= SetSum(hs, RowSize(t))
    ensures SetSum(hs, Length()) == SetSum(hs, RowSize(t)) <==> forall h :: h in hs ==> StoredPlain(t, h)
  {
    if hs != {} {
      var h :| h in hs;
      SetSumRemove(hs, h, Length());
      SetSumRemove(hs, h, RowSize(t));
      StoredSumBounds(t, hs - {h});
      assert forall g :: g in hs <==> g == h || g in hs - {h};
    }
  }

  /**
   * Recalculating a key's usage changes nothing if and only if none of its
   * blobs is server-encrypted; otherwise it starts billing for ciphertext.
   */
  lemma RecalculateIsNoOpExactlyWhen(t: Tables, u: Pubkey)
    requires Sound(t) && NeverShrinks(t) && Conserved(t) && u in t.users
    ensures Recalculate(t, u) == t <==> forall h :: (u, h) in t.refs ==> StoredPlain(t, h)
  {
    forall h | h in BlobsOf(t, u) ensures h in t.blobs && (u, h) in t.refs {
    }
    StoredSumBounds(t, BlobsOf(t, u));
    LengthsNonNegative(BlobsOf(t, u));
    forall h | (u, h) in t.refs ensures h in BlobsOf(t, u) {
    }
    var total := SetSum(BlobsOf(t, u), RowSize(t));
    assert Used(t, u) == Owned(t, u);
    if total == t.users[u] {
      assert t.users[u := total] == t.users;
    } else {
      assert Recalculate(t, u).users[u] != t.users[u];
    }
  }

  // ----- inputs on which usage is not exact ---------------------------------

  /** A blob stored encrypted, 16 bytes longer than it is. */
  function Encrypted(h: Hash): Item {
    Item(h, Row("", h.length + 16, Some(h.length), 1))
  }

  function PlainItem(p: Pubkey, h: Hash): Item {
    Item(h, Row(p, h.length, None, 1))
  }

  lemma OwnsTwo(t: Tables, p: Pubkey, a: Hash, b: Hash)
    requires BlobsOf(t, p) == {a, b} && a != b
    ensures Owned(t, p) == a.length + b.length
  {
    SetSumRemove({a, b}, a, Length());
    assert {a, b} - {a} == {b};
    SetSumRemove({b}, b, Length());
    assert {b} - {b} == {};
  }

  lemma OwnsOne(t: Tables, p: Pubkey, h: Hash)
    requires BlobsOf(t, p) == {h}
    ensures Owned(t, p) == h.length && SetSum(BlobsOf(t, p), RowSize(t)) == RowSize(t)(h)
  {
    SetSumRemove({h}, h, Length());
    SetSumRemove({h}, h, RowSize(t));
    assert {h} - {h} == {};
  }

  lemma SumOfOne(h: Hash, f: Hash -> int)
    ensures Sum([h], f) == f(h)
  {
    assert [h][1..] == [];
  }

  lemma OneExpires(t: Tables, p: Pubkey, a: Hash, b: Hash, t': Tables)
    requires TwoUploaded(t, p, a, b) && SweptUsage(t, [a], t') && b.length >= 16
    ensures Owned(t', p) == b.length && Used(t', p) == b.length - 16
  {
    assert BlobsOf(t, p) == {a, b} by {
      assert (p, a) in t.refs && (p, b) in t.refs;
    }
    OwnsTwo(t, p, a, b);
    SumOfOne(a, StoredSize(t, p));
    SumOfOne(a, ChargedSize(t, p));
  }

  /** The tables after a key uploaded one blob encrypted and another plain. */
  ghost predicate TwoUploaded(t: Tables, p: Pubkey, a: Hash, b: Hash) {
    && Sound(t) && Conserved(t) && t.refs == {(p, a), (p, b)} && a != b
    && a in t.blobs && t.blobs[a].size == a.length + 16
  }

  lemma SecondUpload(t: Tables, t': Tables, p: Pubkey, a: Hash, b: Hash)
    requires t.refs == {(p, a)} && a in t.blobs && t.blobs[a].size == a.length + 16 && a != b
    requires Sound(t') && Conserved(t') && RowsKept(t, t')
    requires t'.refs == t.refs + {(p, b)} && t'.blobs.Keys == t.blobs.Keys + {b}
    ensures TwoUploaded(t', p, a, b)
  {
    assert SameRow(t'.blobs[a], t.blobs[a]);
  }

  method TwoUploads(p: Pubkey, a: Hash, b: Hash) returns (s: BlobServer)
    requires a != b
    ensures fresh(s) && TwoUploaded(s.db, p, a, b)
  {
    s := new BlobServer(true);
    var _ := s.UploadBlob(p, Encrypted(a));
    ghost var t := s.db;
    assert t.refs == {(p, a)};
    var _ := s.UploadBlob(p, PlainItem(p, b));
    SecondUpload(t, s.db, p, a, b);
  }

  /** From an empty server: one encrypted byte expires and takes 17 off the usage of a key that still owns 100. */
  method ExpiryOvercredits(p: Pubkey) returns (s: BlobServer)
    ensures fresh(s) && Owned(s.db, p) == 100 && Used(s.db, p) == 84
  {
    var a, b := Hash("a", 1), Hash("b", 100);
    assert a.length != b.length;
    s := TwoUploads(p, a, b);
    ghost var t := s.db;
    SweepOfOne(s, a);
    OneExpires(t, p, a, b, s.db);
  }

  method SweepOfOne(s: BlobServer, h: Hash)
    requires Sound(s.db) && h in s.db.blobs
    modifies s
    ensures SweptUsage(old(s.db), [h], s.db)
  {
    s.CleanupExpired([h]);
  }

  /** From an empty server with quotas disabled: a batch is not charged, though a single upload would be. */
  method BatchWithoutQuotaIsFree(p: Pubkey) returns (s: BlobServer)
    ensures fresh(s) && Owned(s.db, p) == 100 && Used(s.db, p) == 0
  {
    var b := Hash("b", 100);
    s := new BlobServer(false);
    var files := [PlainItem(p, b)];
    var _ := s.BatchUpload(p, files);
    assert BlobsOf(s.db, p) == {b} by {
      assert files[0] in files;
    }
    OwnsOne(s.db, p, b);
  }

  /** From an empty server: recalculating bills 17 bytes for one encrypted byte. */
  method RecalculateBillsCiphertext(p: Pubkey) returns (s: BlobServer)
    ensures fresh(s) && Used(s.db, p) == Owned(s.db, p) == 1 && Used(Recalculate(s.db, p), p) == 17
  {
    var a := Hash("a", 1);
    s := new BlobServer(true);
    var _ := s.UploadBlob(p, Encrypted(a));
    assert BlobsOf(s.db, p) == {a} by {
      assert s.db.refs == {(p, a)};
    }
    OwnsOne(s.db, p, a);
    assert p in s.db.users;
  }

  /** From an empty server: a blob of two owners is reported and removed, and the second goes on paying for it. */
  method ReportLeavesOwnersCharged(p: Pubkey, q: Pubkey) returns (s: BlobServer)
    requires p != q && p != ""
    ensures fresh(s) && Owned(s.db, q) == 0 && Used(s.db, q) == 100
  {
    var b := Hash("b", 100);
    s := new BlobServer(true);
    var _ := s.UploadBlob(p, PlainItem(p, b));
    var _ := s.UploadBlob(q, PlainItem(q, b));
    ghost var t := s.db;
    assert t.refs == {(p, b), (q, b)};
    s.RemoveReported(b);
    assert BlobsOf(s.db, q) == {};
  }
}
