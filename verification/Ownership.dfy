/**
 * Uploads, user, batch and admin deletes, garbage collection and expiration
 * racing on shared blob rows. A run is any sequence of events; each event is
 * one SQL statement or locked transaction of one call, or the failure of that
 * statement. A call that crashes is one that is never scheduled again.
 */
module Ownership {
  import opened Common
  import opened Tables

  // ----- calls --------------------------------------------------------------

  /** Where a SaveWithDedup is. The sizes are those of the descriptor it will return. */
  datatype SavePoint = Lookup | CheckRef(found: nat) | AddRef(found: nat) | Insert | FirstRef

  /** One file of an upload, and the row Save would insert for it. */
  datatype Item = Item(h: Hash, row: Row)

  datatype DeletePoint = GetBlob | CheckOwner(size: nat) | Remove(size: nat)

  datatype BatchPoint = BatchCheck | BatchSize | BatchRemove(size: nat)

  datatype AdminPoint =
    | Describe
    | ListOwners(size: nat)
    | NextOwner(size: nat, todo: set<Pubkey>)
    | RemoveOwner(size: nat, todo: set<Pubkey>, owner: Pubkey)
    | CreditOwner(size: nat, todo: set<Pubkey>, owner: Pubkey)
    | RecheckOwners
    | RecheckRow
    | ForceDelete

  /** A row of the expired-blob listing, which may be stale. */
  datatype Expired = Expired(h: Hash, size: nat, uploader: Pubkey)

  datatype SweepPoint = FindOwners | DeleteExpired(owners: set<Pubkey>)

  /**
   * `Upload` is UploadBlob when it has one item and a batch upload otherwise;
   * `charge` is what it will add to the key's usage. `Gc` starts from an
   * arbitrary listing, since its guarded delete must not trust it.
   */
  datatype Call =
    | Upload(p: Pubkey, items: seq<Item>, at: SavePoint, charge: nat)
    | Charging(p: Pubkey, amount: nat)
    | Delete(p: Pubkey, h: Hash, step: DeletePoint)
    | BatchDelete(p: Pubkey, hashes: seq<Hash>, point: BatchPoint, freed: nat)
    | Crediting(p: Pubkey, amount: nat)
    | Admin(h: Hash, where: AdminPoint)
    | Gc(listing: seq<Hash>)
    | Sweep(expired: seq<Expired>, stage: SweepPoint, freedBy: map<Pubkey, nat>)
    | Done

  /** The row describes its content, and encryption never stores fewer bytes than it was given. */
  ghost predicate ItemOk(i: Item) {
    i.row.DescriptorSize() == i.h.length <= i.row.size
  }

  /** The forms a call may start in. */
  ghost predicate Fresh(c: Call) {
    match c
    case Upload(_, items, at, charge) => at == Lookup && charge == 0 && forall i :: i in items ==> ItemOk(i)
    case Delete(_, _, step) => step == GetBlob
    case BatchDelete(_, _, point, freed) => point == BatchCheck && freed == 0
    case Admin(_, where) => where == Describe
    case Gc(_) => true
    case Sweep(_, stage, freedBy) => stage == FindOwners && freedBy == map[]
    case _ => false
  }

  // ----- one step of one call -----------------------------------------------

  datatype SaveResult = Goto(at: SavePoint) | Returned(size: nat, newReference: bool) | Failed

  /** One statement of SaveWithDedup. */
  function SaveStep(t: Tables, p: Pubkey, i: Item, at: SavePoint): (Tables, SaveResult) {
    match at
    case Lookup =>
      (t, Goto(if i.h in t.blobs then CheckRef(t.blobs[i.h].DescriptorSize()) else Insert))
    case CheckRef(found) =>
      (t, if (p, i.h) in t.refs then Returned(found, false) else Goto(AddRef(found)))
    case AddRef(found) =>
      var (t', added) := AddReference(t, p, i.h);
      (t', match added
           case Gone => Goto(Insert)
           case AlreadyOwned => Returned(found, false)
           case NewReference => Returned(found, true))
    case Insert =>
      (match InsertBlob(t, i.h, i.row)
       case None => (t, Failed)
       case Some(t') => (t', Goto(FirstRef)))
    case FirstRef =>
      var (t', r) := CreateReference(t, p, i.h);
      (t', match r
           case NoSuchBlob => Failed
           case Conflict => Returned(i.row.DescriptorSize(), false)
           case Inserted => Returned(i.row.DescriptorSize(), true))
  }

  function AfterSave(c: Call, r: SaveResult): Call
    requires c.Upload? && c.items != []
  {
    match r
    case Goto(at) => c.(at := at)
    case Returned(size, newReference) =>
      Upload(c.p, c.items[1..], Lookup, c.charge + if newReference then size else 0)
    case Failed => Upload(c.p, c.items[1..], Lookup, c.charge)
  }

  /** The next statement of a call; `pick` is the row a set-valued query yields next. */
  function Exec(t: Tables, c: Call, pick: Pubkey): (Tables, Call) {
    match c
    case Upload(p, items, at, charge) =>
      if items == [] then (t, if charge > 0 then Charging(p, charge) else Done)
      else var (t', r) := SaveStep(t, p, items[0], at); (t', AfterSave(c, r))
    case Charging(p, amount) => (IncrementUsage(t, p, amount), Done)
    case Delete(p, h, step) => ExecDelete(t, p, h, step)
    case BatchDelete(_, _, _, _) => ExecBatchDelete(t, c)
    case Crediting(p, amount) => (DecrementUsage(t, p, amount), Done)
    case Admin(h, where) => ExecAdmin(t, h, where, pick)
    case Gc(listing) =>
      if listing == [] then (t, Done) else (DeleteOwnerless(t, listing[0]).0, Gc(listing[1..]))
    case Sweep(_, _, _) => ExecSweep(t, c, pick)
    case Done => (t, Done)
  }

  function ExecDelete(t: Tables, p: Pubkey, h: Hash, step: DeletePoint): (Tables, Call) {
    match step
    case GetBlob => (t, if h in t.blobs then Delete(p, h, CheckOwner(t.blobs[h].DescriptorSize())) else Done)
    case CheckOwner(size) => (t, if (p, h) in t.refs then Delete(p, h, Remove(size)) else Done)
    case Remove(size) =>
      var (t', r) := RemoveReference(t, p, h);
      (t', if r.Removed? then Crediting(p, size) else Done)
  }

  function ExecBatchDelete(t: Tables, c: Call): (Tables, Call)
    requires c.BatchDelete?
  {
    if c.hashes == [] then (t, if c.freed > 0 then Crediting(c.p, c.freed) else Done)
    else
      var h := c.hashes[0];
      var next := c.(hashes := c.hashes[1..], point := BatchCheck);
      match c.point
      case BatchCheck => (t, if (c.p, h) in t.refs then c.(point := BatchSize) else next)
      case BatchSize =>
        // A failed lookup leaves the size at 0 and the removal goes ahead.
        (t, c.(point := BatchRemove(if h in t.blobs then t.blobs[h].DescriptorSize() else 0)))
      case BatchRemove(size) =>
        var (t', r) := RemoveReference(t, c.p, h);
        (t', if r.Removed? then next.(freed := c.freed + size) else next)
  }

  function ExecAdmin(t: Tables, h: Hash, where: AdminPoint, pick: Pubkey): (Tables, Call) {
    match where
    case Describe => (t, if h in t.blobs then Admin(h, ListOwners(t.blobs[h].DescriptorSize())) else Done)
    case ListOwners(size) => (t, Admin(h, NextOwner(size, OwnersOf(t, h))))
    case NextOwner(size, todo) =>
      if todo == {} then (t, Admin(h, RecheckOwners))
      else if pick !in todo then (t, Admin(h, where))
      else if (pick, h) in t.refs then (t, Admin(h, RemoveOwner(size, todo - {pick}, pick)))
      else (t, Admin(h, NextOwner(size, todo - {pick})))
    case RemoveOwner(size, todo, owner) =>
      var (t', r) := RemoveReference(t, owner, h);
      (t', Admin(h, if r.Removed? then CreditOwner(size, todo, owner) else NextOwner(size, todo)))
    case CreditOwner(size, todo, owner) =>
      (DecrementUsage(t, owner, size), Admin(h, NextOwner(size, todo)))
    case RecheckOwners => (t, if HasOwner(t, h) then Done else Admin(h, RecheckRow))
    case RecheckRow => (t, if h in t.blobs then Admin(h, ForceDelete) else Done)
    case ForceDelete => (DeleteBlob(t, h), Done)
  }

  function ExecSweep(t: Tables, c: Call, pick: Pubkey): (Tables, Call)
    requires c.Sweep?
  {
    if c.expired == [] then
      if c.freedBy == map[] then (t, Done)
      else if pick !in c.freedBy then (t, c)
      else (DecrementUsage(t, pick, c.freedBy[pick]), c.(freedBy := c.freedBy - {pick}))
    else
      var e := c.expired[0];
      match c.stage
      case FindOwners => (t, c.(stage := DeleteExpired(OwnersOf(t, e.h))))
      case DeleteExpired(owners) =>
        (DeleteBlob(t, e.h), Sweep(c.expired[1..], FindOwners, FreeTo(c.freedBy, owners, e.size)))
  }

  /** freedByOwner[o] += size for every owner o. */
  function FreeTo(freed: map<Pubkey, nat>, owners: set<Pubkey>, size: nat): map<Pubkey, nat> {
    map o | o in freed.Keys + owners ::
      (if o in freed then freed[o] else 0) + (if o in owners then size else 0)
  }

  /** What a call does when its next statement fails with a database error. */
  function OnError(c: Call, pick: Pubkey): Call {
    match c
    case Upload(p, items, at, charge) =>
      if items == [] then c
      else if at == Lookup then c.(at := Insert) // any lookup error is taken for absence
      else Upload(p, items[1..], Lookup, charge)
    case BatchDelete(p, hashes, point, freed) =>
      if hashes == [] then c
      else if point == BatchSize then c.(point := BatchRemove(0))
      else BatchDelete(p, hashes[1..], BatchCheck, freed)
    case Admin(h, CreditOwner(size, todo, _)) => Admin(h, NextOwner(size, todo))
    case Gc(listing) => if listing == [] then Done else Gc(listing[1..])
    case Sweep(expired, stage, freedBy) =>
      if expired == [] then c.(freedBy := freedBy - {pick})
      else if stage == FindOwners then
        c.(stage := DeleteExpired(if expired[0].uploader != "" then {expired[0].uploader} else {}))
      else Sweep(expired[1..], FindOwners, freedBy)
    case _ => Done
  }

  // ----- runs ---------------------------------------------------------------

  datatype State = State(db: Tables, calls: seq<Call>)

  datatype Event = Start(call: Call) | Run(i: nat, pick: Pubkey) | Fail(i: nat, pick: Pubkey)

  const INITIAL := State(EMPTY, [])

  ghost function Next(s: State, e: Event): State {
    match e
    case Start(c) => if Fresh(c) then s.(calls := s.calls + [c]) else s
    case Run(i, pick) =>
      if i < |s.calls| then
        var (db, c) := Exec(s.db, s.calls[i], pick);
        State(db, s.calls[i := c])
      else s
    case Fail(i, pick) =>
      if i < |s.calls| then s.(calls := s.calls[i := OnError(s.calls[i], pick)]) else s
  }

  ghost function After(s: State, es: seq<Event>): State
    decreases |es|
  {
    if es == [] then s else After(Next(s, es[0]), es[1..])
  }

  /** A run through named states. */
  lemma {:induction false} FollowTrace(states: seq<State>, es: seq<Event>)
    requires |states| == |es| + 1
    requires forall k :: 0 <= k < |es| ==> Next(states[k], es[k]) == states[k + 1]
    ensures After(states[0], es) == states[|es|]
    decreases |es|
  {
    if es != [] {
      assert Next(states[0], es[0]) == states[1];
      forall k | 0 <= k < |es| - 1 ensures Next(states[1..][k], es[1..][k]) == states[1..][k + 1] {
        assert Next(states[k + 1], es[k + 1]) == states[k + 2];
      }
      FollowTrace(states[1..], es[1..]);
    }
  }

  // ----- the invariant of every run -----------------------------------------

  ghost predicate SavePointOk(i: Item, at: SavePoint) {
    (at.CheckRef? || at.AddRef?) ==> at.found == i.h.length
  }

  ghost predicate CallOk(c: Call) {
    match c
    case Upload(_, items, at, _) =>
      (forall i :: i in items ==> ItemOk(i)) && (items == [] || SavePointOk(items[0], at))
    case Delete(_, h, step) => step.GetBlob? || step.size == h.length
    case BatchDelete(_, hashes, point, _) =>
      // Without a row to look at, the removal goes ahead with size 0.
      hashes != [] && point.BatchRemove? ==> point.size == 0 || point.size == hashes[0].length
    case Admin(h, where) =>
      (where.ListOwners? || where.NextOwner? || where.RemoveOwner? || where.CreditOwner?) ==> where.size == h.length
    case _ => true
  }

  ghost predicate Inv(s: State) {
    Sound(s.db) && forall i :: 0 <= i < |s.calls| ==> CallOk(s.calls[i])
  }

  lemma SaveKeepsOk(t: Tables, p: Pubkey, i: Item, at: SavePoint)
    requires Sound(t) && ItemOk(i) && SavePointOk(i, at)
    ensures Sound(SaveStep(t, p, i, at).0)
    ensures SaveStep(t, p, i, at).1.Goto? ==> SavePointOk(i, SaveStep(t, p, i, at).1.at)
  {
  }

  lemma RemovalKeepsOk(t: Tables, c: Call, pick: Pubkey)
    requires Sound(t) && CallOk(c) && (c.Delete? || c.BatchDelete? || c.Admin?)
    ensures Sound(Exec(t, c, pick).0) && CallOk(Exec(t, c, pick).1)
  {
  }

  lemma ExecKeepsOk(t: Tables, c: Call, pick: Pubkey)
    requires Sound(t) && CallOk(c)
    ensures Sound(Exec(t, c, pick).0) && CallOk(Exec(t, c, pick).1)
  {
    match c
    case Upload(p, items, at, _) =>
      if items != [] {
        assert ItemOk(items[0]);
        SaveKeepsOk(t, p, items[0], at);
      }
    case Delete(_, _, _) => RemovalKeepsOk(t, c, pick);
    case BatchDelete(_, _, _, _) => RemovalKeepsOk(t, c, pick);
    case Admin(_, _) => RemovalKeepsOk(t, c, pick);
    case _ =>
  }

  lemma NextKeepsInv(s: State, e: Event)
    requires Inv(s)
    ensures Inv(Next(s, e))
  {
    if e.Run? && e.i < |s.calls| {
      ExecKeepsOk(s.db, s.calls[e.i], e.pick);
    }
  }

  lemma {:induction false} RunsKeepInv(s: State, es: seq<Event>)
    requires Inv(s)
    ensures Inv(After(s, es))
    decreases |es|
  {
    if es != [] {
      NextKeepsInv(s, es[0]);
      RunsKeepInv(Next(s, es[0]), es[1..]);
    }
  }

  // ----- the reference ledger -----------------------------------------------

  /** The call an event runs a statement of, if any. */
  ghost predicate Runs(s: State, e: Event) {
    e.Run? && e.i < |s.calls|
  }

  /** This event is the step at which a SaveWithDedup for (p, h) reports newReference = true. */
  ghost predicate Charges(s: State, e: Event, p: Pubkey, h: Hash) {
    && Runs(s, e)
    && var c := s.calls[e.i];
    && c.Upload? && c.items != [] && c.p == p && c.items[0].h == h
    && var r := SaveStep(s.db, p, c.items[0], c.at).1;
    && r.Returned? && r.newReference
  }

  /** The reference a call's next statement asks DeleteReference to remove. */
  ghost predicate AsksToRemove(c: Call, p: Pubkey, h: Hash) {
    match c
    case Delete(q, g, step) => q == p && g == h && step.Remove?
    case BatchDelete(q, hashes, point, _) => hashes != [] && q == p && hashes[0] == h && point.BatchRemove?
    case Admin(g, where) => g == h && where.RemoveOwner? && where.owner == p
    case _ => false
  }

  /** This event is a DeleteReference of (p, h) that returns a nil error. */
  ghost predicate Credits(s: State, e: Event, p: Pubkey, h: Hash) {
    Runs(s, e) && AsksToRemove(s.calls[e.i], p, h) && RemoveReference(s.db, p, h).1.Removed?
  }

  /** A call's next statement deletes the row of `h` whether or not it has owners. */
  ghost predicate Forces(c: Call, h: Hash) {
    || (c.Admin? && c.h == h && c.where.ForceDelete?)
    || (c.Sweep? && c.expired != [] && c.expired[0].h == h && c.stage.DeleteExpired?)
  }

  /** This event removes the reference (p, h) only because the foreign key cascades. */
  ghost predicate Cascades(s: State, e: Event, p: Pubkey, h: Hash) {
    Runs(s, e) && Forces(s.calls[e.i], h) && (p, h) in s.db.refs
  }

  function One(b: bool): int { if b then 1 else 0 }

  ghost function Net(s: State, e: Event, p: Pubkey, h: Hash): int {
    One(Charges(s, e, p, h)) - One(Credits(s, e, p, h)) - One(Cascades(s, e, p, h))
  }

  /** Charges minus credits minus cascades over a run. */
  ghost function RunNet(s: State, es: seq<Event>, p: Pubkey, h: Hash): int
    decreases |es|
  {
    if es == [] then 0 else Net(s, es[0], p, h) + RunNet(Next(s, es[0]), es[1..], p, h)
  }

  lemma UploadLedger(s: State, e: Event, p: Pubkey, h: Hash)
    requires Inv(s) && Runs(s, e) && s.calls[e.i].Upload?
    ensures One((p, h) in Next(s, e).db.refs) == One((p, h) in s.db.refs) + Net(s, e, p, h)
  {
  }

  lemma RemovalLedger(s: State, e: Event, p: Pubkey, h: Hash)
    requires Inv(s) && Runs(s, e) && (s.calls[e.i].Delete? || s.calls[e.i].BatchDelete? || s.calls[e.i].Admin?)
    ensures One((p, h) in Next(s, e).db.refs) == One((p, h) in s.db.refs) + Net(s, e, p, h)
  {
  }

  lemma StepLedger(s: State, e: Event, p: Pubkey, h: Hash)
    requires Inv(s)
    ensures One((p, h) in Next(s, e).db.refs) == One((p, h) in s.db.refs) + Net(s, e, p, h)
  {
    if Runs(s, e) {
      match s.calls[e.i]
      case Upload(_, _, _, _) => UploadLedger(s, e, p, h);
      case Delete(_, _, _) => RemovalLedger(s, e, p, h);
      case BatchDelete(_, _, _, _) => RemovalLedger(s, e, p, h);
      case Admin(_, _) => RemovalLedger(s, e, p, h);
      case _ =>
    }
  }

  /**
   * Every charge that was reported is matched by one reference row, one credit
   * or one cascade: for every schedule, and for every key and hash.
   */
  lemma {:induction false} Ledger(s: State, es: seq<Event>, p: Pubkey, h: Hash)
    requires Inv(s)
    ensures One((p, h) in After(s, es).db.refs) == One((p, h) in s.db.refs) + RunNet(s, es, p, h)
    decreases |es|
  {
    if es != [] {
      StepLedger(s, es[0], p, h);
      NextKeepsInv(s, es[0]);
      Ledger(Next(s, es[0]), es[1..], p, h);
    }
  }

  ghost predicate Removes(s: State, e: Event, p: Pubkey, h: Hash) {
    Credits(s, e, p, h) || Cascades(s, e, p, h)
  }

  lemma {:induction false} NegativeNetHasRemoval(s: State, es: seq<Event>, p: Pubkey, h: Hash) returns (j: nat)
    requires RunNet(s, es, p, h) < 0
    ensures j < |es| && Removes(After(s, es[..j]), es[j], p, h)
    decreases |es|
  {
    if Net(s, es[0], p, h) < 0 {
      j := 0;
    } else {
      var k := NegativeNetHasRemoval(Next(s, es[0]), es[1..], p, h);
      j := k + 1;
      assert es[..j][1..] == es[1..][..k];
    }
  }

  lemma {:induction false} PositiveNetHasCharge(s: State, es: seq<Event>, p: Pubkey, h: Hash) returns (j: nat)
    requires RunNet(s, es, p, h) > 0
    ensures j < |es| && Charges(After(s, es[..j]), es[j], p, h)
    decreases |es|
  {
    if Net(s, es[0], p, h) > 0 {
      j := 0;
    } else {
      var k := PositiveNetHasCharge(Next(s, es[0]), es[1..], p, h);
      j := k + 1;
      assert es[..j][1..] == es[1..][..k];
    }
  }

  lemma {:induction false} AfterConcat(s: State, a: seq<Event>, b: seq<Event>)
    ensures After(s, a + b) == After(After(s, a), b)
    decreases |a|
  {
    if a == [] {
      assert a + b == b;
    } else {
      assert (a + b)[1..] == a[1..] + b;
      AfterConcat(Next(s, a[0]), a[1..], b);
    }
  }

  /**
   * A key is charged at most once per continuous ownership: between two
   * charges for (p, h) the reference was removed. Finalizing a completed tus
   * upload again, or saving the same blob twice, is the case with no removal.
   */
  lemma ChargesAreSeparatedByRemoval(s: State, first: Event, between: seq<Event>, second: Event, p: Pubkey, h: Hash)
    returns (j: nat)
    requires Inv(s)
    requires Charges(s, first, p, h)
    requires Charges(After(Next(s, first), between), second, p, h)
    ensures j < |between| && Removes(After(Next(s, first), between[..j]), between[j], p, h)
  {
    var s1 := Next(s, first);
    StepLedger(s, first, p, h);
    NextKeepsInv(s, first);
    Ledger(s1, between, p, h);
    j := NegativeNetHasRemoval(s1, between, p, h);
  }

  /** A key is credited at most once per charge: between two removals of (p, h) it was charged again. */
  lemma RemovalsAreSeparatedByCharge(s: State, first: Event, between: seq<Event>, second: Event, p: Pubkey, h: Hash)
    returns (j: nat)
    requires Inv(s)
    requires Removes(s, first, p, h)
    requires Removes(After(Next(s, first), between), second, p, h)
    ensures j < |between| && Charges(After(Next(s, first), between[..j]), between[j], p, h)
  {
    var s1 := Next(s, first);
    StepLedger(s, first, p, h);
    NextKeepsInv(s, first);
    Ledger(s1, between, p, h);
    j := PositiveNetHasCharge(s1, between, p, h);
  }

  // ----- what may remove a row or a reference -------------------------------

  /** A SaveWithDedup that returns a nil error had both the row and its own reference at that step. */
  lemma SaveReturnsOwnedBlob(t: Tables, p: Pubkey, i: Item, at: SavePoint)
    requires Sound(t) && ItemOk(i) && SavePointOk(i, at)
    requires SaveStep(t, p, i, at).1.Returned?
    ensures var (t', r) := SaveStep(t, p, i, at);
            && i.h in t'.blobs && (p, i.h) in t'.refs
            && r.size == i.h.length
            && (r.newReference <==> (p, i.h) !in t.refs)
  {
  }

  /**
   * A save that meets no database error fails only where it lost a race: on a
   * row that another upload has inserted, or that a delete has taken away,
   * since the save looked.
   */
  lemma SaveFailsExactlyWhen(t: Tables, p: Pubkey, i: Item, at: SavePoint)
    requires Sound(t)
    ensures SaveStep(t, p, i, at).1.Failed? <==>
            (at.Insert? && i.h in t.blobs) || (at.FirstRef? && i.h !in t.blobs)
  {
  }

  /** Only a delete by its own key, or a forced delete of its blob, takes a reference away. */
  lemma ReferencesOfOthersStay(s: State, e: Event, p: Pubkey, h: Hash)
    requires Inv(s) && (p, h) in s.db.refs
    ensures (p, h) !in Next(s, e).db.refs <==> Removes(s, e, p, h)
    ensures !Removes(s, e, p, h) ==> h in Next(s, e).db.blobs
  {
    StepLedger(s, e, p, h);
    NextKeepsInv(s, e);
  }

  /**
   * A row goes away only when garbage collection finds it ownerless, when its
   * one owner is credited for removing it, or by a forced delete. Its
   * ref_count plays no part.
   */
  lemma RowRemovedOnlyWhenUnowned(s: State, e: Event, h: Hash)
    requires Inv(s) && h in s.db.blobs && h !in Next(s, e).db.blobs
    ensures Runs(s, e)
    ensures || Forces(s.calls[e.i], h)
            || OwnersOf(s.db, h) == {}
            || exists p :: OwnersOf(s.db, h) == {p} && Credits(s, e, p, h)
  {
    if !Forces(s.calls[e.i], h) && OwnersOf(s.db, h) != {} {
      var p :| p in OwnersOf(s.db, h);
      assert (p, h) in s.db.refs;
      NextKeepsInv(s, e);
      forall q | (q, h) in s.db.refs ensures Credits(s, e, q, h) {
        ReferencesOfOthersStay(s, e, q, h);
      }
      assert OwnersOf(s.db, h) == {p};
    }
  }

  // ----- ref_count is never read --------------------------------------------

  ghost predicate SameButRefCounts(t: Tables, t': Tables) {
    && t.refs == t'.refs && t.users == t'.users && t.blobs.Keys == t'.blobs.Keys
    && forall h :: h in t.blobs ==> t'.blobs[h] == t.blobs[h].(refCount := t'.blobs[h].refCount)
  }

  ghost predicate Bisimilar(s: State, s': State) {
    SameButRefCounts(s.db, s'.db) && s.calls == s'.calls
  }

  lemma QueriesBisimilar(t: Tables, t': Tables, h: Hash)
    requires SameButRefCounts(t, t')
    ensures HasOwner(t, h) == HasOwner(t', h) && OwnersOf(t, h) == OwnersOf(t', h)
    ensures SameButRefCounts(DeleteOwnerless(t, h).0, DeleteOwnerless(t', h).0)
    ensures SameButRefCounts(DeleteBlob(t, h), DeleteBlob(t', h))
  {
  }

  lemma RemovalBisimilar(t: Tables, t': Tables, p: Pubkey, h: Hash)
    requires SameButRefCounts(t, t')
    ensures var (u, r) := RemoveReference(t, p, h); var (u', r') := RemoveReference(t', p, h);
            SameButRefCounts(u, u') && r == r'
  {
  }

  lemma SaveStepBisimilar(t: Tables, t': Tables, p: Pubkey, i: Item, at: SavePoint)
    requires SameButRefCounts(t, t')
    ensures var (u, r) := SaveStep(t, p, i, at); var (u', r') := SaveStep(t', p, i, at);
            SameButRefCounts(u, u') && r == r'
  {
  }

  lemma ExecDeleteBisimilar(t: Tables, t': Tables, c: Call, pick: Pubkey)
    requires SameButRefCounts(t, t') && (c.Delete? || c.BatchDelete?)
    ensures SameButRefCounts(Exec(t, c, pick).0, Exec(t', c, pick).0)
    ensures Exec(t, c, pick).1 == Exec(t', c, pick).1
  {
    if c.Delete? {
      RemovalBisimilar(t, t', c.p, c.h);
    } else if c.hashes != [] {
      RemovalBisimilar(t, t', c.p, c.hashes[0]);
    }
  }

  lemma ExecAdminBisimilar(t: Tables, t': Tables, c: Call, pick: Pubkey)
    requires SameButRefCounts(t, t') && c.Admin?
    ensures SameButRefCounts(Exec(t, c, pick).0, Exec(t', c, pick).0)
    ensures Exec(t, c, pick).1 == Exec(t', c, pick).1
  {
    if c.where.RemoveOwner? {
      RemovalBisimilar(t, t', c.where.owner, c.h);
    } else {
      QueriesBisimilar(t, t', c.h);
    }
  }

  lemma ExecSweepBisimilar(t: Tables, t': Tables, c: Call, pick: Pubkey)
    requires SameButRefCounts(t, t') && (c.Sweep? || c.Gc?)
    ensures SameButRefCounts(Exec(t, c, pick).0, Exec(t', c, pick).0)
    ensures Exec(t, c, pick).1 == Exec(t', c, pick).1
  {
    if c.Gc? && c.listing != [] {
      QueriesBisimilar(t, t', c.listing[0]);
    } else if c.Sweep? && c.expired != [] {
      QueriesBisimilar(t, t', c.expired[0].h);
    }
  }

  lemma ExecBisimilar(t: Tables, t': Tables, c: Call, pick: Pubkey)
    requires SameButRefCounts(t, t')
    ensures SameButRefCounts(Exec(t, c, pick).0, Exec(t', c, pick).0)
    ensures Exec(t, c, pick).1 == Exec(t', c, pick).1
  {
    match c
    case Upload(p, items, at, _) =>
      if items != [] {
        SaveStepBisimilar(t, t', p, items[0], at);
      }
    case Delete(_, _, _) => ExecDeleteBisimilar(t, t', c, pick);
    case BatchDelete(_, _, _, _) => ExecDeleteBisimilar(t, t', c, pick);
    case Admin(_, _) => ExecAdminBisimilar(t, t', c, pick);
    case Gc(_) => ExecSweepBisimilar(t, t', c, pick);
    case Sweep(_, _, _) => ExecSweepBisimilar(t, t', c, pick);
    case _ =>
  }

  /**
   * Two runs of the same events from states that differ only in ref_count stay
   * so: every call takes the same branches and gets the same results, so the
   * drift of ref_count that Save's unlocked reference insert causes is harmless.
   */
  lemma {:induction false} RefCountNeverMatters(s: State, s': State, es: seq<Event>)
    requires Bisimilar(s, s')
    ensures Bisimilar(After(s, es), After(s', es))
    decreases |es|
  {
    if es != [] {
      var e := es[0];
      if e.Run? && e.i < |s.calls| {
        ExecBisimilar(s.db, s'.db, s.calls[e.i], e.pick);
      }
      RefCountNeverMatters(Next(s, e), Next(s', e), es[1..]);
    }
  }
}
