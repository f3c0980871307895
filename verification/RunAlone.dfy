/**
 * The calls of Ownership whose statements meet no other event: each finishes,
 * whatever order its queries give the rows in, with what the operation of the
 * same name in BlobServer promises.
 */
module RunAlone {
  import opened Common
  import Sql = Tables
  import opened Tables
  import opened Ownership
  import opened BlobServer

  // ----- one call and nothing else ------------------------------------------

  /** A call's statements one after the other; `picks` are the rows its queries yield. */
  function Alone(t: Tables, c: Call, picks: seq<Pubkey>): (Tables, Call)
    decreases |picks|
  {
    if picks == [] then (t, c)
    else var (t', c') := Exec(t, c, picks[0]); Alone(t', c', picks[1..])
  }

  function RunsOf(i: nat, picks: seq<Pubkey>): seq<Event> {
    if picks == [] then [] else [Run(i, picks[0])] + RunsOf(i, picks[1..])
  }

  /** The call starts, and then only its own statements run. */
  ghost function AfterAlone(s: State, c: Call, picks: seq<Pubkey>): State {
    After(s, [Start(c)] + RunsOf(|s.calls|, picks))
  }

  lemma {:induction false} StatementsRun(s: State, i: nat, picks: seq<Pubkey>)
    requires i < |s.calls|
    ensures After(s, RunsOf(i, picks)) ==
            State(Alone(s.db, s.calls[i], picks).0, s.calls[i := Alone(s.db, s.calls[i], picks).1])
    decreases |picks|
  {
    if picks != [] {
      var s' := Next(s, Run(i, picks[0]));
      assert RunsOf(i, picks)[1..] == RunsOf(i, picks[1..]);
      StatementsRun(s', i, picks[1..]);
    }
  }

  lemma AloneIsARun(s: State, c: Call, picks: seq<Pubkey>)
    requires Fresh(c)
    ensures var (t, c') := Alone(s.db, c, picks); AfterAlone(s, c, picks) == State(t, s.calls + [c'])
  {
    var es := [Start(c)] + RunsOf(|s.calls|, picks);
    assert es[1..] == RunsOf(|s.calls|, picks);
    StatementsRun(Next(s, Start(c)), |s.calls|, picks);
  }

  lemma AloneAt(s: State, c: Call, picks: seq<Pubkey>, t: Tables, c': Call)
    requires Fresh(c) && AfterAlone(s, c, picks) == State(t, s.calls + [c'])
    ensures Alone(s.db, c, picks) == (t, c')
  {
    AloneIsARun(s, c, picks);
    assert (s.calls + [c'])[|s.calls|] == c' && (s.calls + [Alone(s.db, c, picks).1])[|s.calls|] == c';
  }

  // ----- every call finishes ------------------------------------------------

  function Phase(c: Call): nat {
    match c
    case Done => 0
    case Charging(_, _) => 1
    case Crediting(_, _) => 1
    case Admin(_, where) =>
      if where.Describe? || where.ListOwners? then 4
      else if where.RecheckOwners? then 2
      else if where.RecheckRow? || where.ForceDelete? then 1 else 3
    case Sweep(expired, _, _) => if expired == [] then 2 else 3
    case _ => 3
  }

  function Count(c: Call): nat {
    match c
    case Upload(_, items, _, _) => |items|
    case BatchDelete(_, hashes, _, _) => |hashes|
    case Gc(listing) => |listing|
    case Admin(_, where) =>
      if where.NextOwner? || where.RemoveOwner? || where.CreditOwner? then |where.todo| else 0
    case Sweep(expired, _, freedBy) => if expired == [] then |freedBy| else |expired|
    case _ => 0
  }

  function Rank(c: Call): nat {
    match c
    case Upload(_, _, at, _) =>
      (match at case Lookup => 5 case CheckRef(_) => 4 case AddRef(_) => 3 case Insert => 2 case FirstRef => 1)
    case Delete(_, _, step) => (match step case GetBlob => 3 case CheckOwner(_) => 2 case Remove(_) => 1)
    case BatchDelete(_, _, point, _) =>
      (match point case BatchCheck => 3 case BatchSize => 2 case BatchRemove(_) => 1)
    case Admin(_, where) =>
      if where.Describe? || where.CreditOwner? || where.RecheckRow? then 1 else if where.RemoveOwner? then 2 else 0
    case Sweep(_, stage, _) => if stage == FindOwners then 1 else 0
    case _ => 0
  }

  /** A row that the call's next query can yield. */
  lemma PickFor(c: Call) returns (pick: Pubkey)
    ensures c.Admin? && c.where.NextOwner? && c.where.todo != {} ==> pick in c.where.todo
    ensures c.Sweep? && c.expired == [] && c.freedBy != map[] ==> pick in c.freedBy
  {
    pick := "";
    if c.Admin? && c.where.NextOwner? && c.where.todo != {} {
      pick :| pick in c.where.todo;
    } else if c.Sweep? && c.freedBy != map[] {
      pick :| pick in c.freedBy;
    }
  }

  predicate Nearer(c: Call, c': Call) {
    || Phase(c') < Phase(c)
    || (Phase(c') == Phase(c) && (Count(c') < Count(c) || (Count(c') == Count(c) && Rank(c') < Rank(c))))
  }

  lemma StepGetsNearer(t: Tables, c: Call, pick: Pubkey)
    requires c != Done
    requires c.Admin? && c.where.NextOwner? && c.where.todo != {} ==> pick in c.where.todo
    requires c.Sweep? && c.expired == [] && c.freedBy != map[] ==> pick in c.freedBy
    ensures Nearer(c, Exec(t, c, pick).1)
  {
    if c.Admin? {
      AdminGetsNearer(t, c, pick);
    } else if c.BatchDelete? {
      BatchGetsNearer(t, c);
    }
  }

  lemma AdminGetsNearer(t: Tables, c: Call, pick: Pubkey)
    requires c.Admin? && (c.where.NextOwner? && c.where.todo != {} ==> pick in c.where.todo)
    ensures Nearer(c, ExecAdmin(t, c.h, c.where, pick).1)
  {
  }

  lemma BatchGetsNearer(t: Tables, c: Call)
    requires c.BatchDelete?
    ensures Nearer(c, ExecBatchDelete(t, c).1)
  {
  }

  /** Alone, every call comes to its end. */
  lemma {:induction false} Finishes(t: Tables, c: Call) returns (picks: seq<Pubkey>)
    ensures Alone(t, c, picks).1 == Done
    decreases Phase(c), Count(c), Rank(c)
  {
    picks := [];
    if c != Done {
      var pick := PickFor(c);
      StepGetsNearer(t, c, pick);
      var rest := Finishes(Exec(t, c, pick).0, Exec(t, c, pick).1);
      picks := [pick] + rest;
    }
  }

  lemma EveryCallFinishes(s: State, c: Call) returns (picks: seq<Pubkey>)
    requires Fresh(c)
    ensures AfterAlone(s, c, picks).calls == s.calls + [Done]
  {
    picks := Finishes(s.db, c);
    AloneIsARun(s, c, picks);
  }

  // ----- upload -------------------------------------------------------------

  /** Only `p` uses more than before, by `n` bytes. */
  ghost predicate UsesMore(t0: Tables, t: Tables, p: Pubkey, n: int) {
    forall u :: Used(t, u) == Used(t0, u) + if u == p then n else 0
  }

  /** Where an upload that started at `t0` is after saving the items before `rest`. */
  ghost predicate Saving(
    t0: Tables, t: Tables, p: Pubkey, done: seq<Item>, rest: seq<Item>, at: SavePoint, charge: nat)
  {
    match at
    case Lookup => BatchSaved(t0, t, p, done, charge)
    case CheckRef(found) =>
      BatchSaved(t0, t, p, done, charge) && rest != [] && rest[0].h in t.blobs && found == rest[0].h.length
    case AddRef(found) =>
      && BatchSaved(t0, t, p, done, charge) && rest != [] && rest[0].h in t.blobs && found == rest[0].h.length
      && (p, rest[0].h) !in t.refs
    case Insert => BatchSaved(t0, t, p, done, charge) && rest != [] && rest[0].h !in t.blobs
    case FirstRef =>
      && rest != [] && rest[0].h in t.blobs && t.blobs[rest[0].h] == rest[0].row
      && BatchSaved(t0, t.(blobs := t.blobs - {rest[0].h}), p, done, charge)
  }

  ghost predicate MidUpload(t0: Tables, t: Tables, p: Pubkey, items: seq<Item>, c: Call) {
    match c
    case Upload(q, rest, at, charge) =>
      && q == p && |rest| <= |items| && rest == items[|items| - |rest|..]
      && Saving(t0, t, p, items[..|items| - |rest|], rest, at, charge)
    case Charging(q, n) => q == p && n > 0 && BatchSaved(t0, t, p, items, n)
    case Done =>
      var n := Owned(t, p) - Owned(t0, p);
      n >= 0 && BatchSaved(t0, t.(users := t0.users), p, items, n) && UsesMore(t0, t, p, n)
    case _ => false
  }

  /** An item whose reference the key had already. */
  lemma SavedBefore(t0: Tables, t: Tables, p: Pubkey, done: seq<Item>, i: Item, charge: nat)
    requires BatchSaved(t0, t, p, done, charge) && (p, i.h) in t.refs
    ensures BatchSaved(t0, t, p, done + [i], charge)
  {
    assert t.refs == t.refs + {(p, i.h)} && t.blobs.Keys == t.blobs.Keys + {i.h};
    BatchSavedOneMore(t0, t, t, p, done, i, charge, false);
  }

  /** An item whose row was there. */
  lemma ReferenceAdded(t0: Tables, t: Tables, p: Pubkey, done: seq<Item>, i: Item, charge: nat)
    requires BatchSaved(t0, t, p, done, charge) && i.h in t.blobs && (p, i.h) !in t.refs
    ensures AddReference(t, p, i.h).1 == NewReference
    ensures BatchSaved(t0, AddReference(t, p, i.h).0, p, done + [i], charge + i.h.length)
  {
    var t' := AddReference(t, p, i.h).0;
    assert SavedOne(t, t', p, i, true);
    BatchSavedOneMore(t0, t, t', p, done, i, charge, true);
  }

  /** An item whose row the save has inserted. */
  lemma FirstReferenceAdded(t0: Tables, t: Tables, p: Pubkey, done: seq<Item>, i: Item, charge: nat)
    requires ItemOk(i) && i.h in t.blobs && t.blobs[i.h] == i.row
    requires BatchSaved(t0, t.(blobs := t.blobs - {i.h}), p, done, charge)
    ensures CreateReference(t, p, i.h).1 == Inserted
    ensures BatchSaved(t0, CreateReference(t, p, i.h).0, p, done + [i], charge + i.h.length)
  {
    var before := t.(blobs := t.blobs - {i.h});
    assert Sound(before);
    var t' := CreateReference(t, p, i.h).0;
    assert SavedOne(before, t', p, i, true);
    BatchSavedOneMore(t0, before, t', p, done, i, charge, true);
  }

  /** One statement of a save moves to the next, or has saved the item. */
  lemma SaveMoves(t0: Tables, t: Tables, p: Pubkey, done: seq<Item>, rest: seq<Item>, at: SavePoint, charge: nat)
    requires rest != [] && ItemOk(rest[0]) && Saving(t0, t, p, done, rest, at, charge)
    ensures var (t', r) := SaveStep(t, p, rest[0], at);
            match r
            case Goto(at') => Saving(t0, t', p, done, rest, at', charge)
            case Returned(size, newReference) =>
              BatchSaved(t0, t', p, done + [rest[0]], charge + if newReference then size else 0)
            case Failed => false
  {
    var i := rest[0];
    match at
    case Lookup =>
    case CheckRef(found) =>
      if (p, i.h) in t.refs {
        SavedBefore(t0, t, p, done, i, charge);
      }
    case AddRef(found) => ReferenceAdded(t0, t, p, done, i, charge);
    case Insert => assert t.blobs[i.h := i.row] - {i.h} == t.blobs;
    case FirstRef => FirstReferenceAdded(t0, t, p, done, i, charge);
  }

  lemma MidFrom(t0: Tables, t: Tables, p: Pubkey, items: seq<Item>, n: nat, at: SavePoint, charge: nat)
    requires n <= |items| && Saving(t0, t, p, items[..n], items[n..], at, charge)
    ensures MidUpload(t0, t, p, items, Upload(p, items[n..], at, charge))
  {
    assert |items| - |items[n..]| == n;
  }

  lemma SlicesStep<T>(s: seq<T>, n: nat)
    requires n < |s|
    ensures s[n..] != [] && s[n..][0] == s[n] && s[n..][1..] == s[n + 1..] && s[..n] + [s[n]] == s[..n + 1]
  {
  }

  lemma SavedKeepsMid(
    t0: Tables, t: Tables, p: Pubkey, items: seq<Item>, n: nat, at: SavePoint, charge: nat, size: nat, isNew: bool)
    requires n < |items|
    requires BatchSaved(t0, t, p, items[..n] + [items[n]], charge + if isNew then size else 0)
    ensures MidUpload(t0, t, p, items, AfterSave(Upload(p, items[n..], at, charge), Returned(size, isNew)))
  {
    SlicesStep(items, n);
    MidFrom(t0, t, p, items, n + 1, Lookup, charge + if isNew then size else 0);
  }

  lemma SaveStepKeepsMid(t0: Tables, t: Tables, p: Pubkey, items: seq<Item>, n: nat, at: SavePoint, charge: nat)
    requires n < |items| && ItemOk(items[n]) && Saving(t0, t, p, items[..n], items[n..], at, charge)
    ensures var (t', r) := SaveStep(t, p, items[n], at);
            MidUpload(t0, t', p, items, AfterSave(Upload(p, items[n..], at, charge), r))
  {
    SlicesStep(items, n);
    SaveMoves(t0, t, p, items[..n], items[n..], at, charge);
    var (t', r) := SaveStep(t, p, items[n], at);
    match r
    case Goto(at') => MidFrom(t0, t', p, items, n, at', charge);
    case Returned(size, isNew) => SavedKeepsMid(t0, t', p, items, n, at, charge, size, isNew);
  }

  /** The end of an upload: what was new is charged. */
  lemma UploadIsCharged(t0: Tables, t: Tables, p: Pubkey, items: seq<Item>, charge: nat)
    requires BatchSaved(t0, t, p, items, charge)
    ensures MidUpload(t0, if charge > 0 then IncrementUsage(t, p, charge) else t, p, items, Done)
  {
    var t' := if charge > 0 then IncrementUsage(t, p, charge) else t;
    assert t'.(users := t0.users) == t;
    forall u ensures Owned(t', u) == Owned(t, u) {
      OwnedSame(t, t', u);
    }
  }

  lemma UploadStepKeepsMid(t0: Tables, t: Tables, p: Pubkey, items: seq<Item>, c: Call, pick: Pubkey)
    requires MidUpload(t0, t, p, items, c) && forall i :: i in items ==> ItemOk(i)
    ensures var (t', c') := Exec(t, c, pick); MidUpload(t0, t', p, items, c')
  {
    match c
    case Upload(_, rest, at, charge) =>
      var n := |items| - |rest|;
      if rest == [] {
        assert items[..n] == items;
        if charge == 0 {
          UploadIsCharged(t0, t, p, items, 0);
        }
      } else {
        assert rest[0] == items[n] && items[n] in items;
        SaveStepKeepsMid(t0, t, p, items, n, at, charge);
      }
    case Charging(_, n) => UploadIsCharged(t0, t, p, items, n);
    case Done =>
  }

  lemma {:induction false} UploadStaysMid(
    t0: Tables, t: Tables, p: Pubkey, items: seq<Item>, c: Call, picks: seq<Pubkey>)
    requires MidUpload(t0, t, p, items, c) && forall i :: i in items ==> ItemOk(i)
    ensures var (t', c') := Alone(t, c, picks); MidUpload(t0, t', p, items, c')
    decreases |picks|
  {
    if picks != [] {
      UploadStepKeepsMid(t0, t, p, items, c, picks[0]);
      UploadStaysMid(t0, Exec(t, c, picks[0]).0, p, items, Exec(t, c, picks[0]).1, picks[1..]);
    }
  }

  lemma UploadAlone(s: State, p: Pubkey, items: seq<Item>, picks: seq<Pubkey>, t: Tables, c: Call)
    requires Inv(s) && forall i :: i in items ==> ItemOk(i)
    requires AfterAlone(s, Upload(p, items, Lookup, 0), picks) == State(t, s.calls + [c])
    ensures MidUpload(s.db, t, p, items, c)
  {
    AloneAt(s, Upload(p, items, Lookup, 0), picks, t, c);
    NothingSaved(s.db, p);
    assert items[..0] == [];
    UploadStaysMid(s.db, s.db, p, items, Upload(p, items, Lookup, 0), picks);
  }

  /** An upload alone, until its charge is due: everything is saved, and what the key did not own is to be charged. */
  lemma UploadBeforeCharge(s: State, p: Pubkey, items: seq<Item>, picks: seq<Pubkey>, t: Tables, q: Pubkey, n: nat)
    requires Inv(s) && forall i :: i in items ==> ItemOk(i)
    requires AfterAlone(s, Upload(p, items, Lookup, 0), picks) == State(t, s.calls + [Charging(q, n)])
    ensures q == p && n > 0 && n == Owned(t, p) - Owned(s.db, p)
    ensures t.users == s.db.users
    ensures t.refs == s.db.refs + set i | i in items :: (p, i.h)
    ensures t.blobs.Keys == s.db.blobs.Keys + set i | i in items :: i.h
  {
    UploadAlone(s, p, items, picks, t, Charging(q, n));
  }

  /** An upload alone, once it is over: no save has failed, and the key pays for what it did not own before. */
  lemma UploadAtEnd(s: State, p: Pubkey, items: seq<Item>, picks: seq<Pubkey>, t: Tables)
    requires Inv(s) && forall i :: i in items ==> ItemOk(i)
    requires AfterAlone(s, Upload(p, items, Lookup, 0), picks) == State(t, s.calls + [Done])
    ensures t.refs == s.db.refs + set i | i in items :: (p, i.h)
    ensures t.blobs.Keys == s.db.blobs.Keys + set i | i in items :: i.h
    ensures RowsKept(s.db, t) && RowsCome(s.db, t, items)
    ensures forall u :: Used(t, u) == Used(s.db, u) + if u == p then Owned(t, p) - Owned(s.db, p) else 0
  {
    UploadAlone(s, p, items, picks, t, Done);
  }

  /** What the end of an upload of one blob means. */
  lemma OneItemCharged(t0: Tables, t: Tables, p: Pubkey, i: Item)
    requires MidUpload(t0, t, p, [i], Done)
    ensures t.refs == t0.refs + {(p, i.h)} && t.blobs.Keys == t0.blobs.Keys + {i.h}
    ensures forall u :: Used(t, u) == Used(t0, u) + if u == p && (p, i.h) !in t0.refs then i.h.length else 0
  {
    assert (set j | j in [i] :: (p, j.h)) == {(p, i.h)} && (set j | j in [i] :: j.h) == {i.h};
    if (p, i.h) in t0.refs {
      OwnedSame(t0, t, p);
    } else {
      OwnedAdd(t0, t, p, i.h);
    }
  }

  /** An upload of one blob alone: the key has it, and pays its length unless it had it already. */
  lemma OneUploadAtEnd(s: State, p: Pubkey, i: Item, picks: seq<Pubkey>, t: Tables)
    requires Inv(s) && ItemOk(i)
    requires AfterAlone(s, Upload(p, [i], Lookup, 0), picks) == State(t, s.calls + [Done])
    ensures t.refs == s.db.refs + {(p, i.h)} && t.blobs.Keys == s.db.blobs.Keys + {i.h}
    ensures forall h :: h in s.db.blobs ==> SameRow(t.blobs[h], s.db.blobs[h])
    ensures i.h !in s.db.blobs ==> SameRow(t.blobs[i.h], i.row)
    ensures forall u :: Used(t, u) == Used(s.db, u) + if u == p && (p, i.h) !in s.db.refs then i.h.length else 0
  {
    UploadAlone(s, p, [i], picks, t, Done);
    OneItemCharged(s.db, t, p, i);
    UploadAtEnd(s, p, [i], picks, t);
    if i.h !in s.db.blobs {
      var j :| j in [i] && j.h == i.h && SameRow(t.blobs[i.h], j.row);
    }
  }

  lemma OneUploadBeforeCharge(s: State, p: Pubkey, i: Item, picks: seq<Pubkey>, t: Tables, q: Pubkey, n: nat)
    requires Inv(s) && ItemOk(i)
    requires AfterAlone(s, Upload(p, [i], Lookup, 0), picks) == State(t, s.calls + [Charging(q, n)])
    ensures q == p && n == i.h.length && (p, i.h) !in s.db.refs
    ensures t.refs == s.db.refs + {(p, i.h)} && i.h in t.blobs && t.users == s.db.users
  {
    UploadBeforeCharge(s, p, [i], picks, t, q, n);
    assert (set j | j in [i] :: (p, j.h)) == {(p, i.h)} && (set j | j in [i] :: j.h) == {i.h};
    if (p, i.h) in s.db.refs {
      assert t.refs == s.db.refs;
      OwnedSame(s.db, t, p);
    } else {
      OwnedAdd(s.db, t, p, i.h);
    }
  }

  // ----- delete -------------------------------------------------------------

  /** Only `p` uses less than before: `n` bytes, or what there was. */
  ghost predicate UsesLess(t0: Tables, t: Tables, p: Pubkey, n: nat) {
    forall u :: Used(t, u) == if u == p then Max(0, Used(t0, u) - n) else Used(t0, u)
  }

  /** The key's reference is gone, and the row with it if nobody else has one. */
  ghost predicate ReferenceGone(t0: Tables, t: Tables, p: Pubkey, h: Hash) {
    && t.refs == t0.refs - {(p, h)} && RowsKept(t0, t)
    && forall g :: g in t.blobs <==> g in t0.blobs && (g == h && (p, h) in t0.refs ==> HasOwner(t, h))
  }

  ghost predicate MidDelete(t0: Tables, t: Tables, p: Pubkey, h: Hash, c: Call) {
    match c
    case Delete(q, g, step) =>
      && q == p && g == h && t == t0
      && (step.CheckOwner? ==> h in t.blobs && step.size == h.length)
      && (step.Remove? ==> (p, h) in t.refs && step.size == h.length)
    case Crediting(q, n) =>
      q == p && n == h.length && (p, h) in t0.refs && ReferenceGone(t0, t, p, h) && t.users == t0.users
    case Done =>
      ReferenceGone(t0, t, p, h) && UsesLess(t0, t, p, if (p, h) in t0.refs then h.length else 0)
    case _ => false
  }

  lemma NothingToDelete(t: Tables, p: Pubkey, h: Hash)
    requires (p, h) !in t.refs
    ensures MidDelete(t, t, p, h, Done)
  {
    assert t.refs - {(p, h)} == t.refs;
  }

  lemma RemovalIsGone(t: Tables, p: Pubkey, h: Hash)
    requires Sound(t) && (p, h) in t.refs
    ensures RemoveReference(t, p, h).1.Removed? && RemoveReference(t, p, h).0.users == t.users
    ensures ReferenceGone(t, RemoveReference(t, p, h).0, p, h)
  {
    RemovalShrinksOwners(t, p, h);
    RemovalKeepsOthers(t, p, h);
  }

  lemma CreditLeavesRest(t0: Tables, t: Tables, p: Pubkey, h: Hash, n: nat)
    requires ReferenceGone(t0, t, p, h) && t.users == t0.users
    ensures var t' := DecrementUsage(t, p, n); ReferenceGone(t0, t', p, h) && UsesLess(t0, t', p, n)
  {
    UsageOnly(t0, t, DecrementUsage(t, p, n), []);
  }

  lemma {:induction false} DeleteStaysMid(t0: Tables, t: Tables, p: Pubkey, h: Hash, c: Call, picks: seq<Pubkey>)
    requires Sound(t0) && MidDelete(t0, t, p, h, c)
    ensures var (t', c') := Alone(t, c, picks); MidDelete(t0, t', p, h, c')
    decreases |picks|
  {
    if picks != [] {
      match c {
        case Delete(_, _, step) =>
          if (p, h) !in t0.refs {
            NothingToDelete(t0, p, h);
          } else {
            RemovalIsGone(t0, p, h);
          }
        case Crediting(_, n) => CreditLeavesRest(t0, t, p, h, n);
        case Done =>
      }
      DeleteStaysMid(t0, Exec(t, c, picks[0]).0, p, h, Exec(t, c, picks[0]).1, picks[1..]);
    }
  }

  lemma DeleteAlone(s: State, p: Pubkey, h: Hash, picks: seq<Pubkey>, t: Tables, c: Call)
    requires Inv(s) && AfterAlone(s, Delete(p, h, GetBlob), picks) == State(t, s.calls + [c])
    ensures MidDelete(s.db, t, p, h, c)
  {
    AloneAt(s, Delete(p, h, GetBlob), picks, t, c);
    DeleteStaysMid(s.db, s.db, p, h, Delete(p, h, GetBlob), picks);
  }

  /** A delete alone whose credit is due has removed the reference it is for. */
  lemma DeleteBeforeCredit(s: State, p: Pubkey, h: Hash, picks: seq<Pubkey>, t: Tables, q: Pubkey, n: nat)
    requires Inv(s) && AfterAlone(s, Delete(p, h, GetBlob), picks) == State(t, s.calls + [Crediting(q, n)])
    ensures q == p && n == h.length && (p, h) in s.db.refs
    ensures t.refs == s.db.refs - {(p, h)} && t.users == s.db.users
  {
    DeleteAlone(s, p, h, picks, t, Crediting(q, n));
  }

  /** A delete alone, once it is over. */
  lemma DeleteAtEnd(s: State, p: Pubkey, h: Hash, picks: seq<Pubkey>, t: Tables)
    requires Inv(s) && AfterAlone(s, Delete(p, h, GetBlob), picks) == State(t, s.calls + [Done])
    ensures t.refs == s.db.refs - {(p, h)} && RowsKept(s.db, t)
    ensures h in t.blobs <==> h in s.db.blobs && ((p, h) in s.db.refs ==> HasOwner(t, h))
    ensures forall g :: g != h ==> (g in t.blobs <==> g in s.db.blobs)
    ensures forall u :: Used(t, u) == if u == p && (p, h) in s.db.refs then Max(0, Used(s.db, u) - h.length)
                                      else Used(s.db, u)
  {
    DeleteAlone(s, p, h, picks, t, Done);
  }

  // ----- batch delete -------------------------------------------------------

  ghost predicate MidBatch(t0: Tables, t: Tables, p: Pubkey, hashes: seq<Hash>, c: Call) {
    match c
    case BatchDelete(q, rest, point, freed) =>
      && q == p && |rest| <= |hashes| && rest == hashes[|hashes| - |rest|..]
      && BatchRemoved(t0, t, p, hashes[..|hashes| - |rest|], freed)
      && (!point.BatchCheck? ==> rest != [] && (p, rest[0]) in t.refs)
      && (point.BatchRemove? ==> point.size == rest[0].length)
    case Crediting(q, n) => q == p && BatchRemoved(t0, t, p, hashes, n)
    case Done =>
      var n := Owned(t0, p) - Owned(t, p);
      n >= 0 && BatchRemoved(t0, t.(users := t0.users), p, hashes, n) && UsesLess(t0, t, p, n)
    case _ => false
  }

  lemma CreditUsesLess(t0: Tables, t: Tables, p: Pubkey, n: nat)
    requires t.users == t0.users
    ensures UsesLess(t0, DecrementUsage(t, p, n), p, n) && (n == 0 ==> UsesLess(t0, t, p, n))
    ensures DecrementUsage(t, p, n).(users := t0.users) == t == t.(users := t0.users)
  {
  }

  /** The end of a batch delete: what was freed is credited. */
  lemma BatchIsCredited(t0: Tables, t: Tables, p: Pubkey, hashes: seq<Hash>, freed: nat)
    requires BatchRemoved(t0, t, p, hashes, freed)
    ensures MidBatch(t0, if freed > 0 then DecrementUsage(t, p, freed) else t, p, hashes, Done)
  {
    var t' := if freed > 0 then DecrementUsage(t, p, freed) else t;
    CreditUsesLess(t0, t, p, freed);
    forall u ensures Owned(t', u) == Owned(t, u) {
      OwnedSame(t, t', u);
    }
  }

  lemma BatchMidFrom(t0: Tables, t: Tables, p: Pubkey, hashes: seq<Hash>, n: nat, freed: nat)
    requires n <= |hashes| && BatchRemoved(t0, t, p, hashes[..n], freed)
    ensures MidBatch(t0, t, p, hashes, BatchDelete(p, hashes[n..], BatchCheck, freed))
  {
    assert |hashes| - |hashes[n..]| == n;
  }

  lemma BatchChecks(t0: Tables, t: Tables, p: Pubkey, hashes: seq<Hash>, n: nat, freed: nat)
    requires Sound(t0) && n < |hashes| && BatchRemoved(t0, t, p, hashes[..n], freed)
    ensures MidBatch(t0, t, p, hashes, ExecBatchDelete(t, BatchDelete(p, hashes[n..], BatchCheck, freed)).1)
  {
    SlicesStep(hashes, n);
    if (p, hashes[n]) !in t.refs {
      BatchRemovedOneMore(t0, t, p, hashes[..n], hashes[n], freed);
      BatchMidFrom(t0, t, p, hashes, n + 1, freed);
    }
  }

  lemma BatchRemoves(t0: Tables, t: Tables, p: Pubkey, hashes: seq<Hash>, n: nat, freed: nat)
    requires Sound(t0) && n < |hashes| && BatchRemoved(t0, t, p, hashes[..n], freed) && (p, hashes[n]) in t.refs
    ensures var (t', r) := RemoveReference(t, p, hashes[n]);
            && r.Removed?
            && MidBatch(t0, t', p, hashes, BatchDelete(p, hashes[n + 1..], BatchCheck, freed + hashes[n].length))
  {
    SlicesStep(hashes, n);
    BatchRemovedOneMore(t0, t, p, hashes[..n], hashes[n], freed);
    BatchMidFrom(t0, RemoveReference(t, p, hashes[n]).0, p, hashes, n + 1, freed + hashes[n].length);
  }

  lemma BatchStepKeepsMid(t0: Tables, t: Tables, p: Pubkey, hashes: seq<Hash>, c: Call)
    requires Sound(t0) && c.BatchDelete? && c.hashes != [] && MidBatch(t0, t, p, hashes, c)
    ensures var (t', c') := ExecBatchDelete(t, c); MidBatch(t0, t', p, hashes, c')
  {
    var n := |hashes| - |c.hashes|;
    SlicesStep(hashes, n);
    match c.point
    case BatchCheck => BatchChecks(t0, t, p, hashes, n, c.freed);
    case BatchSize => assert hashes[n] in t.blobs;
    case BatchRemove(_) => BatchRemoves(t0, t, p, hashes, n, c.freed);
  }

  lemma BatchExecKeepsMid(t0: Tables, t: Tables, p: Pubkey, hashes: seq<Hash>, c: Call, pick: Pubkey)
    requires Sound(t0) && MidBatch(t0, t, p, hashes, c)
    ensures var (t', c') := Exec(t, c, pick); MidBatch(t0, t', p, hashes, c')
  {
    match c
    case BatchDelete(_, rest, _, freed) =>
      if rest == [] {
        assert hashes[..|hashes|] == hashes;
        if freed == 0 {
          BatchIsCredited(t0, t, p, hashes, 0);
        }
      } else {
        BatchStepKeepsMid(t0, t, p, hashes, c);
      }
    case Crediting(_, n) => BatchIsCredited(t0, t, p, hashes, n);
    case Done =>
  }

  lemma {:induction false} BatchStaysMid(
    t0: Tables, t: Tables, p: Pubkey, hashes: seq<Hash>, c: Call, picks: seq<Pubkey>)
    requires Sound(t0) && MidBatch(t0, t, p, hashes, c)
    ensures var (t', c') := Alone(t, c, picks); MidBatch(t0, t', p, hashes, c')
    decreases |picks|
  {
    if picks != [] {
      BatchExecKeepsMid(t0, t, p, hashes, c, picks[0]);
      BatchStaysMid(t0, Exec(t, c, picks[0]).0, p, hashes, Exec(t, c, picks[0]).1, picks[1..]);
    }
  }

  lemma NothingRemoved(t: Tables, p: Pubkey)
    requires Sound(t)
    ensures BatchRemoved(t, t, p, [], 0)
  {
    var none: seq<Hash> := [];
    assert (set h | h in none :: (p, h)) == {};
  }

  /** A batch delete alone, once it is over: the credit is what the key no longer owns. */
  lemma BatchDeleteAtEnd(s: State, p: Pubkey, hashes: seq<Hash>, picks: seq<Pubkey>, t: Tables)
    requires Inv(s) && AfterAlone(s, BatchDelete(p, hashes, BatchCheck, 0), picks) == State(t, s.calls + [Done])
    ensures t.refs == s.db.refs - (set h | h in hashes :: (p, h)) && RowsKept(s.db, t)
    ensures forall h ::
              h in t.blobs <==> h in s.db.blobs && (h in hashes && (p, h) in s.db.refs ==> HasOwner(t, h))
    ensures forall u :: Used(t, u) == if u == p then Max(0, Used(s.db, u) - (Owned(s.db, p) - Owned(t, p)))
                                      else Used(s.db, u)
  {
    AloneAt(s, BatchDelete(p, hashes, BatchCheck, 0), picks, t, Done);
    NothingRemoved(s.db, p);
    assert hashes[..0] == [];
    BatchStaysMid(s.db, s.db, p, hashes, BatchDelete(p, hashes, BatchCheck, 0), picks);
    UsageOnly(s.db, t.(users := s.db.users), t, []);
  }

  // ----- admin delete -------------------------------------------------------

  /** These keys use `n` bytes less than before, or nothing. */
  ghost predicate CreditedTo(t0: Tables, t: Tables, owners: set<Pubkey>, n: nat) {
    forall u :: Used(t, u) == if u in owners then Max(0, Used(t0, u) - n) else Used(t0, u)
  }

  /** All owners but those in `todo` are removed. */
  ghost predicate RemovedTo(t0: Tables, t: Tables, h: Hash, todo: set<Pubkey>) {
    h in t0.blobs && todo <= OwnersOf(t0, h) && OwnersRemoved(t0, t, h, OwnersOf(t0, h) - todo, todo)
  }

  ghost predicate MidAdmin(t0: Tables, t: Tables, h: Hash, where: AdminPoint) {
    var owners := OwnersOf(t0, h);
    match where
    case Describe => t == t0
    case ListOwners(size) => t == t0 && h in t.blobs && size == h.length
    case NextOwner(size, todo) =>
      size == h.length && RemovedTo(t0, t, h, todo) && CreditedTo(t0, t, owners - todo, h.length)
    case RemoveOwner(size, todo, owner) =>
      && size == h.length && owner !in todo && RemovedTo(t0, t, h, todo + {owner})
      && CreditedTo(t0, t, owners - (todo + {owner}), h.length)
    case CreditOwner(size, todo, owner) =>
      && size == h.length && owner in owners && owner !in todo && RemovedTo(t0, t, h, todo)
      && CreditedTo(t0, t, owners - (todo + {owner}), h.length)
    case ForceDelete => RemovedTo(t0, t, h, {}) && CreditedTo(t0, t, owners, h.length) && h in t.blobs
    case _ => RemovedTo(t0, t, h, {}) && CreditedTo(t0, t, owners, h.length)
  }

  /** The blob is gone for all its owners, who are credited its length. */
  ghost predicate BlobGone(t0: Tables, t: Tables, h: Hash) {
    && t.refs == t0.refs - (set p | p in OwnersOf(t0, h) :: (p, h))
    && t.blobs.Keys == t0.blobs.Keys - {h} && RowsKept(t0, t)
    && CreditedTo(t0, t, OwnersOf(t0, h), h.length)
  }

  ghost predicate AdminAt(t0: Tables, t: Tables, h: Hash, c: Call) {
    match c
    case Admin(g, where) => g == h && MidAdmin(t0, t, h, where)
    case Done => BlobGone(t0, t, h)
    case _ => false
  }

  lemma NoOwners(t: Tables, h: Hash)
    requires Sound(t) && h !in t.blobs
    ensures BlobGone(t, t, h)
  {
    assert OwnersOf(t, h) == {};
    assert t.blobs.Keys - {h} == t.blobs.Keys;
    assert (set p | p in OwnersOf(t, h) :: (p, h)) == {};
  }

  lemma NoneRemoved(t: Tables, h: Hash)
    requires Sound(t) && h in t.blobs
    ensures RemovedTo(t, t, h, OwnersOf(t, h)) && OwnersOf(t, h) - OwnersOf(t, h) == {}
  {
    var none: set<Pubkey> := {};
    assert OwnersOf(t, h) - OwnersOf(t, h) == none;
    assert (set p | p in none :: (p, h)) == {};
  }

  lemma OwnerRemoved(t0: Tables, t: Tables, h: Hash, todo: set<Pubkey>, owner: Pubkey)
    requires RemovedTo(t0, t, h, todo + {owner}) && owner !in todo
    ensures var (t', r) := RemoveReference(t, owner, h);
            r.Removed? && RemovedTo(t0, t', h, todo) && t'.users == t.users && owner in OwnersOf(t0, h)
  {
    var owners, t' := OwnersOf(t0, h), RemoveReference(t, owner, h).0;
    assert owner in OwnersOf(t, h);
    OwnersRemovedOneMore(t0, t, h, owners - (todo + {owner}), todo + {owner}, owner);
    assert owners - (todo + {owner}) + {owner} == owners - todo && todo + {owner} - {owner} == todo;
    UsageOnly(t0, t', DecrementUsage(t', owner, h.length), []);
    assert OwnersOf(DecrementUsage(t', owner, h.length), h) == OwnersOf(t', h);
  }

  lemma OwnerCredited(t0: Tables, t: Tables, h: Hash, todo: set<Pubkey>, owner: Pubkey)
    requires RemovedTo(t0, t, h, todo) && owner in OwnersOf(t0, h) && owner !in todo
    requires CreditedTo(t0, t, OwnersOf(t0, h) - (todo + {owner}), h.length)
    ensures var t' := DecrementUsage(t, owner, h.length);
            RemovedTo(t0, t', h, todo) && CreditedTo(t0, t', OwnersOf(t0, h) - todo, h.length)
  {
    UsageOnly(t0, t, DecrementUsage(t, owner, h.length), []);
    assert OwnersOf(DecrementUsage(t, owner, h.length), h) == OwnersOf(t, h);
  }

  lemma RowForced(t0: Tables, t: Tables, h: Hash)
    requires RemovedTo(t0, t, h, {}) && CreditedTo(t0, t, OwnersOf(t0, h), h.length)
    ensures h in t.blobs ==> BlobGone(t0, Sql.DeleteBlob(t, h), h)
    ensures h !in t.blobs ==> BlobGone(t0, t, h)
    ensures !HasOwner(t, h)
  {
    assert OwnersOf(t0, h) - {} == OwnersOf(t0, h);
    forall r | r in t.refs ensures r.1 != h {
      assert r.1 == h ==> r.0 in OwnersOf(t, h);
    }
    if h in t.blobs {
      DeletingOwnerlessIsNeutral(t, h);
    }
  }

  lemma AdminStepStaysMid(t0: Tables, t: Tables, h: Hash, where: AdminPoint, pick: Pubkey)
    requires Sound(t0) && MidAdmin(t0, t, h, where)
    ensures var (t', c) := ExecAdmin(t, h, where, pick); AdminAt(t0, t', h, c)
  {
    match where
    case Describe =>
      if h !in t.blobs {
        NoOwners(t, h);
      }
    case ListOwners(_) => NoneRemoved(t, h);
    case NextOwner(size, todo) =>
      if pick in todo {
        assert pick in OwnersOf(t, h);
        assert todo - {pick} + {pick} == todo;
      }
    case RemoveOwner(size, todo, owner) => OwnerRemoved(t0, t, h, todo, owner);
    case CreditOwner(size, todo, owner) => OwnerCredited(t0, t, h, todo, owner);
    case _ => RowForced(t0, t, h);
  }

  lemma {:induction false} AdminStaysMid(t0: Tables, t: Tables, h: Hash, c: Call, picks: seq<Pubkey>)
    requires Sound(t0) && AdminAt(t0, t, h, c)
    ensures var (t', c') := Alone(t, c, picks); AdminAt(t0, t', h, c')
    decreases |picks|
  {
    if picks != [] {
      if c.Admin? {
        AdminStepStaysMid(t0, t, h, c.where, picks[0]);
      }
      AdminStaysMid(t0, Exec(t, c, picks[0]).0, h, Exec(t, c, picks[0]).1, picks[1..]);
    }
  }

  /** An admin delete alone, once it is over, whatever the order of the owners. */
  lemma AdminAtEnd(s: State, h: Hash, picks: seq<Pubkey>, t: Tables)
    requires Inv(s) && AfterAlone(s, Admin(h, Describe), picks) == State(t, s.calls + [Done])
    ensures t.refs == s.db.refs - (set p | p in OwnersOf(s.db, h) :: (p, h))
    ensures t.blobs.Keys == s.db.blobs.Keys - {h} && RowsKept(s.db, t)
    ensures forall u :: Used(t, u) == if (u, h) in s.db.refs then Max(0, Used(s.db, u) - h.length) else Used(s.db, u)
  {
    AloneAt(s, Admin(h, Describe), picks, t, Done);
    AdminStaysMid(s.db, s.db, h, Admin(h, Describe), picks);
    assert forall u :: u in OwnersOf(s.db, h) <==> (u, h) in s.db.refs;
  }

  // ----- garbage collection -------------------------------------------------

  /** Only listed rows without an owner are gone. */
  ghost predicate Collected(t0: Tables, t: Tables, done: seq<Hash>) {
    && t.refs == t0.refs && t.users == t0.users
    && t.blobs == map h | h in t0.blobs && (h in done ==> HasOwner(t0, h)) :: t0.blobs[h]
  }

  lemma CollectedOneMore(t0: Tables, t: Tables, done: seq<Hash>, h: Hash)
    requires Collected(t0, t, done)
    ensures Collected(t0, DeleteOwnerless(t, h).0, done + [h])
  {
    assert HasOwner(t, h) == HasOwner(t0, h);
  }

  lemma {:induction false} GcStaysMid(t0: Tables, t: Tables, done: seq<Hash>, listing: seq<Hash>, picks: seq<Pubkey>)
    requires Collected(t0, t, done)
    ensures var (t', c') := Alone(t, Gc(listing), picks);
            c'.Gc? || (c' == Done && Collected(t0, t', done + listing))
    decreases |picks|
  {
    if picks != [] {
      if listing == [] {
        assert done + listing == done;
        Stopped(t, picks[1..]);
      } else {
        CollectedOneMore(t0, t, done, listing[0]);
        assert done + listing == done + [listing[0]] + listing[1..];
        GcStaysMid(t0, DeleteOwnerless(t, listing[0]).0, done + [listing[0]], listing[1..], picks[1..]);
      }
    }
  }

  lemma {:induction false} Stopped(t: Tables, picks: seq<Pubkey>)
    ensures Alone(t, Done, picks) == (t, Done)
    decreases |picks|
  {
    if picks != [] {
      Stopped(t, picks[1..]);
    }
  }

  /** Garbage collection alone, once it is over: exactly the listed rows without an owner are gone. */
  lemma GcAtEnd(s: State, listing: seq<Hash>, picks: seq<Pubkey>, t: Tables)
    requires AfterAlone(s, Gc(listing), picks) == State(t, s.calls + [Done])
    ensures t.refs == s.db.refs && t.users == s.db.users
    ensures t.blobs == map h | h in s.db.blobs && (h in listing ==> HasOwner(s.db, h)) :: s.db.blobs[h]
  {
    AloneAt(s, Gc(listing), picks, t, Done);
    assert [] + listing == listing;
    GcStaysMid(s.db, s.db, [], listing, picks);
  }

  // ----- sweep of expired blobs ---------------------------------------------

  function HashesOf(expired: seq<Expired>): seq<Hash> {
    seq(|expired|, k requires 0 <= k < |expired| => expired[k].h)
  }

  /** The listing is of the rows there are, each once. */
  ghost predicate ListingOk(t: Tables, expired: seq<Expired>) {
    && Distinct(HashesOf(expired))
    && forall e :: e in expired ==> e.h in t.blobs && e.size == t.blobs[e.h].size
  }

  /** The rows are gone; every key not in `freed` any more has been credited. */
  ghost predicate Paying(t0: Tables, t: Tables, hs: seq<Hash>, freed: map<Pubkey, nat>) {
    && t.blobs == t0.blobs - (set h | h in hs) && t.refs == (set r | r in t0.refs && r.1 !in hs)
    && (forall u :: u in freed ==> freed[u] == StoredFreed(t0, hs, u) && Used(t, u) == Used(t0, u))
    && (forall u :: u !in freed ==> Used(t, u) == Max(0, Used(t0, u) - StoredFreed(t0, hs, u)))
  }

  ghost predicate MidSweep(t0: Tables, t: Tables, expired: seq<Expired>, c: Call) {
    match c
    case Sweep(rest, stage, freed) =>
      && |rest| <= |expired| && rest == expired[|expired| - |rest|..]
      && if rest == [] then Paying(t0, t, HashesOf(expired), freed)
         else && Swept(t0, HashesOf(expired[..|expired| - |rest|]), t, freed)
              && (stage.DeleteExpired? ==> stage.owners == OwnersOf(t, rest[0].h))
    case Done => Paying(t0, t, HashesOf(expired), map[])
    case _ => false
  }

  lemma SweptIsPaying(t0: Tables, t: Tables, hs: seq<Hash>, freed: map<Pubkey, nat>)
    requires Swept(t0, hs, t, freed)
    ensures Paying(t0, t, hs, freed)
  {
    forall u
      ensures u in freed ==> freed[u] == StoredFreed(t0, hs, u) && Used(t, u) == Used(t0, u)
      ensures u !in freed ==> Used(t, u) == Max(0, Used(t0, u) - StoredFreed(t0, hs, u))
    {
      assert (if u in freed then freed[u] else 0) == StoredFreed(t0, hs, u);
    }
  }

  lemma OnePaid(t0: Tables, t: Tables, hs: seq<Hash>, freed: map<Pubkey, nat>, pick: Pubkey)
    requires Paying(t0, t, hs, freed) && pick in freed
    ensures Paying(t0, DecrementUsage(t, pick, freed[pick]), hs, freed - {pick})
  {
  }

  lemma SweptOneMore(t0: Tables, t: Tables, expired: seq<Expired>, n: nat, freed: map<Pubkey, nat>)
    requires Sound(t0) && ListingOk(t0, expired) && n < |expired| && Swept(t0, HashesOf(expired[..n]), t, freed)
    ensures var e := expired[n];
            Swept(t0, HashesOf(expired[..n + 1]), Sql.DeleteBlob(t, e.h), FreeTo(freed, OwnersOf(t, e.h), e.size))
  {
    var e, done := expired[n], HashesOf(expired[..n]);
    assert e in expired;
    forall h | h in done ensures h != e.h {
      var k :| 0 <= k < n && done[k] == h;
      assert HashesOf(expired)[k] != HashesOf(expired)[n];
    }
    SweepOne(t0, done, t, freed, e.h);
    assert HashesOf(expired[..n + 1]) == done + [e.h];
  }

  lemma SweepStepStaysMid(t0: Tables, t: Tables, expired: seq<Expired>, c: Call, pick: Pubkey)
    requires Sound(t0) && ListingOk(t0, expired) && c.Sweep? && MidSweep(t0, t, expired, c)
    ensures var (t', c') := ExecSweep(t, c, pick); MidSweep(t0, t', expired, c')
  {
    if c.expired == [] {
      if pick in c.freedBy {
        OnePaid(t0, t, HashesOf(expired), c.freedBy, pick);
      }
    } else if c.stage.DeleteExpired? {
      var n := |expired| - |c.expired|;
      assert c.expired[0] == expired[n] && c.expired[1..] == expired[n + 1..];
      SweptOneMore(t0, t, expired, n, c.freedBy);
      if |c.expired| == 1 {
        assert expired[..n + 1] == expired;
        var (t', c') := ExecSweep(t, c, pick);
        SweptIsPaying(t0, t', HashesOf(expired), c'.freedBy);
      }
    }
  }

  lemma {:induction false} SweepStaysMid(t0: Tables, t: Tables, expired: seq<Expired>, c: Call, picks: seq<Pubkey>)
    requires Sound(t0) && ListingOk(t0, expired) && MidSweep(t0, t, expired, c)
    ensures var (t', c') := Alone(t, c, picks); MidSweep(t0, t', expired, c')
    decreases |picks|
  {
    if picks != [] {
      if c.Sweep? {
        SweepStepStaysMid(t0, t, expired, c, picks[0]);
      }
      SweepStaysMid(t0, Exec(t, c, picks[0]).0, expired, Exec(t, c, picks[0]).1, picks[1..]);
    }
  }

  lemma NothingSwept(t: Tables, expired: seq<Expired>)
    ensures MidSweep(t, t, expired, Sweep(expired, FindOwners, map[]))
  {
    assert HashesOf(expired[..0]) == [];
    var none: seq<Hash> := [];
    assert (set h | h in none) == {} && t.blobs - {} == t.blobs;
    assert (set r | r in t.refs && r.1 !in none) == t.refs;
    assert Swept(t, [], t, map[]);
    SweptIsPaying(t, t, [], map[]);
  }

  /** A sweep alone, once it is over: the listed blobs are gone for all, and their owners credited the stored sizes. */
  lemma SweepAtEnd(s: State, expired: seq<Expired>, picks: seq<Pubkey>, t: Tables)
    requires Inv(s) && ListingOk(s.db, expired)
    requires AfterAlone(s, Sweep(expired, FindOwners, map[]), picks) == State(t, s.calls + [Done])
    ensures var hs := HashesOf(expired);
            && t.blobs == s.db.blobs - (set h | h in hs) && t.refs == (set r | r in s.db.refs && r.1 !in hs)
            && forall u :: Used(t, u) == Max(0, Used(s.db, u) - StoredFreed(s.db, hs, u))
  {
    AloneAt(s, Sweep(expired, FindOwners, map[]), picks, t, Done);
    NothingSwept(s.db, expired);
    SweepStaysMid(s.db, s.db, expired, Sweep(expired, FindOwners, map[]), picks);
  }

  // ----- a query that fails -------------------------------------------------

  /** The call runs `before`, then a statement of it fails, and then the rest runs. */
  ghost function AfterFault(s: State, c: Call, before: seq<Pubkey>, pick: Pubkey, picks: seq<Pubkey>): State {
    After(AfterAlone(s, c, before), [Fail(|s.calls|, pick)] + RunsOf(|s.calls|, picks))
  }

  lemma FaultIsARun(
    s: State, c: Call, before: seq<Pubkey>, pick: Pubkey, picks: seq<Pubkey>, t: Tables, c': Call)
    requires Fresh(c) && AfterFault(s, c, before, pick, picks) == State(t, s.calls + [c'])
    ensures var (t1, c1) := Alone(s.db, c, before); Alone(t1, OnError(c1, pick), picks) == (t, c')
  {
    var i := |s.calls|;
    var (t1, c1) := Alone(s.db, c, before);
    AloneIsARun(s, c, before);
    var s1 := State(t1, s.calls + [c1]);
    var s2 := Next(s1, Fail(i, pick));
    assert ([Fail(i, pick)] + RunsOf(i, picks))[1..] == RunsOf(i, picks);
    assert s2 == State(t1, s.calls + [OnError(c1, pick)]);
    StatementsRun(s2, i, picks);
    assert (s.calls + [c'])[i] == c';
  }

  lemma {:induction false} SecondInsertFails(t: Tables, p: Pubkey, i: Item, c: Call, picks: seq<Pubkey>)
    requires i.h in t.blobs
    requires c == Upload(p, [i], Insert, 0) || c == Upload(p, [], Lookup, 0) || c == Done
    ensures Alone(t, c, picks).1 == Done ==> Alone(t, c, picks).0 == t
    decreases |picks|
  {
    if picks != [] {
      SecondInsertFails(t, p, i, Exec(t, c, picks[0]).1, picks[1..]);
    }
  }

  /** A lookup that fails is taken for absence: then the save of a blob there is already changes nothing. */
  lemma FailedLookup(s: State, p: Pubkey, i: Item, pick: Pubkey, picks: seq<Pubkey>, t: Tables)
    requires Inv(s) && ItemOk(i)
    requires AfterFault(s, Upload(p, [i], Lookup, 0), [], pick, picks) == State(t, s.calls + [Done])
    ensures i.h in s.db.blobs ==> t == s.db
    ensures i.h !in s.db.blobs ==>
              && t.refs == s.db.refs + {(p, i.h)} && t.blobs.Keys == s.db.blobs.Keys + {i.h}
              && forall u :: Used(t, u) == Used(s.db, u) + if u == p then i.h.length else 0
  {
    FaultIsARun(s, Upload(p, [i], Lookup, 0), [], pick, picks, t, Done);
    if i.h in s.db.blobs {
      SecondInsertFails(s.db, p, i, Upload(p, [i], Insert, 0), picks);
    } else {
      NothingSaved(s.db, p);
      assert [i][..0] == [] && [i][0..] == [i];
      UploadStaysMid(s.db, s.db, p, [i], Upload(p, [i], Insert, 0), picks);
      assert (p, i.h) !in s.db.refs;
      OneItemCharged(s.db, t, p, i);
    }
  }

  lemma {:induction false} UnsizedRemoval(t0: Tables, t: Tables, p: Pubkey, h: Hash, c: Call, picks: seq<Pubkey>)
    requires Sound(t0) && (p, h) in t0.refs && t.users == t0.users
    requires if c == BatchDelete(p, [h], BatchRemove(0), 0) then t == t0
             else (c == BatchDelete(p, [], BatchCheck, 0) || c == Done) && ReferenceGone(t0, t, p, h)
    ensures var (t', c') := Alone(t, c, picks);
            c' == Done ==> ReferenceGone(t0, t', p, h) && t'.users == t0.users
    decreases |picks|
  {
    if picks != [] {
      RemovalIsGone(t0, p, h);
      UnsizedRemoval(t0, Exec(t, c, picks[0]).0, p, h, Exec(t, c, picks[0]).1, picks[1..]);
    }
  }

  /** A batch delete whose size lookup fails removes the reference all the same, and credits nothing for it. */
  lemma FailedSizeLookup(s: State, p: Pubkey, h: Hash, first: Pubkey, pick: Pubkey, picks: seq<Pubkey>, t: Tables)
    requires Inv(s) && (p, h) in s.db.refs
    requires AfterFault(s, BatchDelete(p, [h], BatchCheck, 0), [first], pick, picks) == State(t, s.calls + [Done])
    ensures t.refs == s.db.refs - {(p, h)} && t.users == s.db.users
  {
    var c := BatchDelete(p, [h], BatchCheck, 0);
    FaultIsARun(s, c, [first], pick, picks, t, Done);
    assert [first][1..] == [];
    assert Alone(s.db, c, [first]) == (s.db, c.(point := BatchSize));
    UnsizedRemoval(s.db, s.db, p, h, BatchDelete(p, [h], BatchRemove(0), 0), picks);
  }

  /** The blob is gone; its first uploader, once no longer in `freed`, has been credited the stored size. */
  ghost predicate UploaderPaid(t0: Tables, t: Tables, e: Expired, freed: map<Pubkey, nat>) {
    && t.blobs == t0.blobs - {e.h} && t.refs == (set r | r in t0.refs && r.1 != e.h)
    && (forall u :: u in freed ==> u == e.uploader != "" && freed[u] == e.size && Used(t, u) == Used(t0, u))
    && (forall u :: u !in freed ==>
          Used(t, u) == if u == e.uploader != "" then Max(0, Used(t0, u) - e.size) else Used(t0, u))
  }

  ghost predicate MidFailedSweep(t0: Tables, t: Tables, e: Expired, c: Call) {
    if c == Done then UploaderPaid(t0, t, e, map[])
    else
      && c.Sweep? && c.stage.DeleteExpired? == (c.expired != [])
      && if c.expired == [] then UploaderPaid(t0, t, e, c.freedBy)
         else && c.expired == [e] && t == t0 && c.freedBy == map[]
              && c.stage.owners == if e.uploader != "" then {e.uploader} else {}
  }

  lemma UploaderFreed(t: Tables, e: Expired)
    requires e.h in t.blobs
    ensures var owners: set<Pubkey> := if e.uploader != "" then {e.uploader} else {};
            UploaderPaid(t, Sql.DeleteBlob(t, e.h), e, FreeTo(map[], owners, e.size))
  {
  }

  lemma UploaderCredited(t0: Tables, t: Tables, e: Expired, freed: map<Pubkey, nat>, pick: Pubkey)
    requires UploaderPaid(t0, t, e, freed) && pick in freed
    ensures UploaderPaid(t0, DecrementUsage(t, pick, freed[pick]), e, freed - {pick})
  {
  }

  lemma FailedSweepStep(t0: Tables, t: Tables, e: Expired, c: Call, pick: Pubkey)
    requires e.h in t0.blobs && MidFailedSweep(t0, t, e, c)
    ensures var (t', c') := Exec(t, c, pick); MidFailedSweep(t0, t', e, c')
  {
    if c.Sweep? && c.expired != [] {
      UploaderFreed(t0, e);
    } else if c.Sweep? && pick in c.freedBy {
      UploaderCredited(t0, t, e, c.freedBy, pick);
    }
  }

  lemma {:induction false} UploaderSweep(t0: Tables, t: Tables, e: Expired, c: Call, picks: seq<Pubkey>)
    requires e.h in t0.blobs && MidFailedSweep(t0, t, e, c)
    ensures var (t', c') := Alone(t, c, picks); MidFailedSweep(t0, t', e, c')
    decreases |picks|
  {
    if picks != [] {
      FailedSweepStep(t0, t, e, c, picks[0]);
      UploaderSweep(t0, Exec(t, c, picks[0]).0, e, Exec(t, c, picks[0]).1, picks[1..]);
    }
  }

  /** A sweep that cannot list the owners removes the blob for all of them, and credits its first uploader alone. */
  lemma FailedOwnerLookup(s: State, e: Expired, pick: Pubkey, picks: seq<Pubkey>, t: Tables)
    requires Inv(s) && e.h in s.db.blobs
    requires AfterFault(s, Sweep([e], FindOwners, map[]), [], pick, picks) == State(t, s.calls + [Done])
    ensures t.blobs == s.db.blobs - {e.h} && t.refs == set r | r in s.db.refs && r.1 != e.h
    ensures forall u :: Used(t, u) == if u == e.uploader != "" then Max(0, Used(s.db, u) - e.size)
                                      else Used(s.db, u)
  {
    var c := Sweep([e], FindOwners, map[]);
    FaultIsARun(s, c, [], pick, picks, t, Done);
    UploaderSweep(s.db, s.db, e, OnError(c, pick), picks);
  }

  /** A batch goes on with the other files when a statement of one fails: they are saved and charged as without it. */
  lemma FailedFileIsSkipped(
    s: State, p: Pubkey, i: Item, rest: seq<Item>, first: Pubkey, pick: Pubkey, picks: seq<Pubkey>, t: Tables)
    requires Inv(s) && ItemOk(i) && forall j :: j in rest ==> ItemOk(j)
    requires AfterFault(s, Upload(p, [i] + rest, Lookup, 0), [first], pick, picks) == State(t, s.calls + [Done])
    ensures t.refs == s.db.refs + set j | j in rest :: (p, j.h)
    ensures t.blobs.Keys == s.db.blobs.Keys + set j | j in rest :: j.h
    ensures forall u :: Used(t, u) == Used(s.db, u) + if u == p then Owned(t, p) - Owned(s.db, p) else 0
  {
    var c := Upload(p, [i] + rest, Lookup, 0);
    FaultIsARun(s, c, [first], pick, picks, t, Done);
    assert [first][1..] == [] && ([i] + rest)[1..] == rest && rest[..0] == [];
    assert OnError(Alone(s.db, c, [first]).1, pick) == Upload(p, rest, Lookup, 0);
    NothingSaved(s.db, p);
    UploadStaysMid(s.db, s.db, p, rest, Upload(p, rest, Lookup, 0), picks);
  }

  /** So does a batch delete, and garbage collection. */
  lemma FailedHashIsSkipped(
    s: State, p: Pubkey, h: Hash, rest: seq<Hash>, pick: Pubkey, picks: seq<Pubkey>, t: Tables)
    requires Inv(s)
    requires AfterFault(s, BatchDelete(p, [h] + rest, BatchCheck, 0), [], pick, picks) == State(t, s.calls + [Done])
    ensures t.refs == s.db.refs - set g | g in rest :: (p, g)
    ensures forall u :: Used(t, u) == if u == p then Max(0, Used(s.db, u) - (Owned(s.db, p) - Owned(t, p)))
                                      else Used(s.db, u)
  {
    FaultIsARun(s, BatchDelete(p, [h] + rest, BatchCheck, 0), [], pick, picks, t, Done);
    assert ([h] + rest)[1..] == rest && rest[..0] == [];
    NothingRemoved(s.db, p);
    BatchStaysMid(s.db, s.db, p, rest, BatchDelete(p, rest, BatchCheck, 0), picks);
  }

  lemma FailedRowIsSkipped(s: State, h: Hash, rest: seq<Hash>, pick: Pubkey, picks: seq<Pubkey>, t: Tables)
    requires AfterFault(s, Gc([h] + rest), [], pick, picks) == State(t, s.calls + [Done])
    ensures t.refs == s.db.refs && t.users == s.db.users
    ensures t.blobs == map g | g in s.db.blobs && (g in rest ==> HasOwner(s.db, g)) :: s.db.blobs[g]
  {
    FaultIsARun(s, Gc([h] + rest), [], pick, picks, t, Done);
    assert ([h] + rest)[1..] == rest && [] + rest == rest;
    GcStaysMid(s.db, s.db, [], rest, picks);
  }
}
