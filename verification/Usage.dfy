/**
 * used_bytes under every interleaving of the calls of Ownership: an exact
 * balance with an error term that names each race and failure that makes
 * usage drift.
 */
module Usage {
  import opened Common
  import opened Tables
  import opened Ownership

  /** What a call still owes `u`'s usage: charges it will add minus credits it will take off. */
  function Pending(c: Call, u: Pubkey): int {
    match c
    case Upload(p, _, _, charge) => if p == u then charge else 0
    case Charging(p, amount) => if p == u then amount else 0
    case BatchDelete(p, _, _, freed) => if p == u then -(freed as int) else 0
    case Crediting(p, amount) => if p == u then -(amount as int) else 0
    case Admin(_, where) => if where.CreditOwner? && where.owner == u then -(where.size as int) else 0
    case Sweep(_, _, freedBy) => if u in freedBy then -(freedBy[u] as int) else 0
    case _ => 0
  }

  function PendingOf(u: Pubkey): Call -> int {
    (c: Call) => Pending(c, u)
  }

  /** Zero exactly when usage, once every pending charge and credit has landed, is what `u` owns. */
  ghost function Balance(s: State, u: Pubkey): int {
    Used(s.db, u) + Sum(s.calls, PendingOf(u)) - Owned(s.db, u)
  }

  /** The blob's length if the forced delete takes a reference of `u` with it. */
  function Cascaded(t: Tables, u: Pubkey, h: Hash): nat {
    if (u, h) in t.refs then h.length else 0
  }

  /** How far a call's next statement, when it succeeds, moves `u`'s balance. */
  ghost function ExecDrift(t: Tables, c: Call, pick: Pubkey, u: Pubkey): int {
    match c
    case Crediting(p, amount) => if p == u then Clamped(t, u, amount) else 0
    case BatchDelete(p, hashes, point, _) =>
      // Removed with the size of a row that was missing when it was looked up.
      if p == u && hashes != [] && point.BatchRemove? && (p, hashes[0]) in t.refs
      then hashes[0].length - point.size else 0
    case Admin(h, where) =>
      if where.CreditOwner? && where.owner == u then Clamped(t, u, where.size)
      else if where.ForceDelete? then Cascaded(t, u, h)
      else 0
    case Sweep(expired, stage, freedBy) =>
      if expired == [] then
        if pick == u && u in freedBy then Clamped(t, u, freedBy[u]) else 0
      else if stage.DeleteExpired? then
        Cascaded(t, u, expired[0].h) - if u in stage.owners then expired[0].size else 0
      else 0
    case _ => 0
  }

  /** A usage statement that fails is dropped: the code logs it and carries on. */
  function FailDrift(c: Call, pick: Pubkey, u: Pubkey): int {
    match c
    case Charging(_, _) => -Pending(c, u)
    case Crediting(_, _) => -Pending(c, u)
    case Admin(_, _) => -Pending(c, u)
    case Sweep(expired, _, _) => if expired == [] && pick == u then -Pending(c, u) else 0
    case _ => 0
  }

  ghost function Drift(s: State, e: Event, u: Pubkey): int {
    match e
    case Start(_) => 0
    case Run(i, pick) => if i < |s.calls| then ExecDrift(s.db, s.calls[i], pick, u) else 0
    case Fail(i, pick) => if i < |s.calls| then FailDrift(s.calls[i], pick, u) else 0
  }

  ghost function RunDrift(s: State, es: seq<Event>, u: Pubkey): int
    decreases |es|
  {
    if es == [] then 0 else Drift(s, es[0], u) + RunDrift(Next(s, es[0]), es[1..], u)
  }

  // ----- one call -----------------------------------------------------------

  ghost predicate Moves(t: Tables, c: Call, t': Tables, c': Call, u: Pubkey, d: int) {
    Used(t', u) + Pending(c', u) - Owned(t', u) == Used(t, u) + Pending(c, u) - Owned(t, u) + d
  }

  lemma ReferenceMoves(t: Tables, t': Tables, p: Pubkey, h: Hash, u: Pubkey)
    requires t'.refs == t.refs + {(p, h)} || t'.refs == t.refs - {(p, h)}
    ensures Owned(t', u) == Owned(t, u)
                            + (if u == p then h.length * (One((p, h) in t'.refs) - One((p, h) in t.refs)) else 0)
  {
    if t'.refs == t.refs {
      OwnedSame(t, t', u);
    } else if (p, h) in t.refs {
      OwnedRemove(t, t', p, h);
    } else {
      OwnedAdd(t, t', p, h);
    }
  }

  lemma UploadBalances(t: Tables, c: Call, pick: Pubkey, u: Pubkey)
    requires Sound(t) && CallOk(c) && c.Upload?
    ensures var (t', c') := Exec(t, c, pick); Moves(t, c, t', c', u, 0)
  {
    var (t', c') := Exec(t, c, pick);
    if c.items == [] {
      OwnedSame(t, t', u);
    } else {
      var i := c.items[0];
      assert ItemOk(i);
      if t'.refs == t.refs {
        OwnedSame(t, t', u);
      } else {
        ReferenceMoves(t, t', c.p, i.h, u);
      }
    }
  }

  lemma DeleteBalances(t: Tables, c: Call, pick: Pubkey, u: Pubkey)
    requires Sound(t) && CallOk(c) && c.Delete?
    ensures var (t', c') := Exec(t, c, pick); Moves(t, c, t', c', u, 0)
  {
    var (t', c') := Exec(t, c, pick);
    if c.step.Remove? && (c.p, c.h) in t.refs {
      ReferenceMoves(t, t', c.p, c.h, u);
    } else {
      OwnedSame(t, t', u);
    }
  }

  lemma BatchDeleteBalances(t: Tables, c: Call, pick: Pubkey, u: Pubkey)
    requires Sound(t) && c.BatchDelete?
    ensures var (t', c') := Exec(t, c, pick); Moves(t, c, t', c', u, ExecDrift(t, c, pick, u))
  {
    var (t', c') := Exec(t, c, pick);
    if c.hashes != [] && c.point.BatchRemove? && (c.p, c.hashes[0]) in t.refs {
      ReferenceMoves(t, t', c.p, c.hashes[0], u);
    } else {
      OwnedSame(t, t', u);
    }
  }

  lemma AdminBalances(t: Tables, c: Call, pick: Pubkey, u: Pubkey)
    requires Sound(t) && CallOk(c) && c.Admin?
    ensures var (t', c') := Exec(t, c, pick); Moves(t, c, t', c', u, ExecDrift(t, c, pick, u))
  {
    var (t', c') := Exec(t, c, pick);
    if c.where.ForceDelete? {
      OwnedDeleteBlob(t, c.h, u);
    } else if t'.refs == t.refs {
      OwnedSame(t, t', u);
    } else {
      ReferenceMoves(t, t', c.where.owner, c.h, u);
    }
  }

  lemma SweepBalances(t: Tables, c: Call, pick: Pubkey, u: Pubkey)
    requires Sound(t) && (c.Sweep? || c.Gc?)
    ensures var (t', c') := Exec(t, c, pick); Moves(t, c, t', c', u, ExecDrift(t, c, pick, u))
  {
    var (t', c') := Exec(t, c, pick);
    if c.Sweep? && c.expired != [] && c.stage.DeleteExpired? {
      OwnedDeleteBlob(t, c.expired[0].h, u);
    } else {
      OwnedSame(t, t', u);
    }
  }

  lemma ExecBalances(t: Tables, c: Call, pick: Pubkey, u: Pubkey)
    requires Sound(t) && CallOk(c)
    ensures var (t', c') := Exec(t, c, pick); Moves(t, c, t', c', u, ExecDrift(t, c, pick, u))
  {
    match c
    case Upload(_, _, _, _) => UploadBalances(t, c, pick, u);
    case Delete(_, _, _) => DeleteBalances(t, c, pick, u);
    case BatchDelete(_, _, _, _) => BatchDeleteBalances(t, c, pick, u);
    case Admin(_, _) => AdminBalances(t, c, pick, u);
    case Gc(_) => SweepBalances(t, c, pick, u);
    case Sweep(_, _, _) => SweepBalances(t, c, pick, u);
    case _ => OwnedSame(t, Exec(t, c, pick).0, u);
  }

  // ----- whole runs ---------------------------------------------------------

  lemma FailMoves(c: Call, pick: Pubkey, u: Pubkey)
    ensures Pending(OnError(c, pick), u) == Pending(c, u) + FailDrift(c, pick, u)
  {
  }

  /** One call moves from c to c', and the tables with it. */
  lemma CallMoves(s: State, i: nat, t': Tables, c': Call, u: Pubkey, d: int)
    requires i < |s.calls| && Moves(s.db, s.calls[i], t', c', u, d)
    ensures Balance(State(t', s.calls[i := c']), u) == Balance(s, u) + d
  {
    SumUpdate(s.calls, i, c', PendingOf(u));
  }

  lemma StepBalances(s: State, e: Event, u: Pubkey)
    requires Inv(s)
    ensures Balance(Next(s, e), u) == Balance(s, u) + Drift(s, e, u)
  {
    match e
    case Start(c) =>
      SumAppend(s.calls, c, PendingOf(u));
    case Run(i, pick) =>
      if i < |s.calls| {
        var (t', c') := Exec(s.db, s.calls[i], pick);
        ExecBalances(s.db, s.calls[i], pick, u);
        CallMoves(s, i, t', c', u, ExecDrift(s.db, s.calls[i], pick, u));
      }
    case Fail(i, pick) =>
      if i < |s.calls| {
        FailMoves(s.calls[i], pick, u);
        CallMoves(s, i, s.db, OnError(s.calls[i], pick), u, FailDrift(s.calls[i], pick, u));
      }
  }

  /** The balance of every key after every schedule is off by exactly the drift of its events. */
  lemma {:induction false} UsageBalance(s: State, es: seq<Event>, u: Pubkey)
    requires Inv(s)
    ensures Balance(After(s, es), u) == Balance(s, u) + RunDrift(s, es, u)
    decreases |es|
  {
    if es != [] {
      StepBalances(s, es[0], u);
      NextKeepsInv(s, es[0]);
      UsageBalance(Next(s, es[0]), es[1..], u);
    }
  }

  ghost predicate Quiescent(s: State) {
    forall c :: c in s.calls ==> c == Done
  }

  /** Once every call has finished, a key's usage is what it owns plus the drift of the run. */
  lemma UsageIsOwnedAtRest(es: seq<Event>, u: Pubkey)
    requires Quiescent(After(INITIAL, es))
    ensures Used(After(INITIAL, es).db, u) == Owned(After(INITIAL, es).db, u) + RunDrift(INITIAL, es, u)
  {
    assert Inv(INITIAL);
    UsageBalance(INITIAL, es, u);
    SumZero(After(INITIAL, es).calls, PendingOf(u));
    assert BlobsOf(EMPTY, u) == {};
  }

  // ----- when usage is exact ------------------------------------------------

  /** One step that leaves `u`'s balance where it was, by what a caller can see before the step. */
  ghost predicate Lands(s: State, e: Event, u: Pubkey) {
    match e
    case Start(_) => true
    case Run(i, pick) => i < |s.calls| ==> StatementLands(s.db, s.calls[i], pick, u)
    case Fail(i, pick) => i < |s.calls| ==> LosesNothing(s.calls[i], pick, u)
  }

  /**
   *  - a credit finds at least its amount in used_bytes;
   *  - a batch delete that removes a reference saw the blob's row;
   *  - a forced admin delete takes no reference of `u` with it;
   *  - a sweep credits `u` for a row exactly what `u` was charged for it.
   */
  ghost predicate StatementLands(t: Tables, c: Call, pick: Pubkey, u: Pubkey) {
    match c
    case Crediting(p, amount) => p == u ==> amount <= Used(t, u)
    case BatchDelete(p, hashes, point, _) =>
      p == u && hashes != [] && point.BatchRemove? && (p, hashes[0]) in t.refs ==> point.size == hashes[0].length
    case Admin(h, where) =>
      && (where.CreditOwner? && where.owner == u ==> where.size <= Used(t, u))
      && (where.ForceDelete? && (u, h) in t.refs ==> h.length == 0)
    case Sweep(expired, stage, freedBy) =>
      if expired == [] then pick == u && u in freedBy ==> freedBy[u] <= Used(t, u)
      else stage.DeleteExpired? ==>
        (if (u, expired[0].h) in t.refs then expired[0].h.length else 0)
          == (if u in stage.owners then expired[0].size else 0)
    case _ => true
  }

  /** The failing statement is not a charge or credit of `u`. */
  ghost predicate LosesNothing(c: Call, pick: Pubkey, u: Pubkey) {
    match c
    case Charging(p, amount) => p == u ==> amount == 0
    case Crediting(p, amount) => p == u ==> amount == 0
    case Admin(_, where) => where.CreditOwner? && where.owner == u ==> where.size == 0
    case Sweep(expired, _, freedBy) => expired == [] && pick == u && u in freedBy ==> freedBy[u] == 0
    case _ => true
  }

  lemma NoDriftExactlyWhenItLands(s: State, e: Event, u: Pubkey)
    ensures Drift(s, e, u) == 0 <==> Lands(s, e, u)
  {
  }

  ghost predicate AllLand(s: State, es: seq<Event>, u: Pubkey)
    decreases |es|
  {
    es == [] || (Lands(s, es[0], u) && AllLand(Next(s, es[0]), es[1..], u))
  }

  ghost predicate Exact(s: State, u: Pubkey) {
    Balance(s, u) == 0
  }

  /** In every run whatever, the balance is exact at every point if and only if every step lands. */
  lemma {:induction false} ExactThroughoutExactlyWhen(s: State, es: seq<Event>, u: Pubkey)
    requires Inv(s) && Exact(s, u)
    ensures AllLand(s, es, u) <==> forall k :: 0 <= k <= |es| ==> Exact(After(s, es[..k]), u)
    decreases |es|
  {
    assert After(s, es[..0]) == s;
    if es != [] {
      var s' := Next(s, es[0]);
      StepBalances(s, es[0], u);
      NextKeepsInv(s, es[0]);
      NoDriftExactlyWhenItLands(s, es[0], u);
      assert After(s, es[..1]) == s';
      if Exact(s', u) {
        ExactThroughoutExactlyWhen(s', es[1..], u);
        ShiftedPrefixes(s, es, u);
      }
    }
  }

  lemma ShiftedPrefixes(s: State, es: seq<Event>, u: Pubkey)
    requires es != [] && Exact(s, u)
    ensures (forall k :: 0 <= k <= |es| ==> Exact(After(s, es[..k]), u)) <==>
            (forall k :: 0 <= k <= |es| - 1 ==> Exact(After(Next(s, es[0]), es[1..][..k]), u))
  {
    var s' := Next(s, es[0]);
    forall k | 0 < k <= |es| ensures After(s, es[..k]) == After(s', es[1..][..k - 1]) {
      assert es[..k][1..] == es[1..][..k - 1];
    }
    if forall k :: 0 <= k <= |es| ==> Exact(After(s, es[..k]), u) {
      forall k | 0 <= k <= |es| - 1 ensures Exact(After(s', es[1..][..k]), u) {
        assert Exact(After(s, es[..k + 1]), u);
      }
    }
    if forall k :: 0 <= k <= |es| - 1 ==> Exact(After(s', es[1..][..k]), u) {
      forall k | 0 <= k <= |es| ensures Exact(After(s, es[..k]), u) {
        if k > 0 {
          assert Exact(After(s', es[1..][..k - 1]), u);
        }
      }
    }
  }

  /**
   * The steps that can leave a key charged for too little: a charge that fails,
   * and a sweep that credits a stale owner, or an owner with more than the
   * plaintext length.
   */
  ghost predicate Undercharges(s: State, e: Event, u: Pubkey) {
    match e
    case Start(_) => false
    case Run(i, _) =>
      && i < |s.calls| && s.calls[i].Sweep? && s.calls[i].expired != [] && s.calls[i].stage.DeleteExpired?
      && u in s.calls[i].stage.owners
      && ((u, s.calls[i].expired[0].h) !in s.db.refs || s.calls[i].expired[0].size > s.calls[i].expired[0].h.length)
    case Fail(i, _) => i < |s.calls| && s.calls[i].Charging? && s.calls[i].p == u
  }

  ghost predicate NeverUndercharges(s: State, es: seq<Event>, u: Pubkey)
    decreases |es|
  {
    es == [] || (!Undercharges(s, es[0], u) && NeverUndercharges(Next(s, es[0]), es[1..], u))
  }

  lemma DriftIsNat(s: State, e: Event, u: Pubkey)
    requires Inv(s) && !Undercharges(s, e, u)
    ensures 0 <= Drift(s, e, u)
  {
    if e.Run? && e.i < |s.calls| {
      assert CallOk(s.calls[e.i]);
    }
  }

  lemma {:induction false} DriftsAddUp(s: State, es: seq<Event>, u: Pubkey)
    requires Inv(s) && NeverUndercharges(s, es, u)
    ensures 0 <= RunDrift(s, es, u)
    ensures RunDrift(s, es, u) == 0 <==> AllLand(s, es, u)
    decreases |es|
  {
    if es != [] {
      DriftIsNat(s, es[0], u);
      NoDriftExactlyWhenItLands(s, es[0], u);
      NextKeepsInv(s, es[0]);
      DriftsAddUp(Next(s, es[0]), es[1..], u);
    }
  }

  /**
   * When all calls are done, a key is charged for exactly what it owns if and
   * only if every step landed; otherwise it is charged for more. This holds of
   * every run in which no charge fails and sweeps credit current owners with
   * plaintext lengths; credits may fail, and admins may force deletes.
   */
  lemma ExactAtRestExactlyWhen(es: seq<Event>, u: Pubkey)
    requires Quiescent(After(INITIAL, es)) && NeverUndercharges(INITIAL, es, u)
    ensures Owned(After(INITIAL, es).db, u) <= Used(After(INITIAL, es).db, u)
    ensures Used(After(INITIAL, es).db, u) == Owned(After(INITIAL, es).db, u) <==> AllLand(INITIAL, es, u)
  {
    assert Inv(INITIAL);
    UsageIsOwnedAtRest(es, u);
    DriftsAddUp(INITIAL, es, u);
  }

  lemma {:induction false} SumOfOthers<T>(s: seq<T>, i: nat, f: T -> int)
    requires i < |s| && forall x :: x in s ==> f(x) <= 0
    ensures Sum(s, f) <= f(s[i])
    decreases |s|
  {
    forall x | x in s[1..] ensures f(x) <= 0 {
      assert x in s;
    }
    if i == 0 {
      SumNonPositive(s[1..], f);
    } else {
      assert s[0] in s;
      SumOfOthers(s[1..], i - 1, f);
    }
  }

  lemma {:induction false} SumNonPositive<T>(s: seq<T>, f: T -> int)
    requires forall x :: x in s ==> f(x) <= 0
    ensures Sum(s, f) <= 0
  {
    if s != [] {
      SumNonPositive(s[1..], f);
    }
  }

  /** No upload of `u` has a reference whose charge has not landed yet. */
  ghost predicate NothingUncharged(s: State, u: Pubkey) {
    forall c :: c in s.calls ==> Pending(c, u) <= 0
  }

  /** The clamp discards part of a credit only when an upload of the same key is still uncharged. */
  lemma ClampNeedsUnchargedUpload(s: State, i: nat, u: Pubkey)
    requires i < |s.calls| && Balance(s, u) == 0 && NothingUncharged(s, u)
    ensures Clamped(s.db, u, -Pending(s.calls[i], u)) == 0
  {
    SumOfOthers(s.calls, i, PendingOf(u));
    LengthsNonNegative(BlobsOf(s.db, u));
    assert s.calls[i] in s.calls;
  }

  /**
   * A schedule that makes every step land:
   *  - no usage statement fails;
   *  - a credit lands only when no upload of `u` is uncharged;
   *  - a forced admin delete finds no reference of `u`;
   *  - a sweep deletes a row whose owners it looked up are the owners it has,
   *    and whose stored size is its plaintext length;
   *  - a batch delete removes a blob whose row it saw.
   */
  ghost predicate Orderly(s: State, e: Event, u: Pubkey) {
    match e
    case Start(_) => true
    case Fail(i, pick) => i < |s.calls| ==> FailDrift(s.calls[i], pick, u) == 0
    case Run(i, pick) =>
      i < |s.calls| ==>
        match s.calls[i]
        case Crediting(p, _) => p == u ==> NothingUncharged(s, u)
        case BatchDelete(p, hashes, point, _) =>
          p == u && hashes != [] && point.BatchRemove? && (p, hashes[0]) in s.db.refs ==> point.size == hashes[0].length
        case Admin(h, where) =>
          && (where.CreditOwner? && where.owner == u ==> NothingUncharged(s, u))
          && (where.ForceDelete? ==> (u, h) !in s.db.refs)
        case Sweep(expired, stage, _) =>
          if expired == [] then pick == u ==> NothingUncharged(s, u)
          else stage.DeleteExpired? ==>
            && (u in stage.owners <==> (u, expired[0].h) in s.db.refs)
            && (u in stage.owners ==> expired[0].size == expired[0].h.length)
        case _ => true
  }

  ghost predicate OrderlyRun(s: State, es: seq<Event>, u: Pubkey)
    decreases |es|
  {
    es == [] || (Orderly(s, es[0], u) && OrderlyRun(Next(s, es[0]), es[1..], u))
  }

  lemma OrderlyStepIsExact(s: State, e: Event, u: Pubkey)
    requires Inv(s) && Balance(s, u) == 0 && Orderly(s, e, u)
    ensures Balance(Next(s, e), u) == 0
  {
    StepBalances(s, e, u);
    if e.Run? && e.i < |s.calls| && NothingUncharged(s, u) {
      ClampNeedsUnchargedUpload(s, e.i, u);
    }
  }

  lemma {:induction false} OrderlyRunIsExact(s: State, es: seq<Event>, u: Pubkey)
    requires Inv(s) && Balance(s, u) == 0 && OrderlyRun(s, es, u)
    ensures Balance(After(s, es), u) == 0
    decreases |es|
  {
    if es != [] {
      OrderlyStepIsExact(s, es[0], u);
      NextKeepsInv(s, es[0]);
      OrderlyRunIsExact(Next(s, es[0]), es[1..], u);
    }
  }

  function PlainRow(p: Pubkey, h: Hash): Row { Row(p, h.length, None, 1) }

  /** An upload up to the point where its reference is in and its charge is not. */
  function UploadUncharged(p: Pubkey, h: Hash): seq<Event> {
    [Start(Upload(p, [Item(h, PlainRow(p, h))], Lookup, 0)), Run(0, p), Run(0, p), Run(0, p), Run(0, p)]
  }

  /** A whole delete of the same blob, and then the upload's charge. */
  function DeleteThenCharge(p: Pubkey, h: Hash): seq<Event> {
    [Start(Delete(p, h, GetBlob)), Run(1, p), Run(1, p), Run(1, p), Run(1, p), Run(0, p)]
  }

  function Uncharged(p: Pubkey, h: Hash): State {
    State(Tables(map[h := PlainRow(p, h)], {(p, h)}, map[]), [Charging(p, h.length)])
  }

  lemma UploadUnchargedRun(p: Pubkey, h: Hash)
    requires h.length > 0
    ensures After(INITIAL, UploadUncharged(p, h)) == Uncharged(p, h)
  {
    var i := Item(h, PlainRow(p, h));
    var rows := map[h := PlainRow(p, h)];
    assert Next(INITIAL, UploadUncharged(p, h)[0]) == State(EMPTY, [Upload(p, [i], Lookup, 0)]) by {
      assert ItemOk(i);
    }
    assert [i][1..] == [];
    FollowTrace([INITIAL,
                 State(EMPTY, [Upload(p, [i], Lookup, 0)]),
                 State(EMPTY, [Upload(p, [i], Insert, 0)]),
                 State(Tables(rows, {}, map[]), [Upload(p, [i], FirstRef, 0)]),
                 State(Tables(rows, {(p, h)}, map[]), [Upload(p, [], Lookup, h.length)]),
                 Uncharged(p, h)], UploadUncharged(p, h));
  }

  lemma DeleteThenChargeRun(p: Pubkey, h: Hash)
    requires h.length > 0
    ensures After(Uncharged(p, h), DeleteThenCharge(p, h)) ==
            State(Tables(map[], {}, map[p := h.length]), [Done, Done])
  {
    var db := Uncharged(p, h).db;
    var c := Charging(p, h.length);
    var gone := Tables(map[], {}, map[]);
    assert RemoveReference(db, p, h) == (gone, Removed(true)) by {
      assert db.refs - {(p, h)} == {};
      assert db.blobs - {h} == map[];
    }
    FollowTrace([Uncharged(p, h),
                 State(db, [c, Delete(p, h, GetBlob)]),
                 State(db, [c, Delete(p, h, CheckOwner(h.length))]),
                 State(db, [c, Delete(p, h, Remove(h.length))]),
                 State(gone, [c, Crediting(p, h.length)]),
                 State(gone, [c, Done]),
                 State(gone.(users := map[p := h.length]), [Done, Done])], DeleteThenCharge(p, h));
  }

  /**
   * Out of that order usage is not conserved: when a delete's credit lands
   * before the upload's charge the clamp discards it, and the key is left
   * charged for a blob it no longer owns.
   */
  lemma CreditFirstIsLost(p: Pubkey, h: Hash)
    requires h.length > 0
    ensures var s := After(INITIAL, UploadUncharged(p, h) + DeleteThenCharge(p, h));
            Quiescent(s) && Owned(s.db, p) == 0 && Used(s.db, p) == h.length
  {
    UploadUnchargedRun(p, h);
    DeleteThenChargeRun(p, h);
    AfterConcat(INITIAL, UploadUncharged(p, h), DeleteThenCharge(p, h));
    assert BlobsOf(Tables(map[], {}, map[p := h.length]), p) == {};
  }
}
