/**
 * The write theorem read the other way: for a payload with one nested write at each level, the wall
 * holds exactly when what the guard does not inspect does no harm. The same for deletions.
 */
module TenantExact {
  import opened Wrappers
  import opened TenantData
  import opened TenantGuard
  import opened TenantWrites

  // ── The payloads and schemas in question ──────────────────────────────────

  /** At most one nested write at each level. */
  predicate Lean(p: Payload)
    decreases p, 1
  {
    |p.nested| <= 1 && forall i | 0 <= i < |p.nested| :: LeanOp(p.nested[i])
  }

  predicate LeanOp(n: Nested)
    decreases n, 0
  {
    match n.op
    case Create(c) => Lean(c)
    case ConnectOrCreate(_, c) => Lean(c)
    case _ => true
  }

  /** A row names its organisation in `tenantId` and in no other column. */
  ghost predicate OneTenantKey(sch: Schema) {
    forall m, c | m in sch.refs && c in sch.refs[m] :: KindOf(sch, sch.refs[m][c].target).TenantModel? ==> c == TenantId
  }

  ghost predicate Layered(sch: Schema) {
    WellFormed(sch) && NoWayBack(sch) && OneTenantKey(sch)
  }

  /** The tenant's own row exists. */
  ghost predicate Registered(sch: Schema, db: Db, t: Id) {
    forall m | m in sch.kinds && sch.kinds[m].TenantModel? :: Key(m, t) in db
  }

  ghost predicate Held(sch: Schema, t: Id, before: Db, after: Db) {
    Good(sch, after) && WallHeld(sch, t, before, after)
  }

  // ── Reading the condition off a database in which the wall held ───────────

  /** A row that was made, or an organisation, is `t`'s. */
  lemma AtHandIsMine(sch: Schema, t: Id, before: Db, after: Db, k: Key)
    requires Registered(sch, before, t) && Held(sch, t, before, after)
    requires k in after && AtHand(sch, before, t, k)
    requires KindOf(sch, k.model).TenantModel? || (KindOf(sch, k.model).Direct? && k !in before)
    ensures Owner(sch, after, k) == Some(t)
  {
  }

  /** A row of `t` does not refer to a row that was another tenant's. */
  lemma MineNamesNoForeignRow(sch: Schema, t: Id, before: Db, after: Db, k: Key, fk: Column, y: Key)
    requires Held(sch, t, before, after) && Owner(sch, after, k) == Some(t) && k in after
    requires fk in RefsOf(sch, k.model) && RefsOf(sch, k.model)[fk].target == y.model && Get(after[k], fk) == Some(y.id)
    ensures !Foreign(Owner(sch, before, y), t)
  {
    if Foreign(Owner(sch, before, y), t) {
      assert RefersTo(sch, after, k, fk, y);
    }
  }

  /** A row that became `t`'s had nothing to do with anybody else. */
  lemma UntangledWhenMine(sch: Schema, t: Id, before: Db, after: Db, k: Key)
    requires WellFormed(sch) && Held(sch, t, before, after)
    requires k in before && Owner(sch, before, k) == None && k in after && Owner(sch, after, k) == Some(t)
    requires forall c | c in before[k] && !CarriesOwner(sch, k.model, c) :: Get(after[k], c) == Some(before[k][c])
    ensures Untangled(sch, before, t, k)
  {
    forall x, fk | RefersTo(sch, before, x, fk, k)
      ensures !Foreign(Owner(sch, before, x), t)
    {
      if Foreign(Owner(sch, before, x), t) {
        assert RefersTo(sch, after, x, fk, k);
      }
    }
    forall fk, y | RefersTo(sch, before, k, fk, y)
      ensures !Foreign(Owner(sch, before, y), t)
    {
      if !CarriesOwner(sch, k.model, fk) {
        MineNamesNoForeignRow(sch, t, before, after, k, fk, y);
      }
    }
  }

  // ── How far the operation has come ────────────────────────────────────────

  /** Only `t`'s rows have been touched so far. */
  ghost predicate Grown(sch: Schema, t: Id, before: Db, db: Db) {
    before.Keys <= db.Keys && forall k | k in before && Owner(sch, before, k) != Some(t) :: db[k] == before[k]
  }

  /** What is still to come touches neither the rows that were not `t`'s nor those made since `db`. */
  ghost predicate Lasts(sch: Schema, t: Id, before: Db, db: Db, done: Db, after: Db) {
    && done.Keys <= after.Keys
    && (forall k | k in before && k in done && Owner(sch, before, k) != Some(t) :: after[k] == done[k])
    && (forall k | k in done && k !in db :: after[k] == done[k])
  }

  /** The key of a row created through `r` that the link writes. */
  function KeyBelow(r: Relation): Option<Column> {
    if r.Back? then Some(r.fk) else None
  }

  /** The same, but that the row `made` is still to be linked through `link`. */
  ghost predicate LastsBut(
    sch: Schema, t: Id, before: Db, db: Db, done: Db, after: Db, made: Key, link: Option<Column>)
  {
    && done.Keys <= after.Keys
    && (forall k | k in before && k in done && Owner(sch, before, k) != Some(t) :: after[k] == done[k])
    && (forall k | k in done && k !in db && k != made :: after[k] == done[k])
    && (made in done ==> forall c | link != Some(c) :: Get(after[made], c) == Get(done[made], c))
  }

  /** Nor is the key of `x` touched that relation `f` writes. */
  ghost predicate OwnKeyLasts(sch: Schema, x: Key, f: Field, done: Db, after: Db) {
    f in RelationsOf(sch, x.model) && RelationsOf(sch, x.model)[f].Own? && x in done ==>
      x in after && Get(after[x], RelationsOf(sch, x.model)[f].fk) == Get(done[x], RelationsOf(sch, x.model)[f].fk)
  }

  lemma InsertGrows(
    sch: Schema, t: Id, before: Db, db: Db, k: Key, row: Row, done: Db, after: Db, link: Option<Column>)
    requires Grown(sch, t, before, db) && k !in db && LastsBut(sch, t, before, db, done, after, k, link)
    ensures Grown(sch, t, before, db[k := row]) && LastsBut(sch, t, before, db[k := row], done, after, k, link)
  {
  }

  lemma LinkLasts(sch: Schema, t: Id, before: Db, db: Db, made: Db, x: Key, r: Relation, k: Key, after: Db)
    requires before.Keys <= db.Keys <= made.Keys && x in db && k in made && k !in db && AtHand(sch, before, t, x)
    requires Lasts(sch, t, before, db, Link(sch, made, x, r, k), after)
    ensures LastsBut(sch, t, before, db, made, after, k, KeyBelow(r))
  {
  }

  // ── The connect at the bottom ─────────────────────────────────────────────

  lemma ClaimedIsFree(sch: Schema, t: Id, before: Db, x: Key, fk: Column, y: Key, after: Db)
    requires WellFormed(sch) && Good(sch, before) && Held(sch, t, before, after)
    requires x in after && Owner(sch, after, x) == Some(t) && y in before && Owner(sch, before, y) == None
    requires CarriesOwner(sch, y.model, fk) && fk in RefsOf(sch, y.model) && RefsOf(sch, y.model)[fk].target == x.model
    requires forall k | k in before && Owner(sch, before, k) != Some(t) ::
               k in after && after[k] == if k == y then before[y][fk := x.id] else before[k]
    ensures Free(sch, before, t, y)
  {
    assert Owner(sch, after, y) == Some(t);
    UntangledWhenMine(sch, t, before, after, y);
    forall c | ChildOf(sch, before, c, y)
      ensures Untangled(sch, before, t, c)
    {
      assert KindOf(sch, y.model).Direct? && Owner(sch, before, c) == None;
      UntangledWhenMine(sch, t, before, after, c);
    }
  }

  lemma ForeignRowNamesNoneOfMine(sch: Schema, t: Id, before: Db, x: Key, fk: Column, y: Key)
    requires WellFormed(sch) && Good(sch, before) && AtHand(sch, before, t, x)
    requires y in before && Foreign(Owner(sch, before, y), t)
    requires fk in RefsOf(sch, y.model) && RefsOf(sch, y.model)[fk].target == x.model
    ensures Get(before[y], fk) != Some(x.id)
  {
    assert fk in before[y] ==> KeyHolds(sch, before, y, fk);
    assert x in before ==> !RefersTo(sch, before, y, fk, x);
  }

  /** The row whose nested write this is: one the payload made, or the updated one, still `t`'s in the end. */
  ghost predicate Anchor(sch: Schema, t: Id, before: Db, x: Key, after: Db) {
    && x in after && AtHand(sch, before, t, x) && Walled(sch, x.model)
    && (KindOf(sch, x.model).Direct? && x in before ==> Get(after[x], TenantId) == Some(t))
  }

  lemma BackLinkIsHarmless(sch: Schema, t: Id, before: Db, x: Key, fk: Column, y: Key, after: Db)
    requires WellFormed(sch) && Good(sch, before) && Registered(sch, before, t) && Held(sch, t, before, after)
    requires Anchor(sch, t, before, x, after)
    requires fk in RefsOf(sch, y.model) && RefsOf(sch, y.model)[fk].target == x.model
    requires forall k | k in before && Owner(sch, before, k) != Some(t) ::
               k in after && after[k] == if k == y then before[y][fk := x.id] else before[k]
    ensures HarmlessLink(sch, before, t, x, Back(y.model, fk), y)
  {
    if y in before && Foreign(Owner(sch, before, y), t) {
      ForeignRowNamesNoneOfMine(sch, t, before, x, fk, y);
    }
    if CarriesOwner(sch, y.model, fk) && y in before && Owner(sch, before, y) == None {
      if KindOf(sch, x.model).TenantModel? || x !in before {
        AtHandIsMine(sch, t, before, after, x);
      }
      ClaimedIsFree(sch, t, before, x, fk, y, after);
    }
  }

  /** A connect along a key to an organisation: it is the row's owner afterwards. */
  lemma OwnTenantIsMine(sch: Schema, t: Id, before: Db, x: Key, y: Key, after: Db)
    requires Held(sch, t, before, after) && x in after && AtHand(sch, before, t, x)
    requires KindOf(sch, x.model).Direct? && Get(after[x], TenantId) == Some(y.id)
    requires KindOf(sch, y.model).TenantModel?
    ensures !Foreign(Owner(sch, before, y), t)
  {
  }

  lemma ConnectIsHarmless(sch: Schema, t: Id, before: Db, db: Db, x: Key, f: Field, u: Unique, y: Key, after: Db)
    requires Layered(sch) && Good(sch, before) && Registered(sch, before, t)
    requires Grown(sch, t, before, db) && Held(sch, t, before, after)
    requires x in db && y in db && f in RelationsOf(sch, x.model)
    requires Target(sch, x.model, RelationsOf(sch, x.model)[f]) == Some(y.model)
    requires RelationsOf(sch, x.model)[f].Back? ==> Anchor(sch, t, before, x, after)
    requires AtHand(sch, before, t, x) && Walled(sch, x.model)
    requires !Checked(sch, RelationsOf(sch, x.model)[f], y.model, u, true)
    requires var done := Link(sch, db, x, RelationsOf(sch, x.model)[f], y);
             Lasts(sch, t, before, db, done, after) && OwnKeyLasts(sch, x, f, done, after)
    ensures HarmlessLink(sch, before, t, x, RelationsOf(sch, x.model)[f], y)
  {
    match RelationsOf(sch, x.model)[f]
    case Own(fk) =>
      assert fk == TenantId && KindOf(sch, x.model).Direct?;
      OwnTenantIsMine(sch, t, before, x, y, after);
    case Back(_, fk) => BackLinkIsHarmless(sch, t, before, x, fk, y, after);
  }

  // ── Level by level ────────────────────────────────────────────────────────

  /** What the updated row keeps while its one nested write runs. */
  ghost predicate Updated(sch: Schema, t: Id, before: Db, db: Db, x: Key, done: Option<Db>, after: Db)
    requires x in db
  {
    x in before ==> done == Some(after) && (KindOf(sch, x.model).Direct? ==> Get(db[x], TenantId) == Some(t))
  }

  lemma {:induction false} OpIsHarmless(
    sch: Schema, t: Id, before: Db, db: Db, x: Key, n: Nested, via: Option<Relation>, after: Db)
    requires Layered(sch) && Good(sch, before) && Registered(sch, before, t)
    requires Grown(sch, t, before, db) && Held(sch, t, before, after)
    requires x in db && AtHand(sch, before, t, x) && Walled(sch, x.model)
    requires LeanOp(n) && AcceptedOp(sch, x.model, n, via)
    requires var done := RunOp(sch, db, x, FillOp(sch, t, x.model, n));
             && done.Some? && Lasts(sch, t, before, db, done.value, after) && OwnKeyLasts(sch, x, n.field, done.value, after)
             && Updated(sch, t, before, db, x, done, after)
    ensures HarmlessOp(sch, before, t, db, x, FillOp(sch, t, x.model, n), true)
    decreases n, 2
  {
    var r := RelationsOf(sch, x.model)[n.field];
    var m := Target(sch, x.model, r).value;
    match n.op
    case Connect(u) => FoundIsHarmless(sch, t, before, db, x, n.field, m, u, after);
    case Create(c) => CreateBelowIsHarmless(sch, t, before, db, x, n.field, m, c, after);
    case ConnectOrCreate(u, c) =>
      if Find(db, m, u).Some? {
        FoundIsHarmless(sch, t, before, db, x, n.field, m, u, after);
      } else {
        CreateBelowIsHarmless(sch, t, before, db, x, n.field, m, c, after);
      }
    case Touch(_) =>
  }

  lemma FoundIsHarmless(sch: Schema, t: Id, before: Db, db: Db, x: Key, f: Field, m: Model, u: Unique, after: Db)
    requires Layered(sch) && Good(sch, before) && Registered(sch, before, t)
    requires Grown(sch, t, before, db) && Held(sch, t, before, after)
    requires x in db && AtHand(sch, before, t, x) && Walled(sch, x.model)
    requires f in RelationsOf(sch, x.model) && Target(sch, x.model, RelationsOf(sch, x.model)[f]) == Some(m)
    requires Find(db, m, u).Some?
    requires var done := Link(sch, db, x, RelationsOf(sch, x.model)[f], Find(db, m, u).value);
             && Lasts(sch, t, before, db, done, after) && OwnKeyLasts(sch, x, f, done, after)
             && Updated(sch, t, before, db, x, Some(done), after)
    ensures HarmlessConnect(sch, before, t, db, x, RelationsOf(sch, x.model)[f], m, u, true)
  {
    var r := RelationsOf(sch, x.model)[f];
    if !Checked(sch, r, m, u, true) {
      ConnectIsHarmless(sch, t, before, db, x, f, u, Find(db, m, u).value, after);
    }
  }

  lemma {:induction false} CreateBelowIsHarmless(
    sch: Schema, t: Id, before: Db, db: Db, x: Key, f: Field, m: Model, c: Payload, after: Db)
    requires Layered(sch) && Good(sch, before) && Registered(sch, before, t)
    requires Grown(sch, t, before, db) && Held(sch, t, before, after)
    requires x in db && AtHand(sch, before, t, x) && Walled(sch, x.model)
    requires f in RelationsOf(sch, x.model) && Target(sch, x.model, RelationsOf(sch, x.model)[f]) == Some(m)
    requires Lean(c) && Accepted(sch, m, c, Some(Inverse(x.model, RelationsOf(sch, x.model)[f])))
    requires var made := CreateRow(sch, db, m, Fill(sch, t, m, c));
             made.Some? && Lasts(sch, t, before, db, Link(sch, made.value, x, RelationsOf(sch, x.model)[f], Key(m, c.id)), after)
    ensures HarmlessCreate(sch, before, t, db, m, Fill(sch, t, m, c), true)
    decreases c, 3
  {
    var r := RelationsOf(sch, x.model)[f];
    if Walled(sch, m) {
      LinkLasts(sch, t, before, db, CreateRow(sch, db, m, Fill(sch, t, m, c)).value, x, r, Key(m, c.id), after);
      CreateIsHarmless(sch, t, before, db, m, c, Some(Inverse(x.model, r)), KeyBelow(r), after);
    } else {
      assert LeavesForGood(sch, x.model, r);
      OutsideCreate(sch, before, t, db, m, c, Some(Inverse(x.model, r)), true);
    }
  }

  /** The link of a created row writes the key of the one relation its own nested writes may not use. */
  predicate LinkedBy(via: Option<Relation>, link: Option<Column>) {
    link.Some? ==> via == Some(Own(link.value))
  }

  lemma {:induction false} CreateIsHarmless(
    sch: Schema, t: Id, before: Db, db: Db, m: Model, c: Payload, via: Option<Relation>, link: Option<Column>, after: Db)
    requires Layered(sch) && Good(sch, before) && Registered(sch, before, t)
    requires Grown(sch, t, before, db) && Held(sch, t, before, after)
    requires Walled(sch, m) && Lean(c) && Accepted(sch, m, c, via) && LinkedBy(via, link)
    requires var done := CreateRow(sch, db, m, Fill(sch, t, m, c));
             done.Some? && LastsBut(sch, t, before, db, done.value, after, Key(m, c.id), link)
    ensures HarmlessCreate(sch, before, t, db, m, Fill(sch, t, m, c), true)
    decreases c, 2
  {
    var q, k := Fill(sch, t, m, c), Key(m, c.id);
    var made := db[k := RowOf(q.cols)];
    InsertGrows(sch, t, before, db, k, RowOf(q.cols), CreateRow(sch, db, m, q).value, after, link);
    NestedIsHarmless(sch, t, before, made, k, c, q, via, link, after);
  }

  lemma {:induction false} NestedIsHarmless(
    sch: Schema, t: Id, before: Db, db: Db, x: Key, p: Payload, q: Payload, via: Option<Relation>, link: Option<Column>, after: Db)
    requires Layered(sch) && Good(sch, before) && Registered(sch, before, t)
    requires Grown(sch, t, before, db) && Held(sch, t, before, after)
    requires x in db && AtHand(sch, before, t, x) && Walled(sch, x.model)
    requires Lean(p) && Accepted(sch, x.model, p, via) && LinkedBy(via, link) && q.nested == FillNested(sch, t, x.model, p)
    requires var done := RunNested(sch, db, x, q, 0);
             && done.Some? && LastsBut(sch, t, before, db, done.value, after, x, link)
             && Updated(sch, t, before, db, x, done, after)
    ensures HarmlessNested(sch, before, t, db, x, q, 0, true)
    decreases p, 1
  {
    if |p.nested| == 1 {
      var n := p.nested[0];
      assert n < p && q.nested[0] == FillOp(sch, t, x.model, n);
      assert LeanOp(n) && AcceptedOp(sch, x.model, n, via);
      OneNested(sch, db, x, q);
      OpIsHarmless(sch, t, before, db, x, n, via, after);
    }
    OneNestedIsHarmless(sch, before, t, db, x, q, true);
  }

  lemma OneNested(sch: Schema, db: Db, x: Key, p: Payload)
    requires x in db && |p.nested| == 1
    ensures RunNested(sch, db, x, p, 0) == RunOp(sch, db, x, p.nested[0])
  {
    var done := RunOp(sch, db, x, p.nested[0]);
    if done.Some? {
      assert RunNested(sch, done.value, x, p, 1) == Some(done.value);
    }
  }

  lemma OneNestedIsHarmless(sch: Schema, before: Db, t: Id, db: Db, x: Key, p: Payload, inspected: bool)
    requires x in db && |p.nested| <= 1
    requires |p.nested| == 1 ==> HarmlessOp(sch, before, t, db, x, p.nested[0], inspected)
    ensures HarmlessNested(sch, before, t, db, x, p, 0, inspected)
  {
    if |p.nested| == 1 {
      var done := RunOp(sch, db, x, p.nested[0]);
      assert done.Some? ==> HarmlessNested(sch, before, t, done.value, x, p, 1, inspected);
    }
  }

  // ── The exact conditions ──────────────────────────────────────────────────

  lemma HeldUpdateIsHarmless(sch: Schema, db: Db, t: Id, x: Key, p: Payload, q: Payload, after: Db)
    requires Layered(sch) && Good(sch, db) && Registered(sch, db, t) && Held(sch, t, db, after)
    requires x in db && Walled(sch, x.model) && Owner(sch, db, x) == Some(t) && TenantKept(sch, t, x.model, p.cols)
    requires q == Payload(p.id, p.cols, FillNested(sch, t, x.model, p)) && UpdateRow(sch, db, x, q) == Some(after)
    requires Lean(p) && Accepted(sch, x.model, p, None)
    ensures HarmlessUpdate(sch, db, t, x, p)
  {
    NestedIsHarmless(sch, t, db, db[x := Merge(db[x], p.cols)], x, p, q, None, None, after);
  }

  /** An update that the client, the guard and the database accept. */
  lemma UpdateIsExact(sch: Schema, db: Db, t: Id, x: Key, p: Payload)
    requires Layered(sch) && Good(sch, db) && Registered(sch, db, t)
    requires x in db && Walled(sch, x.model) && Owner(sch, db, x) == Some(t) && RefsAllowed(sch, db, t, x.model, p)
    requires Lean(p) && Accepted(sch, x.model, p, None)
    requires var done := UpdateRow(sch, db, x, Payload(p.id, p.cols, FillNested(sch, t, x.model, p)));
             done.Some? && Constraints(sch, done.value)
    ensures var after := UpdateGuarded(sch, db, t, x, p);
            Good(sch, after) && WallHeld(sch, t, db, after) <==> HarmlessUpdate(sch, db, t, x, p)
  {
    var q := Payload(p.id, p.cols, FillNested(sch, t, x.model, p));
    var after := UpdateRow(sch, db, x, q).value;
    if Good(sch, after) && WallHeld(sch, t, db, after) {
      HeldUpdateIsHarmless(sch, db, t, x, p, q, after);
    }
    if HarmlessUpdate(sch, db, t, x, p) {
      UpdateHoldsTheWall(sch, t, db, x, p);
    }
  }

  /** A create that the client, the guard and the database accept. */
  lemma CreateIsExact(sch: Schema, db: Db, t: Id, m: Model, p: Payload)
    requires Layered(sch) && Good(sch, db) && Registered(sch, db, t) && Walled(sch, m) && CreateAllowed(sch, db, t, m, p)
    requires Lean(p) && Accepted(sch, m, p, None)
    requires var done := CreateRow(sch, db, m, Fill(sch, t, m, p));
             done.Some? && Constraints(sch, done.value)
    ensures var after := CreateGuarded(sch, db, t, m, p);
            Good(sch, after) && WallHeld(sch, t, db, after) <==>
            HarmlessCreate(sch, db, t, db, m, Fill(sch, t, m, p), true)
  {
    var q := Fill(sch, t, m, p);
    var after := CreateRow(sch, db, m, q).value;
    if Good(sch, after) && WallHeld(sch, t, db, after) {
      CreateIsHarmless(sch, t, db, db, m, p, None, None, after);
    }
    if HarmlessCreate(sch, db, t, db, m, q, true) {
      CreateHoldsTheWall(sch, t, db, m, p);
    }
  }

  // ── Deletions ─────────────────────────────────────────────────────────────

  /**
   * No row of another tenant refers, by a key that cascades or is cleared, to an ownerless row that
   * goes along with the roots.
   */
  ghost predicate NobodyHangsOn(sch: Schema, db: Db, t: Id, roots: set<Key>) {
    forall y, d | Doomed(sch, db, roots, d) && Owner(sch, db, d) == None && Foreign(Owner(sch, db, y), t) ::
      !ActsOn(sch, db, y, d, Cascade) && !ActsOn(sch, db, y, d, SetNull)
  }

  /** Then nothing of another tenant's is on the way of the cascade. */
  lemma {:induction false} CascadeStaysClear(sch: Schema, t: Id, db: Db, roots: set<Key>, path: seq<Key>)
    requires Sealed(sch, db) && NobodyHangsOn(sch, db, t, roots)
    requires forall x | x in roots :: x in db && Owner(sch, db, x) == Some(t)
    requires path != [] && path[0] in roots && CascadePath(sch, db, path)
    ensures !Foreign(Owner(sch, db, path[|path| - 1]), t)
    decreases |path|
  {
    if |path| > 1 {
      var y, d := path[|path| - 1], path[|path| - 2];
      CascadeStaysClear(sch, t, db, roots, path[..|path| - 1]);
      assert DoomedBy(sch, db, roots, d, path[..|path| - 1]);
      assert ActsOn(sch, db, path[|path| - 2 + 1], path[|path| - 2], Cascade);
      var fk :| RefersTo(sch, db, y, fk, d) && RefsOf(sch, y.model)[fk].onDelete == Cascade;
    }
  }

  lemma ClearMeansSpared(sch: Schema, t: Id, db: Db, roots: set<Key>, y: Key)
    requires WellFormed(sch) && Good(sch, db) && NobodyHangsOn(sch, db, t, roots)
    requires forall x | x in roots :: x in db && Owner(sch, db, x) == Some(t)
    requires y in db && Foreign(Owner(sch, db, y), t)
    ensures !Doomed(sch, db, roots, y) && Cut(sch, db, roots, y) == db[y]
  {
    if Doomed(sch, db, roots, y) {
      var path :| DoomedBy(sch, db, roots, y, path);
      CascadeStaysClear(sch, t, db, roots, path);
    }
    forall c | c in db[y]
      ensures !Cleared(sch, db, roots, y, c)
    {
      if Cleared(sch, db, roots, y, c) {
        var d := Key(RefsOf(sch, y.model)[c].target, db[y][c]);
        var path :| DoomedBy(sch, db, roots, d, path);
        CascadeStaysClear(sch, t, db, roots, path);
        assert KeyHolds(sch, db, y, c);
        assert RefersTo(sch, db, y, c, d);
        assert ActsOn(sch, db, y, d, SetNull);
      }
    }
  }

  /** A row that refers to one that goes along goes along itself, or loses the key. */
  lemma HangingIsHit(sch: Schema, db: Db, roots: set<Key>, y: Key, d: Key)
    requires Doomed(sch, db, roots, d) && y in db
    ensures ActsOn(sch, db, y, d, Cascade) ==> Doomed(sch, db, roots, y)
    ensures ActsOn(sch, db, y, d, SetNull) ==> Cut(sch, db, roots, y) != db[y]
  {
    var path :| DoomedBy(sch, db, roots, d, path);
    if ActsOn(sch, db, y, d, Cascade) {
      assert (path + [y])[..|path|] == path;
      assert DoomedBy(sch, db, roots, y, path + [y]);
    }
    if ActsOn(sch, db, y, d, SetNull) {
      var fk :| RefersTo(sch, db, y, fk, d) && RefsOf(sch, y.model)[fk].onDelete == SetNull;
      assert Cleared(sch, db, roots, y, fk);
      assert fk !in Cut(sch, db, roots, y);
    }
  }

  /** A deletion of rows of `t` that the database accepts: the condition is on the keys to what goes along. */
  lemma DeletionIsExact(sch: Schema, db: Db, t: Id, roots: set<Key>)
    requires WellFormed(sch) && Good(sch, db)
    requires forall x | x in roots :: x in db && Owner(sch, db, x) == Some(t)
    requires DeleteRows(sch, db, roots).Some? && Constraints(sch, DeleteRows(sch, db, roots).value)
    ensures var after := Commit(sch, db, DeleteRows(sch, db, roots));
            Good(sch, after) && WallHeld(sch, t, db, after) <==> NobodyHangsOn(sch, db, t, roots)
  {
    if NobodyHangsOn(sch, db, t, roots) {
      forall y | y in db && Foreign(Owner(sch, db, y), t)
        ensures !Doomed(sch, db, roots, y) && Cut(sch, db, roots, y) == db[y]
      {
        ClearMeansSpared(sch, t, db, roots, y);
      }
      DeletionHoldsTheWall(sch, t, db, roots);
    }
    if WallHeld(sch, t, db, DeleteRows(sch, db, roots).value) {
      assert SparesOthers(sch, db, t, roots);
      forall y, d | Doomed(sch, db, roots, d) && Owner(sch, db, d) == None && Foreign(Owner(sch, db, y), t)
        ensures !ActsOn(sch, db, y, d, Cascade) && !ActsOn(sch, db, y, d, SetNull)
      {
        if y in db {
          HangingIsHit(sch, db, roots, y, d);
        }
      }
    }
  }

  // ── The simplest case ─────────────────────────────────────────────────────

  /** What a checked connect names is harmless to relate to. */
  lemma CheckedIsHarmless(sch: Schema, t: Id, db: Db, x: Key, r: Relation, u: Unique, y: Key)
    requires WellFormed(sch) && Good(sch, db) && !NamesForeign(sch, db, t, y.model, u)
    requires Checked(sch, r, y.model, u, true) && Find(db, y.model, u) == Some(y)
    ensures HarmlessLink(sch, db, t, x, r, y)
  {
    StartKept(sch, t, db);
    NamedRowIsNotForeign(sch, t, db, db, y.model, u, y);
  }

  function Connecting(f: Field, u: Unique): Payload {
    Payload("", map[], [Nested(f, Connect(u))])
  }

  /** The database is handed the connect as it is, and links the two rows. */
  lemma ConnectRuns(sch: Schema, db: Db, t: Id, x: Key, f: Field, u: Unique, y: Key)
    requires x in db && y in db && f in RelationsOf(sch, x.model)
    requires Target(sch, x.model, RelationsOf(sch, x.model)[f]) == Some(y.model) && Find(db, y.model, u) == Some(y)
    ensures FillNested(sch, t, x.model, Connecting(f, u)) == Connecting(f, u).nested
    ensures UpdateRow(sch, db, x, Connecting(f, u)) == Some(Link(sch, db, x, RelationsOf(sch, x.model)[f], y))
    ensures db[x := Merge(db[x], map[])] == db
  {
    var p := Connecting(f, u);
    assert FillOp(sch, t, x.model, p.nested[0]) == p.nested[0];
    assert Merge(db[x], p.cols) == db[x] && db[x := db[x]] == db;
    OneNested(sch, db, x, p);
  }

  lemma ConnectHarm(sch: Schema, db: Db, t: Id, x: Key, f: Field, u: Unique, y: Key)
    requires WellFormed(sch) && Good(sch, db) && x in db && y in db && f in RelationsOf(sch, x.model)
    requires Target(sch, x.model, RelationsOf(sch, x.model)[f]) == Some(y.model) && Find(db, y.model, u) == Some(y)
    requires !NamesForeign(sch, db, t, y.model, u)
    ensures HarmlessUpdate(sch, db, t, x, Connecting(f, u)) <==> HarmlessLink(sch, db, t, x, RelationsOf(sch, x.model)[f], y)
  {
    var p, r := Connecting(f, u), RelationsOf(sch, x.model)[f];
    ConnectRuns(sch, db, t, x, f, u, y);
    if Checked(sch, r, y.model, u, true) {
      CheckedIsHarmless(sch, t, db, x, r, u, y);
    }
    if HarmlessOp(sch, db, t, db, x, p.nested[0], true) {
      OneNestedIsHarmless(sch, db, t, db, x, p, true);
    }
  }

  /**
   * An update that only connects `x` to `y`: the wall holds exactly when `y` is not another tenant's
   * and, should it have no owner and become `t`'s, nobody else has to do with it.
   */
  lemma ConnectIsExact(sch: Schema, db: Db, t: Id, x: Key, f: Field, u: Unique, y: Key)
    requires Layered(sch) && Good(sch, db) && Registered(sch, db, t)
    requires x in db && Walled(sch, x.model) && Owner(sch, db, x) == Some(t) && y in db
    requires f in RelationsOf(sch, x.model) && Target(sch, x.model, RelationsOf(sch, x.model)[f]) == Some(y.model)
    requires Find(db, y.model, u) == Some(y) && RefsAllowed(sch, db, t, x.model, Connecting(f, u))
    requires Constraints(sch, Link(sch, db, x, RelationsOf(sch, x.model)[f], y))
    ensures var after := UpdateGuarded(sch, db, t, x, Connecting(f, u));
            Good(sch, after) && WallHeld(sch, t, db, after) <==> HarmlessLink(sch, db, t, x, RelationsOf(sch, x.model)[f], y)
  {
    ConnectRuns(sch, db, t, x, f, u, y);
    assert NestedAllowed(sch, db, t, x.model, Connecting(f, u).nested[0]);
    ConnectHarm(sch, db, t, x, f, u, y);
    UpdateIsExact(sch, db, t, x, Connecting(f, u));
  }
}
