/**
 * Writes behind the wall: what a guarded operation does to the database, what the guard leaves
 * uninspected, and why no run of operations that do no harm there changes, deletes, relinks or
 * re-owns another tenant's row.
 */
module TenantWrites {
  import opened Wrappers
  import opened TenantData
  import opened TenantGuard
  import TenantReads

  // ── Executing a payload ───────────────────────────────────────────────────

  function RowOf(cols: map<Column, Option<string>>): Row {
    map c | c in cols && cols[c].Some? :: cols[c].value
  }

  function Merge(row: Row, cols: map<Column, Option<string>>): Row {
    map c | c in row.Keys + cols.Keys && (if c in cols then cols[c].Some? else true) ::
      if c in cols then cols[c].value else row[c]
  }

  ghost function Find(db: Db, m: Model, u: Unique): Option<Key> {
    if exists k :: Names(db, m, u, k) then
      var k :| Names(db, m, u, k); Some(k)
    else None
  }

  /** Relating `x` to `y`: the key is written on whichever side holds it. */
  function Link(sch: Schema, db: Db, x: Key, r: Relation, y: Key): Db
    requires x in db && y in db
  {
    match r
    case Own(fk) => db[x := db[x][fk := y.id]]
    case Back(_, fk) => db[y := db[y][fk := x.id]]
  }

  ghost function CreateRow(sch: Schema, db: Db, m: Model, p: Payload): (r: Option<Db>)
    ensures r.Some? ==> db.Keys <= r.value.Keys && Key(m, p.id) in r.value
    decreases p, 1
  {
    if Key(m, p.id) in db then None
    else RunNested(sch, db[Key(m, p.id) := RowOf(p.cols)], Key(m, p.id), p, 0)
  }

  ghost function UpdateRow(sch: Schema, db: Db, x: Key, p: Payload): Option<Db>
    requires x in db
  {
    RunNested(sch, db[x := Merge(db[x], p.cols)], x, p, 0)
  }

  ghost function RunNested(sch: Schema, db: Db, x: Key, p: Payload, i: nat): (r: Option<Db>)
    requires x in db && i <= |p.nested|
    ensures r.Some? ==> db.Keys <= r.value.Keys
    decreases p, 0, |p.nested| - i
  {
    if i == |p.nested| then Some(db)
    else match RunOp(sch, db, x, p.nested[i])
      case None => None
      case Some(after) => RunNested(sch, after, x, p, i + 1)
  }

  ghost function RunOp(sch: Schema, db: Db, x: Key, n: Nested): (r: Option<Db>)
    requires x in db
    ensures r.Some? ==> db.Keys <= r.value.Keys
    decreases n, 2
  {
    if n.field !in RelationsOf(sch, x.model) || Target(sch, x.model, RelationsOf(sch, x.model)[n.field]).None? then
      None
    else
      var r := RelationsOf(sch, x.model)[n.field];
      var m := Target(sch, x.model, r).value;
      match n.op
      case Connect(u) =>
        (match Find(db, m, u)
         case None => None
         case Some(y) => Some(Link(sch, db, x, r, y)))
      case Create(c) =>
        (match CreateRow(sch, db, m, c)
         case None => None
         case Some(after) => Some(Link(sch, after, x, r, Key(m, c.id))))
      case ConnectOrCreate(u, c) =>
        (match Find(db, m, u)
         case Some(y) => Some(Link(sch, db, x, r, y))
         case None =>
           match CreateRow(sch, db, m, c)
           case None => None
           case Some(after) => Some(Link(sch, after, x, r, Key(m, c.id))))
      case Touch(rows) =>
        if Walled(sch, m) || exists k | k in rows :: Walled(sch, k.model) then None else Some(db + rows)
  }

  // ── What the database's client accepts ────────────────────────────────────

  /** The relation of the other side. */
  function Inverse(m: Model, r: Relation): Relation {
    match r
    case Own(fk) => Back(m, fk)
    case Back(_, fk) => Own(fk)
  }

  /**
   * The client's input types: what is nested below a relation has no field for the inverse `via` of
   * that relation.
   */
  predicate Accepted(sch: Schema, m: Model, p: Payload, via: Option<Relation>)
    decreases p, 1
  {
    forall i | 0 <= i < |p.nested| :: AcceptedOp(sch, m, p.nested[i], via)
  }

  predicate AcceptedOp(sch: Schema, m: Model, n: Nested, via: Option<Relation>)
    decreases n, 0
  {
    n.field in RelationsOf(sch, m) && Target(sch, m, RelationsOf(sch, m)[n.field]).Some? ==>
      var r := RelationsOf(sch, m)[n.field];
      var target := Target(sch, m, r).value;
      && via != Some(r)
      && match n.op
         case Create(c) => Accepted(sch, target, c, Some(Inverse(m, r)))
         case ConnectOrCreate(_, c) => Accepted(sch, target, c, Some(Inverse(m, r)))
         case _ => true
  }

  /** A path of relations from `m`, reached by `via`, on which no step takes back the one before. */
  predicate Leads(sch: Schema, m: Model, via: Option<Relation>, path: seq<Field>)
    decreases |path|
  {
    path == [] ||
    (&& path[0] in RelationsOf(sch, m) && Target(sch, m, RelationsOf(sch, m)[path[0]]).Some?
     && var r := RelationsOf(sch, m)[path[0]];
        via != Some(r) && Leads(sch, Target(sch, m, r).value, Some(Inverse(m, r)), path[1..]))
  }

  function LastModel(sch: Schema, m: Model, path: seq<Field>): Model
    decreases |path|
  {
    if path == [] || path[0] !in RelationsOf(sch, m) then m
    else match Target(sch, m, RelationsOf(sch, m)[path[0]])
      case None => m
      case Some(next) => LastModel(sch, next, path[1..])
  }

  /** No path from here leads to a walled model. */
  ghost predicate Outside(sch: Schema, m: Model, via: Option<Relation>) {
    forall path | Leads(sch, m, via, path) :: !Walled(sch, LastModel(sch, m, path))
  }

  /** What a payload reaches beyond the wall never leads back behind it. */
  ghost predicate NoWayBack(sch: Schema) {
    forall m, f | Walled(sch, m) && f in RelationsOf(sch, m) :: LeavesForGood(sch, m, RelationsOf(sch, m)[f])
  }

  ghost predicate LeavesForGood(sch: Schema, m: Model, r: Relation) {
    var target := Target(sch, m, r);
    target.Some? && !Walled(sch, target.value) ==> Outside(sch, target.value, Some(Inverse(m, r)))
  }

  lemma OutsideGoesOn(sch: Schema, m: Model, via: Option<Relation>, f: Field)
    requires Outside(sch, m, via) && f in RelationsOf(sch, m) && via != Some(RelationsOf(sch, m)[f])
    requires Target(sch, m, RelationsOf(sch, m)[f]).Some?
    ensures var target := Target(sch, m, RelationsOf(sch, m)[f]).value;
            Outside(sch, target, Some(Inverse(m, RelationsOf(sch, m)[f]))) && !Walled(sch, target)
  {
    var r := RelationsOf(sch, m)[f];
    var target := Target(sch, m, r).value;
    forall path | Leads(sch, target, Some(Inverse(m, r)), path)
      ensures !Walled(sch, LastModel(sch, target, path))
    {
      assert ([f] + path)[1..] == path;
      assert Leads(sch, m, via, [f] + path) && LastModel(sch, m, [f] + path) == LastModel(sch, target, path);
    }
    assert Leads(sch, target, Some(Inverse(m, r)), []);
  }

  // ── Payloads the guard inspects completely ────────────────────────────────

  /**
   * The forms of nested write behind the wall whose references the guard sees in full: an
   * organisation is named by its id, and a `connect` that would hand the other row's ownership over
   * reaches only models whose rows always have an owner.
   */
  predicate Plain(sch: Schema, m: Model, p: Payload)
    decreases p, 1
  {
    forall i | 0 <= i < |p.nested| :: PlainOp(sch, m, p.nested[i])
  }

  predicate PlainOp(sch: Schema, m: Model, n: Nested)
    decreases n, 0
  {
    n.field in RelationsOf(sch, m) && Target(sch, m, RelationsOf(sch, m)[n.field]).Some? ==>
      var r := RelationsOf(sch, m)[n.field];
      var target := Target(sch, m, r).value;
      match n.op
      case Connect(u) => PlainConnect(sch, r, target, u)
      case Create(c) => Walled(sch, target) ==> Plain(sch, target, c)
      case ConnectOrCreate(u, c) => PlainConnect(sch, r, target, u) && (Walled(sch, target) ==> Plain(sch, target, c))
      case Touch(_) => true
  }

  predicate PlainConnect(sch: Schema, r: Relation, target: Model, u: Unique) {
    && (KindOf(sch, target).TenantModel? ==> u.ById?)
    && (r.Back? && CarriesOwner(sch, target, r.fk) ==> target in sch.owned)
  }

  // ── What the guard does not inspect ───────────────────────────────────────

  /** No other tenant's row refers to `k`, and `k` to none. */
  ghost predicate Untangled(sch: Schema, before: Db, t: Id, k: Key) {
    && (forall x, fk | RefersTo(sch, before, x, fk, k) :: !Foreign(Owner(sch, before, x), t))
    && (forall fk, y | RefersTo(sch, before, k, fk, y) :: !Foreign(Owner(sch, before, y), t))
  }

  /** `c` takes its owner from `k`. */
  ghost predicate ChildOf(sch: Schema, before: Db, c: Key, k: Key) {
    var kind := KindOf(sch, c.model);
    c in before && kind.ViaParent? && kind.parent == k.model && kind.fk in before[c] && before[c][kind.fk] == k.id
  }

  /** An ownerless row that, with the rows it would bring along, nobody else has to do with. */
  ghost predicate Free(sch: Schema, before: Db, t: Id, k: Key) {
    && k in before && Owner(sch, before, k) == None
    && Untangled(sch, before, t, k) && forall c | ChildOf(sch, before, c, k) :: Untangled(sch, before, t, c)
  }

  /** A value that may be written into column `fk` of one of `t`'s rows. */
  ghost predicate MayHold(sch: Schema, before: Db, t: Id, m: Model, fk: Column, v: string) {
    && (fk in RefsOf(sch, m) && !RefsOf(sch, m)[fk].pinned ==>
          !Foreign(Owner(sch, before, Key(RefsOf(sch, m)[fk].target, v)), t))
    && (KindOf(sch, m).Direct? && fk == TenantId ==> v == t)
  }

  /** A row of a walled model created below a create the guard does not look into. */
  ghost predicate HarmlessRow(sch: Schema, before: Db, t: Id, m: Model, row: Row) {
    && !KindOf(sch, m).TenantModel?
    && (forall c | c in row :: MayHold(sch, before, t, m, c, row[c]))
  }

  /** Relating `x` to `y` does no harm: `y` is not another tenant's, and if it becomes `t`'s it was free to. */
  ghost predicate HarmlessLink(sch: Schema, before: Db, t: Id, x: Key, r: Relation, y: Key) {
    (r.Own? && !Walled(sch, x.model))
    || (&& !(y in before && Foreign(Owner(sch, before, y), t))
        && (r.Back? && CarriesOwner(sch, y.model, r.fk) && y in before && Owner(sch, before, y) == None ==>
              Free(sch, before, t, y)))
  }

  /** The guard sees all there is to a `connect`. */
  predicate Checked(sch: Schema, r: Relation, m: Model, u: Unique, inspected: bool) {
    && inspected && (KindOf(sch, m).TenantModel? ==> u.ById?)
    && (r.Back? && CarriesOwner(sch, m, r.fk) ==> m in sch.owned)
  }

  /**
   * A nested write, in the state `db` in which the database comes to it, does no harm: what the
   * guard does not inspect of it names rows, and makes rows, as the guard would have asked for.
   * `inspected` says that the guard looks at this level of the payload.
   */
  ghost predicate HarmlessOp(sch: Schema, before: Db, t: Id, db: Db, x: Key, n: Nested, inspected: bool)
    requires x in db
    decreases n, 2
  {
    n.field in RelationsOf(sch, x.model) && Target(sch, x.model, RelationsOf(sch, x.model)[n.field]).Some? ==>
      var r := RelationsOf(sch, x.model)[n.field];
      var m := Target(sch, x.model, r).value;
      match n.op
      case Connect(u) => HarmlessConnect(sch, before, t, db, x, r, m, u, inspected)
      case Create(c) => HarmlessCreate(sch, before, t, db, m, c, inspected)
      case ConnectOrCreate(u, c) =>
        if Find(db, m, u).Some? then HarmlessConnect(sch, before, t, db, x, r, m, u, inspected)
        else HarmlessCreate(sch, before, t, db, m, c, inspected)
      case Touch(_) => true
  }

  ghost predicate HarmlessConnect(
    sch: Schema, before: Db, t: Id, db: Db, x: Key, r: Relation, m: Model, u: Unique, inspected: bool)
  {
    var found := Find(db, m, u);
    found.Some? && !Checked(sch, r, m, u, inspected) ==> HarmlessLink(sch, before, t, x, r, found.value)
  }

  /** The row gets a tenant: from its columns, or from a nested write that relates it to one. */
  predicate NamesTenant(sch: Schema, m: Model, c: Payload) {
    TenantId in RowOf(c.cols) || RelatesTenant(sch, m, c, 0)
  }

  predicate RelatesTenant(sch: Schema, m: Model, c: Payload, from: nat) {
    exists i | from <= i < |c.nested| ::
      c.nested[i].field in RelationsOf(sch, m) && RelationsOf(sch, m)[c.nested[i].field] == Own(TenantId)
  }

  /** Only a create of a walled model is looked into; any other row of such a model must get a tenant. */
  ghost predicate HarmlessCreate(sch: Schema, before: Db, t: Id, db: Db, m: Model, c: Payload, inspected: bool)
    decreases c, 1
  {
    var k := Key(m, c.id);
    && (Walled(sch, m) && !inspected ==> HarmlessRow(sch, before, t, m, RowOf(c.cols)))
    && (k !in db ==> HarmlessNested(sch, before, t, db[k := RowOf(c.cols)], k, c, 0, inspected && Walled(sch, m)))
    && (KindOf(sch, m).Direct? && !inspected ==> NamesTenant(sch, m, c))
  }

  ghost predicate HarmlessNested(sch: Schema, before: Db, t: Id, db: Db, x: Key, p: Payload, i: nat, inspected: bool)
    requires x in db && i <= |p.nested|
    decreases p, 0, |p.nested| - i
  {
    i < |p.nested| ==>
      && HarmlessOp(sch, before, t, db, x, p.nested[i], inspected)
      && var done := RunOp(sch, db, x, p.nested[i]);
         done.Some? ==> HarmlessNested(sch, before, t, done.value, x, p, i + 1, inspected)
  }

  // ── What holds in the middle of an operation ──────────────────────────────

  /** A row the operation made or one that was `t`'s before it. */
  ghost predicate AtHand(sch: Schema, before: Db, t: Id, k: Key) {
    k !in before || Owner(sch, before, k) == Some(t)
  }

  /** One that is `t`'s or may become so. */
  ghost predicate Mine(sch: Schema, before: Db, t: Id, k: Key) {
    AtHand(sch, before, t, k) || Free(sch, before, t, k)
  }

  /** `db` is `before` with only `t`'s own rows and ownerless rows touched, and none re-owned but free ones. */
  ghost predicate Kept(sch: Schema, t: Id, before: Db, db: Db) {
    && before.Keys <= db.Keys
    && (forall k | k in before && Foreign(Owner(sch, before, k), t) :: db[k] == before[k])
    && (forall k, c | k in before && Owner(sch, before, k) == None && !Mine(sch, before, t, k) && CarriesOwner(sch, k.model, c) ::
          Get(db[k], c) == Get(before[k], c))
    && (forall k, c | k in db && Walled(sch, k.model) && Mine(sch, before, t, k) && c in db[k] ::
          MayHold(sch, before, t, k.model, c, db[k][c]))
    && (forall k | k in db && k !in before :: !KindOf(sch, k.model).TenantModel?)
  }

  /** Every directly owned row that was made carries a tenant. */
  ghost predicate Carried(sch: Schema, before: Db, db: Db) {
    forall k | k in db && k !in before && KindOf(sch, k.model).Direct? :: TenantId in db[k]
  }

  /** The same, and no row of a walled model lost a column on the way. */
  ghost predicate Stamped(sch: Schema, db: Db, done: Db) {
    Carried(sch, db, done) && forall k | k in db :: k in done && (Walled(sch, k.model) ==> db[k].Keys <= done[k].Keys)
  }

  lemma StampedTwice(sch: Schema, db: Db, mid: Db, done: Db)
    requires Stamped(sch, db, mid) && Stamped(sch, mid, done)
    ensures Stamped(sch, db, done)
  {
    forall k | k in done && k !in db && KindOf(sch, k.model).Direct?
      ensures TenantId in done[k]
    {
      assert k in mid ==> TenantId in mid[k];
    }
  }

  /** A row that takes its owner from a free one is free itself. */
  lemma FreeTogether(sch: Schema, before: Db, t: Id, c: Key, k: Key)
    requires WellFormed(sch) && ChildOf(sch, before, c, k) && Free(sch, before, t, k)
    ensures Free(sch, before, t, c)
  {
    assert forall d :: ChildOf(sch, before, d, c) ==> KindOf(sch, c.model).Direct?;
  }

  /** Mid-operation, the other tenants' rows are exactly the ones they had. */
  lemma KeptOwners(sch: Schema, t: Id, before: Db, db: Db, k: Key)
    requires WellFormed(sch) && Good(sch, before) && Kept(sch, t, before, db)
    requires k in db
    ensures Foreign(Owner(sch, db, k), t) ==> k in before && Foreign(Owner(sch, before, k), t)
    ensures k in before && !Mine(sch, before, t, k) ==> Owner(sch, db, k) == Owner(sch, before, k)
  {
    match KindOf(sch, k.model)
    case Direct =>
      assert CarriesOwner(sch, k.model, TenantId);
      assert Mine(sch, before, t, k) && TenantId in db[k] ==> MayHold(sch, before, t, k.model, TenantId, db[k][TenantId]);
    case ViaParent(fk, _, parent) => KeptChildOwner(sch, t, before, db, k, fk, parent);
    case _ =>
  }

  lemma KeptDirectOwner(sch: Schema, t: Id, before: Db, db: Db, k: Key)
    requires Kept(sch, t, before, db) && k in db && KindOf(sch, k.model).Direct?
    ensures Foreign(Owner(sch, db, k), t) ==> k in before && Foreign(Owner(sch, before, k), t)
    ensures k in before && !Mine(sch, before, t, k) ==> Owner(sch, db, k) == Owner(sch, before, k)
  {
    assert CarriesOwner(sch, k.model, TenantId);
    assert Mine(sch, before, t, k) && TenantId in db[k] ==> MayHold(sch, before, t, k.model, TenantId, db[k][TenantId]);
  }

  lemma KeptChildOwner(sch: Schema, t: Id, before: Db, db: Db, k: Key, fk: Column, parent: Model)
    requires WellFormed(sch) && Good(sch, before) && Kept(sch, t, before, db)
    requires k in db && KindOf(sch, k.model).ViaParent? && KindOf(sch, k.model).fk == fk && KindOf(sch, k.model).parent == parent
    ensures Foreign(Owner(sch, db, k), t) ==> k in before && Foreign(Owner(sch, before, k), t)
    ensures k in before && !Mine(sch, before, t, k) ==> Owner(sch, db, k) == Owner(sch, before, k)
  {
    assert CarriesOwner(sch, k.model, fk);
    if fk in db[k] {
      var y := Key(parent, db[k][fk]);
      if y in db {
        KeptDirectOwner(sch, t, before, db, y);
      }
      if Mine(sch, before, t, k) {
        assert MayHold(sch, before, t, k.model, fk, db[k][fk]);
      } else {
        assert db[k][fk] == before[k][fk];
        assert KeyHolds(sch, before, k, fk);
        if Free(sch, before, t, y) {
          FreeTogether(sch, before, t, k, y);
        }
      }
    }
  }

  lemma StartKept(sch: Schema, t: Id, db: Db)
    requires WellFormed(sch) && Good(sch, db)
    ensures Kept(sch, t, db, db)
  {
    forall k, c | k in db && Walled(sch, k.model) && Mine(sch, db, t, k) && c in db[k]
      ensures MayHold(sch, db, t, k.model, c, db[k][c])
    {
      if c in RefsOf(sch, k.model) {
        var y := Key(RefsOf(sch, k.model)[c].target, db[k][c]);
        if y in db {
          assert RefersTo(sch, db, k, c, y);
        }
      }
    }
  }

  lemma InsertStamped(sch: Schema, db: Db, k: Key, row: Row, done: Db)
    requires k !in db && Stamped(sch, db[k := row], done)
    requires KindOf(sch, k.model).Direct? ==> TenantId in done[k]
    ensures Stamped(sch, db, done)
  {
    forall z | z in done && z !in db && KindOf(sch, z.model).Direct?
      ensures TenantId in done[z]
    {
      assert z != k ==> z !in db[k := row];
    }
  }

  /** Rewriting one row that is not another tenant's, within what the row may hold. */
  lemma RowWriteKept(sch: Schema, t: Id, before: Db, db: Db, k: Key, row: Row)
    requires WellFormed(sch) && Good(sch, before) && Kept(sch, t, before, db)
    requires k in db && !(k in before && Foreign(Owner(sch, before, k), t))
    requires Mine(sch, before, t, k) && Walled(sch, k.model) ==> forall c | c in row :: MayHold(sch, before, t, k.model, c, row[c])
    requires !Mine(sch, before, t, k) ==>
               forall c | CarriesOwner(sch, k.model, c) :: Get(row, c) == Get(db[k], c)
    ensures Kept(sch, t, before, db[k := row])
  {
  }

  lemma InsertKept(sch: Schema, t: Id, before: Db, db: Db, k: Key, row: Row)
    requires WellFormed(sch) && Good(sch, before) && Kept(sch, t, before, db)
    requires k !in db && !KindOf(sch, k.model).TenantModel?
    requires Walled(sch, k.model) ==> HarmlessRow(sch, before, t, k.model, row)
    ensures Kept(sch, t, before, db[k := row])
  {
  }

  // ── Every step of a payload keeps it ──────────────────────────────────────

  /** A row whose nested writes run: one of `t`'s, or a new one. */
  ghost predicate Root(sch: Schema, before: Db, t: Id, db: Db, x: Key) {
    x in db && AtHand(sch, before, t, x) && (!Walled(sch, x.model) ==> x !in before)
  }

  lemma LinkKept(sch: Schema, t: Id, before: Db, db: Db, x: Key, f: Field, y: Key)
    requires WellFormed(sch) && Good(sch, before) && Kept(sch, t, before, db)
    requires Root(sch, before, t, db, x) && y in db
    requires f in RelationsOf(sch, x.model)
    requires Target(sch, x.model, RelationsOf(sch, x.model)[f]) == Some(y.model)
    requires HarmlessLink(sch, before, t, x, RelationsOf(sch, x.model)[f], y)
    ensures Kept(sch, t, before, Link(sch, db, x, RelationsOf(sch, x.model)[f], y))
    ensures Stamped(sch, db, Link(sch, db, x, RelationsOf(sch, x.model)[f], y))
  {
    match RelationsOf(sch, x.model)[f]
    case Own(fk) => OwnLinkKept(sch, t, before, db, x, f, fk, y);
    case Back(_, fk) => BackLinkKept(sch, t, before, db, x, f, fk, y);
  }

  lemma OwnLinkKept(sch: Schema, t: Id, before: Db, db: Db, x: Key, f: Field, fk: Column, y: Key)
    requires WellFormed(sch) && Good(sch, before) && Kept(sch, t, before, db)
    requires Root(sch, before, t, db, x) && y in db
    requires f in RelationsOf(sch, x.model) && RelationsOf(sch, x.model)[f] == Own(fk)
    requires Target(sch, x.model, Own(fk)) == Some(y.model)
    requires Walled(sch, x.model) ==> !(y in before && Foreign(Owner(sch, before, y), t))
    ensures Kept(sch, t, before, db[x := db[x][fk := y.id]])
  {
    RowWriteKept(sch, t, before, db, x, db[x][fk := y.id]);
  }

  lemma BackLinkKept(sch: Schema, t: Id, before: Db, db: Db, x: Key, f: Field, fk: Column, y: Key)
    requires WellFormed(sch) && Good(sch, before) && Kept(sch, t, before, db)
    requires Root(sch, before, t, db, x) && y in db
    requires f in RelationsOf(sch, x.model) && RelationsOf(sch, x.model)[f] == Back(y.model, fk)
    requires !(y in before && Foreign(Owner(sch, before, y), t))
    requires CarriesOwner(sch, y.model, fk) && y in before && Owner(sch, before, y) == None ==> Free(sch, before, t, y)
    ensures Kept(sch, t, before, db[y := db[y][fk := x.id]])
  {
    assert RefsOf(sch, y.model)[fk].target == x.model;
    if Mine(sch, before, t, y) && Walled(sch, y.model) {
      assert MayHold(sch, before, t, y.model, fk, x.id);
    }
    RowWriteKept(sch, t, before, db, y, db[y][fk := x.id]);
  }

  /** A row the guard let a payload name is not another tenant's. */
  lemma NamedRowIsNotForeign(sch: Schema, t: Id, before: Db, db: Db, m: Model, u: Unique, y: Key)
    requires WellFormed(sch) && Good(sch, before) && Kept(sch, t, before, db)
    requires !NamesForeign(sch, before, t, m, u)
    requires KindOf(sch, m).TenantModel? ==> u.ById?
    requires Names(db, m, u, y)
    ensures !(y in before && Foreign(Owner(sch, before, y), t))
  {
    assert y in before && Foreign(Owner(sch, before, y), t) ==> db[y] == before[y] && Names(before, m, u, y);
  }

  lemma CreatedCols(sch: Schema, t: Id, before: Db, m: Model, p: Payload)
    requires WellFormed(sch) && Walled(sch, m) && CreateAllowed(sch, before, t, m, p)
    ensures HarmlessRow(sch, before, t, m, RowOf(FillCols(sch, t, m, p.cols)))
    ensures KindOf(sch, m).Direct? ==> TenantId in RowOf(FillCols(sch, t, m, p.cols))
  {
    var row := RowOf(FillCols(sch, t, m, p.cols));
    forall c | c in row
      ensures MayHold(sch, before, t, m, c, row[c])
    {
      ScalarMayHold(sch, t, before, m, p.cols, c, row[c]);
    }
  }

  lemma ScalarMayHold(
    sch: Schema, t: Id, before: Db, m: Model, cols: map<Column, Option<string>>, c: Column, v: string)
    requires WellFormed(sch) && Walled(sch, m) && ScalarsAllowed(sch, before, t, m, cols)
    requires if c == TenantId && KindOf(sch, m).Direct? then v == t else c in cols && cols[c] == Some(v)
    ensures MayHold(sch, before, t, m, c, v)
  {
    if c in RefsOf(sch, m) && !RefsOf(sch, m)[c].pinned {
      var y := Key(RefsOf(sch, m)[c].target, v);
      assert ScalarAllowed(sch, before, t, m, cols, c);
      if y in before {
        assert Names(before, y.model, ById(v), y);
      }
    }
  }

  /** What the database is handed for a create, and for the nested writes of a payload. */
  function Handed(sch: Schema, t: Id, m: Model, p: Payload, inspected: bool): Payload {
    if inspected then Fill(sch, t, m, p) else p
  }

  function HandedOp(sch: Schema, t: Id, m: Model, n: Nested, inspected: bool): Nested {
    if inspected then FillOp(sch, t, m, n) else n
  }

  lemma {:induction false} CreateKept(sch: Schema, t: Id, before: Db, db: Db, m: Model, p: Payload, inspected: bool)
    requires WellFormed(sch) && Good(sch, before) && Kept(sch, t, before, db)
    requires inspected ==> CreateAllowed(sch, before, t, m, p)
    requires HarmlessCreate(sch, before, t, db, m, Handed(sch, t, m, p, inspected), inspected)
    ensures var done := CreateRow(sch, db, m, Handed(sch, t, m, p, inspected));
            done.Some? ==> Kept(sch, t, before, done.value) && Stamped(sch, db, done.value)
    decreases p, 1
  {
    var q, k := Handed(sch, t, m, p, inspected), Key(m, p.id);
    if k !in db {
      if inspected && Walled(sch, m) {
        CreatedCols(sch, t, before, m, p);
      }
      InsertKept(sch, t, before, db, k, RowOf(q.cols));
      NestedKept(sch, t, before, db[k := RowOf(q.cols)], k, p, q, 0, inspected && Walled(sch, m));
      var done := RunNested(sch, db[k := RowOf(q.cols)], k, q, 0);
      if done.Some? {
        InsertStamped(sch, db, k, RowOf(q.cols), done.value);
      }
    }
  }

  /** A nested write along the `tenantId` relation gives the row a tenant. */
  lemma RelatingNamesTenant(sch: Schema, db: Db, x: Key, q: Payload, i: nat)
    requires WellFormed(sch) && x in db && i < |q.nested| && RunOp(sch, db, x, q.nested[i]).Some? && KindOf(sch, x.model).Direct?
    requires Stamped(sch, db, RunOp(sch, db, x, q.nested[i]).value)
    ensures TenantId in db[x] || RelatesTenant(sch, x.model, q, i) ==>
              TenantId in RunOp(sch, db, x, q.nested[i]).value[x] || RelatesTenant(sch, x.model, q, i + 1)
  {
    var n := q.nested[i];
    var made := n.field in RelationsOf(sch, x.model) && RelationsOf(sch, x.model)[n.field] == Own(TenantId);
    assert made ==> TenantId in RunOp(sch, db, x, n).value[x];
  }

  lemma {:induction false} NestedKept(
    sch: Schema, t: Id, before: Db, db: Db, x: Key, p: Payload, q: Payload, i: nat, inspected: bool)
    requires WellFormed(sch) && Good(sch, before) && Kept(sch, t, before, db)
    requires Root(sch, before, t, db, x) && i <= |p.nested|
    requires inspected ==> q.nested == FillNested(sch, t, x.model, p)
    requires inspected ==> forall j | 0 <= j < |p.nested| :: NestedAllowed(sch, before, t, x.model, p.nested[j])
    requires !inspected ==> q.nested == p.nested
    requires HarmlessNested(sch, before, t, db, x, q, i, inspected)
    ensures var done := RunNested(sch, db, x, q, i);
            done.Some? ==>
              && Kept(sch, t, before, done.value) && Stamped(sch, db, done.value)
              && (KindOf(sch, x.model).Direct? && (TenantId in db[x] || RelatesTenant(sch, x.model, q, i)) ==> TenantId in done.value[x])
    decreases p, 0, |p.nested| - i
  {
    if i < |p.nested| {
      var n := p.nested[i];
      assert n < p;
      var done := RunOp(sch, db, x, q.nested[i]);
      assert done.Some? ==> Kept(sch, t, before, done.value) && Stamped(sch, db, done.value) by {
        assert q.nested[i] == HandedOp(sch, t, x.model, n, inspected);
        OpKept(sch, t, before, db, x, n, inspected);
      }
      if done.Some? {
        if KindOf(sch, x.model).Direct? {
          RelatingNamesTenant(sch, db, x, q, i);
        }
        NestedKept(sch, t, before, done.value, x, p, q, i + 1, inspected);
        var last := RunNested(sch, done.value, x, q, i + 1);
        if last.Some? {
          StampedTwice(sch, db, done.value, last.value);
        }
      }
    }
  }

  lemma {:induction false} OpKept(sch: Schema, t: Id, before: Db, db: Db, x: Key, n: Nested, inspected: bool)
    requires WellFormed(sch) && Good(sch, before) && Kept(sch, t, before, db)
    requires Root(sch, before, t, db, x)
    requires inspected ==> NestedAllowed(sch, before, t, x.model, n)
    requires HarmlessOp(sch, before, t, db, x, HandedOp(sch, t, x.model, n, inspected), inspected)
    ensures var done := RunOp(sch, db, x, HandedOp(sch, t, x.model, n, inspected));
            done.Some? ==> Kept(sch, t, before, done.value) && Stamped(sch, db, done.value)
    decreases n, 2
  {
    if n.field in RelationsOf(sch, x.model) && Target(sch, x.model, RelationsOf(sch, x.model)[n.field]).Some? {
      var m := Target(sch, x.model, RelationsOf(sch, x.model)[n.field]).value;
      match n.op
      case Connect(u) => ConnectKept(sch, t, before, db, x, n.field, m, u, inspected);
      case Create(c) => CreateThenLinkKept(sch, t, before, db, x, n.field, m, c, inspected);
      case ConnectOrCreate(u, c) =>
        if Find(db, m, u).Some? {
          ConnectKept(sch, t, before, db, x, n.field, m, u, inspected);
        } else {
          CreateThenLinkKept(sch, t, before, db, x, n.field, m, c, inspected);
        }
      case Touch(rows) => TouchKept(sch, t, before, db, rows);
    }
  }

  /** A change of rows outside the wall. */
  lemma TouchKept(sch: Schema, t: Id, before: Db, db: Db, rows: map<Key, Row>)
    requires WellFormed(sch) && Good(sch, before) && Kept(sch, t, before, db)
    ensures (forall k | k in rows :: !Walled(sch, k.model)) ==> Kept(sch, t, before, db + rows) && Stamped(sch, db, db + rows)
  {
  }

  lemma ConnectKept(sch: Schema, t: Id, before: Db, db: Db, x: Key, f: Field, m: Model, u: Unique, inspected: bool)
    requires WellFormed(sch) && Good(sch, before) && Kept(sch, t, before, db)
    requires Root(sch, before, t, db, x)
    requires f in RelationsOf(sch, x.model) && Target(sch, x.model, RelationsOf(sch, x.model)[f]) == Some(m)
    requires inspected ==> !NamesForeign(sch, before, t, m, u)
    requires HarmlessConnect(sch, before, t, db, x, RelationsOf(sch, x.model)[f], m, u, inspected)
    ensures var found := Find(db, m, u);
            found.Some? ==>
              && found.value in db
              && Kept(sch, t, before, Link(sch, db, x, RelationsOf(sch, x.model)[f], found.value))
              && Stamped(sch, db, Link(sch, db, x, RelationsOf(sch, x.model)[f], found.value))
  {
    var found := Find(db, m, u);
    if found.Some? {
      if Checked(sch, RelationsOf(sch, x.model)[f], m, u, inspected) {
        NamedRowIsNotForeign(sch, t, before, db, m, u, found.value);
      }
      LinkKept(sch, t, before, db, x, f, found.value);
    }
  }

  lemma {:induction false} CreateThenLinkKept(
    sch: Schema, t: Id, before: Db, db: Db, x: Key, f: Field, m: Model, c: Payload, inspected: bool)
    requires WellFormed(sch) && Good(sch, before) && Kept(sch, t, before, db)
    requires Root(sch, before, t, db, x)
    requires f in RelationsOf(sch, x.model) && Target(sch, x.model, RelationsOf(sch, x.model)[f]) == Some(m)
    requires inspected ==> CreateAllowed(sch, before, t, m, c)
    requires HarmlessCreate(sch, before, t, db, m, Handed(sch, t, m, c, inspected), inspected)
    ensures var made := CreateRow(sch, db, m, Handed(sch, t, m, c, inspected));
            made.Some? ==>
              && Key(m, c.id) in made.value
              && Kept(sch, t, before, Link(sch, made.value, x, RelationsOf(sch, x.model)[f], Key(m, c.id)))
              && Stamped(sch, db, Link(sch, made.value, x, RelationsOf(sch, x.model)[f], Key(m, c.id)))
    decreases c, 2
  {
    CreateKept(sch, t, before, db, m, c, inspected);
    var made := CreateRow(sch, db, m, Handed(sch, t, m, c, inspected));
    if made.Some? {
      assert Key(m, c.id) !in db;
      LinkKept(sch, t, before, made.value, x, f, Key(m, c.id));
      StampedTwice(sch, db, made.value, Link(sch, made.value, x, RelationsOf(sch, x.model)[f], Key(m, c.id)));
    }
  }

  // ── What the caller is promised ───────────────────────────────────────────

  /**
   * The wall held: other tenants' rows are all still there, unchanged, with the owner they had,
   * nothing new is theirs, and every new directly owned row is `t`'s.
   */
  ghost predicate WallHeld(sch: Schema, t: Id, before: Db, after: Db) {
    && (forall k | k in before && Foreign(Owner(sch, before, k), t) ::
          k in after && after[k] == before[k] && Owner(sch, after, k) == Owner(sch, before, k))
    && (forall k | k in after && Foreign(Owner(sch, after, k), t) ::
          k in before && Owner(sch, before, k) == Owner(sch, after, k))
    && (forall k | k in after && k !in before && KindOf(sch, k.model).Direct? :: Owner(sch, after, k) == Some(t))
  }

  lemma KeptRefStaysInside(sch: Schema, t: Id, before: Db, db: Db, x: Key, fk: Column, y: Key)
    requires WellFormed(sch) && Good(sch, before) && Kept(sch, t, before, db) && Constraints(sch, db)
    requires RefersTo(sch, db, x, fk, y) && Owner(sch, db, x).Some?
    ensures !Foreign(Owner(sch, db, y), Owner(sch, db, x).value)
  {
    KeptOwners(sch, t, before, db, x);
    KeptOwners(sch, t, before, db, y);
    if Mine(sch, before, t, x) {
      assert KeyHolds(sch, db, x, fk);
      assert MayHold(sch, before, t, x.model, fk, db[x][fk]);
    } else {
      assert KeyHolds(sch, before, x, fk);
      assert RefersTo(sch, before, x, fk, y);
    }
  }

  lemma KeptHoldsTheWall(sch: Schema, t: Id, before: Db, db: Db)
    requires WellFormed(sch) && Good(sch, before) && Kept(sch, t, before, db) && Carried(sch, before, db) && Constraints(sch, db)
    ensures Good(sch, db) && WallHeld(sch, t, before, db)
  {
    forall x, fk, y | RefersTo(sch, db, x, fk, y)
      ensures Owner(sch, db, x).Some? ==> !Foreign(Owner(sch, db, y), Owner(sch, db, x).value)
    {
      if Owner(sch, db, x).Some? {
        KeptRefStaysInside(sch, t, before, db, x, fk, y);
      }
    }
    forall k | k in db
      ensures Foreign(Owner(sch, db, k), t) ==> k in before && Owner(sch, before, k) == Owner(sch, db, k)
      ensures k in before && Foreign(Owner(sch, before, k), t) ==> Owner(sch, db, k) == Owner(sch, before, k)
      ensures k !in before && KindOf(sch, k.model).Direct? ==> Owner(sch, db, k) == Some(t)
    {
      KeptOwners(sch, t, before, db, k);
      if k !in before && KindOf(sch, k.model).Direct? {
        assert MayHold(sch, before, t, k.model, TenantId, db[k][TenantId]);
      }
    }
  }

  // ── Deleting ──────────────────────────────────────────────────────────────

  ghost predicate ActsOn(sch: Schema, db: Db, y: Key, d: Key, how: OnDelete) {
    exists fk :: RefersTo(sch, db, y, fk, d) && RefsOf(sch, y.model)[fk].onDelete == how
  }

  ghost predicate CascadePath(sch: Schema, db: Db, path: seq<Key>) {
    forall i | 0 <= i < |path| - 1 :: ActsOn(sch, db, path[i + 1], path[i], Cascade)
  }

  ghost predicate DoomedBy(sch: Schema, db: Db, roots: set<Key>, y: Key, path: seq<Key>) {
    path != [] && path[0] in roots && path[|path| - 1] == y && CascadePath(sch, db, path)
  }

  /** Deleting the roots takes `y` along. */
  ghost predicate Doomed(sch: Schema, db: Db, roots: set<Key>, y: Key) {
    exists path :: DoomedBy(sch, db, roots, y, path)
  }

  ghost predicate Cleared(sch: Schema, db: Db, roots: set<Key>, y: Key, c: Column)
    requires y in db && c in db[y]
  {
    && c in RefsOf(sch, y.model)
    && RefsOf(sch, y.model)[c].onDelete == SetNull
    && Doomed(sch, db, roots, Key(RefsOf(sch, y.model)[c].target, db[y][c]))
  }

  ghost function Cut(sch: Schema, db: Db, roots: set<Key>, y: Key): Row
    requires y in db
  {
    map c | c in db[y] && !Cleared(sch, db, roots, y, c) :: db[y][c]
  }

  /** None when a surviving row restricts the deletion of a doomed one. */
  ghost function DeleteRows(sch: Schema, db: Db, roots: set<Key>): Option<Db> {
    if exists y, d :: !Doomed(sch, db, roots, y) && Doomed(sch, db, roots, d) && ActsOn(sch, db, y, d, Restrict) then
      None
    else
      Some(map y | y in db && !Doomed(sch, db, roots, y) :: Cut(sch, db, roots, y))
  }

  /**
   * A model whose rows can be ownerless, and that is deleted along with the target of some key
   * other than its ownership key, is not itself the target of a key that acts on deletion.
   */
  ghost predicate CascadeSafe(sch: Schema) {
    forall m, fk | m in sch.refs && fk in sch.refs[m] ::
      sch.refs[m][fk].onDelete == Cascade && !CarriesOwner(sch, m, fk) && m !in sch.owned ==> EndOfCascade(sch, m)
  }

  ghost predicate EndOfCascade(sch: Schema, m: Model) {
    forall n, c | n in sch.refs && c in sch.refs[n] && sch.refs[n][c].target == m ::
      sch.refs[n][c].onDelete in {Restrict, NoAction}
  }

  lemma {:induction false} DoomedRowsAreMine(sch: Schema, t: Id, db: Db, roots: set<Key>, path: seq<Key>)
    requires WellFormed(sch) && Good(sch, db) && CascadeSafe(sch)
    requires forall x | x in roots :: x in db && Owner(sch, db, x) == Some(t)
    requires path != [] && path[0] in roots && CascadePath(sch, db, path)
    ensures var d := path[|path| - 1];
            Owner(sch, db, d) == Some(t) || (Owner(sch, db, d) == None && EndOfCascade(sch, d.model))
    decreases |path|
  {
    if |path| > 1 {
      var y, d := path[|path| - 1], path[|path| - 2];
      var rest := path[..|path| - 1];
      DoomedRowsAreMine(sch, t, db, roots, rest);
      assert ActsOn(sch, db, path[|path| - 2 + 1], path[|path| - 2], Cascade);
      var fk :| RefersTo(sch, db, y, fk, d) && RefsOf(sch, y.model)[fk].onDelete == Cascade;
      assert y.model in sch.refs && fk in sch.refs[y.model];
      if Owner(sch, db, y) == None {
        assert !CarriesOwner(sch, y.model, fk);
      }
    }
  }

  lemma ForeignRowsSurvive(sch: Schema, t: Id, db: Db, roots: set<Key>, y: Key)
    requires WellFormed(sch) && Good(sch, db) && CascadeSafe(sch)
    requires forall x | x in roots :: x in db && Owner(sch, db, x) == Some(t)
    requires y in db && Foreign(Owner(sch, db, y), t)
    ensures !Doomed(sch, db, roots, y) && Cut(sch, db, roots, y) == db[y]
  {
    if Doomed(sch, db, roots, y) {
      var path :| DoomedBy(sch, db, roots, y, path);
      DoomedRowsAreMine(sch, t, db, roots, path);
    }
    forall c | c in db[y]
      ensures !Cleared(sch, db, roots, y, c)
    {
      if Cleared(sch, db, roots, y, c) {
        var d := Key(RefsOf(sch, y.model)[c].target, db[y][c]);
        var path :| DoomedBy(sch, db, roots, d, path);
        DoomedRowsAreMine(sch, t, db, roots, path);
        assert KeyHolds(sch, db, y, c);
        assert RefersTo(sch, db, y, c, d);
      }
    }
  }

  /** Deleting the roots neither takes along nor alters another tenant's row. */
  ghost predicate SparesOthers(sch: Schema, db: Db, t: Id, roots: set<Key>) {
    forall y | y in db && Foreign(Owner(sch, db, y), t) :: !Doomed(sch, db, roots, y) && Cut(sch, db, roots, y) == db[y]
  }

  /** A schema whose cascades end at the tenant's own rows spares the others whatever is deleted. */
  lemma CascadeSafeSparesOthers(sch: Schema, t: Id, db: Db, roots: set<Key>)
    requires WellFormed(sch) && Good(sch, db) && CascadeSafe(sch)
    requires forall x | x in roots :: x in db && Owner(sch, db, x) == Some(t)
    ensures SparesOthers(sch, db, t, roots)
  {
    forall y | y in db && Foreign(Owner(sch, db, y), t)
      ensures !Doomed(sch, db, roots, y) && Cut(sch, db, roots, y) == db[y]
    {
      ForeignRowsSurvive(sch, t, db, roots, y);
    }
  }

  lemma DeleteOwner(sch: Schema, db: Db, roots: set<Key>, k: Key)
    requires WellFormed(sch) && DeleteRows(sch, db, roots).Some?
    requires k in DeleteRows(sch, db, roots).value
    ensures var after := DeleteRows(sch, db, roots).value;
            Owner(sch, after, k).Some? ==> Owner(sch, after, k) == Owner(sch, db, k)
  {
  }

  lemma DeleteHoldsTheWall(sch: Schema, t: Id, db: Db, roots: set<Key>)
    requires WellFormed(sch) && Good(sch, db) && SparesOthers(sch, db, t, roots)
    requires DeleteRows(sch, db, roots).Some? && Constraints(sch, DeleteRows(sch, db, roots).value)
    ensures Good(sch, DeleteRows(sch, db, roots).value)
    ensures WallHeld(sch, t, db, DeleteRows(sch, db, roots).value)
  {
    var after := DeleteRows(sch, db, roots).value;
    forall x, fk, y | RefersTo(sch, after, x, fk, y)
      ensures Owner(sch, after, x).Some? ==> !Foreign(Owner(sch, after, y), Owner(sch, after, x).value)
    {
      DeleteOwner(sch, db, roots, x);
      DeleteOwner(sch, db, roots, y);
      assert RefersTo(sch, db, x, fk, y);
    }
    forall k | k in db && Foreign(Owner(sch, db, k), t)
      ensures k in after && after[k] == db[k] && Owner(sch, after, k) == Owner(sch, db, k)
    {
      match KindOf(sch, k.model)
      case ViaParent(fk, _, parent) => assert Foreign(Owner(sch, db, Key(parent, db[k][fk])), t);
      case _ =>
    }
    forall k | k in after && Foreign(Owner(sch, after, k), t)
      ensures Owner(sch, db, k) == Owner(sch, after, k)
    {
      DeleteOwner(sch, db, roots, k);
    }
  }

  // ── Operations and runs ───────────────────────────────────────────────────

  datatype Operation =
    | CreateOne(model: Model, data: Payload)
    | CreateMany(model: Model, rows: seq<Payload>)
    | UpdateOne(model: Model, at: Unique, data: Payload)
    | UpdateMany(model: Model, filter: TenantReads.Where, cols: map<Column, Option<string>>)
    | UpsertOne(model: Model, at: Unique, create: Payload, update: Payload)
    | DeleteOne(model: Model, at: Unique)
    | DeleteMany(model: Model, filter: TenantReads.Where)

  /** A statement the database refuses leaves everything as it was. */
  ghost function Commit(sch: Schema, db: Db, done: Option<Db>): Db {
    if done.Some? && Constraints(sch, done.value) then done.value else db
  }

  ghost function CreateRows(sch: Schema, db: Db, t: Id, m: Model, rows: seq<Payload>): Option<Db>
    decreases |rows|
  {
    if rows == [] then Some(db)
    else match CreateRow(sch, db, m, Fill(sch, t, m, rows[0]))
      case None => None
      case Some(after) => CreateRows(sch, after, t, m, rows[1..])
  }

  ghost function UpdateGuarded(sch: Schema, db: Db, t: Id, x: Key, p: Payload): Db
    requires x in db
  {
    if Owner(sch, db, x) == Some(t) && RefsAllowed(sch, db, t, x.model, p) then
      Commit(sch, db, UpdateRow(sch, db, x, Payload(p.id, p.cols, FillNested(sch, t, x.model, p))))
    else db
  }

  ghost function CreateGuarded(sch: Schema, db: Db, t: Id, m: Model, p: Payload): Db {
    if CreateAllowed(sch, db, t, m, p) then Commit(sch, db, CreateRow(sch, db, m, Fill(sch, t, m, p))) else db
  }

  /** An operation by tenant `t` through the guard. A refusal changes nothing. */
  ghost function Guarded(sch: Schema, db: Db, t: Id, op: Operation): Db {
    if !Walled(sch, op.model) then db
    else match op
      case CreateOne(m, p) => CreateGuarded(sch, db, t, m, p)
      case CreateMany(m, rows) =>
        if forall i | 0 <= i < |rows| :: CreateAllowed(sch, db, t, m, rows[i]) then
          Commit(sch, db, CreateRows(sch, db, t, m, rows))
        else db
      case UpdateOne(m, at, p) =>
        var found := Find(db, m, at);
        if found.Some? then UpdateGuarded(sch, db, t, found.value, p) else db
      case UpdateMany(m, w, cols) =>
        if RefsAllowed(sch, db, t, m, Payload("", cols, [])) then
          var hit := TenantReads.GuardedSelect(sch, db, t, m, w);
          Commit(sch, db, Some(map k | k in db :: if k in hit then Merge(db[k], cols) else db[k]))
        else db
      case UpsertOne(m, at, create, update) =>
        var found := Find(db, m, at);
        if found.Some? then UpdateGuarded(sch, db, t, found.value, update)
        else CreateGuarded(sch, db, t, m, create)
      case DeleteOne(m, at) =>
        var found := Find(db, m, at);
        if found.Some? && Owner(sch, db, found.value) == Some(t) then
          Commit(sch, db, DeleteRows(sch, db, {found.value}))
        else db
      case DeleteMany(m, w) =>
        Commit(sch, db, DeleteRows(sch, db, TenantReads.GuardedSelect(sch, db, t, m, w)))
  }

  ghost predicate HarmlessUpdate(sch: Schema, db: Db, t: Id, x: Key, p: Payload)
    requires x in db
  {
    var q := Payload(p.id, p.cols, FillNested(sch, t, x.model, p));
    HarmlessNested(sch, db, t, db[x := Merge(db[x], p.cols)], x, q, 0, true)
  }

  ghost predicate HarmlessRows(sch: Schema, before: Db, t: Id, db: Db, m: Model, rows: seq<Payload>)
    decreases |rows|
  {
    rows != [] ==>
      && HarmlessCreate(sch, before, t, db, m, Fill(sch, t, m, rows[0]), true)
      && var done := CreateRow(sch, db, m, Fill(sch, t, m, rows[0]));
         done.Some? ==> HarmlessRows(sch, before, t, done.value, m, rows[1..])
  }

  /** What the guard does not inspect of an operation does no harm. It speaks of the database before the call. */
  ghost predicate HarmlessOperation(sch: Schema, db: Db, t: Id, op: Operation) {
    match op
    case CreateOne(m, p) => HarmlessCreate(sch, db, t, db, m, Fill(sch, t, m, p), true)
    case CreateMany(m, rows) => HarmlessRows(sch, db, t, db, m, rows)
    case UpdateOne(m, at, p) => Find(db, m, at).Some? ==> HarmlessUpdate(sch, db, t, Find(db, m, at).value, p)
    case UpdateMany(_, _, _) => true
    case UpsertOne(m, at, create, update) =>
      if Find(db, m, at).Some? then HarmlessUpdate(sch, db, t, Find(db, m, at).value, update)
      else HarmlessCreate(sch, db, t, db, m, Fill(sch, t, m, create), true)
    case DeleteOne(m, at) => Find(db, m, at).Some? ==> SparesOthers(sch, db, t, {Find(db, m, at).value})
    case DeleteMany(m, w) => SparesOthers(sch, db, t, TenantReads.GuardedSelect(sch, db, t, m, w))
  }

  lemma CommitHoldsTheWall(sch: Schema, t: Id, db: Db, done: Option<Db>)
    requires WellFormed(sch) && Good(sch, db)
    requires done.Some? ==> Kept(sch, t, db, done.value) && Carried(sch, db, done.value)
    ensures Good(sch, Commit(sch, db, done)) && WallHeld(sch, t, db, Commit(sch, db, done))
  {
    StartKept(sch, t, db);
    KeptHoldsTheWall(sch, t, db, db);
    if done.Some? && Constraints(sch, done.value) {
      KeptHoldsTheWall(sch, t, db, done.value);
    }
  }

  lemma MergeKept(sch: Schema, t: Id, db: Db, k: Key, cols: map<Column, Option<string>>)
    requires WellFormed(sch) && Good(sch, db) && Walled(sch, k.model)
    requires k in db && Owner(sch, db, k) == Some(t)
    requires TenantKept(sch, t, k.model, cols) && ScalarsAllowed(sch, db, t, k.model, cols)
    ensures forall c | c in Merge(db[k], cols) :: MayHold(sch, db, t, k.model, c, Merge(db[k], cols)[c])
  {
    StartKept(sch, t, db);
    var row := Merge(db[k], cols);
    forall c | c in row
      ensures MayHold(sch, db, t, k.model, c, row[c])
    {
      if c in cols {
        ScalarMayHold(sch, t, db, k.model, cols, c, row[c]);
      } else {
        assert row[c] == db[k][c];
      }
    }
  }

  lemma UpdateHoldsTheWall(sch: Schema, t: Id, db: Db, x: Key, p: Payload)
    requires WellFormed(sch) && Good(sch, db) && Walled(sch, x.model) && x in db
    requires HarmlessUpdate(sch, db, t, x, p)
    ensures Good(sch, UpdateGuarded(sch, db, t, x, p)) && WallHeld(sch, t, db, UpdateGuarded(sch, db, t, x, p))
  {
    StartKept(sch, t, db);
    var q := Payload(p.id, p.cols, FillNested(sch, t, x.model, p));
    if Owner(sch, db, x) == Some(t) && RefsAllowed(sch, db, t, x.model, p) {
      MergeKept(sch, t, db, x, p.cols);
      RowWriteKept(sch, t, db, db, x, Merge(db[x], p.cols));
      NestedKept(sch, t, db, db[x := Merge(db[x], p.cols)], x, p, q, 0, true);
      CommitHoldsTheWall(sch, t, db, UpdateRow(sch, db, x, q));
    } else {
      CommitHoldsTheWall(sch, t, db, None);
    }
  }

  lemma CreateHoldsTheWall(sch: Schema, t: Id, db: Db, m: Model, p: Payload)
    requires WellFormed(sch) && Good(sch, db) && Walled(sch, m)
    requires HarmlessCreate(sch, db, t, db, m, Fill(sch, t, m, p), true)
    ensures Good(sch, CreateGuarded(sch, db, t, m, p)) && WallHeld(sch, t, db, CreateGuarded(sch, db, t, m, p))
  {
    StartKept(sch, t, db);
    if CreateAllowed(sch, db, t, m, p) {
      CreateKept(sch, t, db, db, m, p, true);
      CommitHoldsTheWall(sch, t, db, CreateRow(sch, db, m, Fill(sch, t, m, p)));
    } else {
      CommitHoldsTheWall(sch, t, db, None);
    }
  }

  lemma {:induction false} CreateRowsKept(sch: Schema, t: Id, before: Db, db: Db, m: Model, rows: seq<Payload>)
    requires WellFormed(sch) && Good(sch, before) && Kept(sch, t, before, db) && Walled(sch, m)
    requires forall i | 0 <= i < |rows| :: CreateAllowed(sch, before, t, m, rows[i])
    requires HarmlessRows(sch, before, t, db, m, rows)
    ensures var done := CreateRows(sch, db, t, m, rows);
            done.Some? ==> Kept(sch, t, before, done.value) && Stamped(sch, db, done.value)
    decreases |rows|
  {
    if rows != [] {
      CreateKept(sch, t, before, db, m, rows[0], true);
      var done := CreateRow(sch, db, m, Fill(sch, t, m, rows[0]));
      if done.Some? {
        CreateRowsKept(sch, t, before, done.value, m, rows[1..]);
        var last := CreateRows(sch, done.value, t, m, rows[1..]);
        if last.Some? {
          StampedTwice(sch, db, done.value, last.value);
        }
      }
    }
  }

  lemma SelectedRowsAreOwned(sch: Schema, t: Id, db: Db, m: Model, w: TenantReads.Where)
    requires WellFormed(sch) && Walled(sch, m)
    ensures forall k | k in TenantReads.GuardedSelect(sch, db, t, m, w) ::
              k in db && k.model == m && Owner(sch, db, k) == Some(t)
  {
    forall k | k in TenantReads.GuardedSelect(sch, db, t, m, w)
      ensures k in db && k.model == m && Owner(sch, db, k) == Some(t)
    {
      TenantReads.ScopeMeansOwned(sch, db, t, k);
    }
  }

  /** A row that may stand at `k` after an operation by `t`. */
  ghost predicate RowFits(sch: Schema, db: Db, t: Id, k: Key, row: Row) {
    forall c | c in row :: MayHold(sch, db, t, k.model, c, row[c])
  }

  lemma BulkKept(sch: Schema, t: Id, db: Db, after: Db)
    requires WellFormed(sch) && Good(sch, db) && after.Keys == db.Keys
    requires forall k | k in db && after[k] != db[k] :: Owner(sch, db, k) == Some(t) && RowFits(sch, db, t, k, after[k])
    ensures Kept(sch, t, db, after) && Carried(sch, db, after)
  {
    StartKept(sch, t, db);
  }

  lemma MergedKept(
    sch: Schema, t: Id, db: Db, m: Model, hit: set<Key>, cols: map<Column, Option<string>>)
    requires WellFormed(sch) && Good(sch, db) && Walled(sch, m)
    requires TenantKept(sch, t, m, cols) && ScalarsAllowed(sch, db, t, m, cols)
    requires forall k | k in hit :: k in db && k.model == m && Owner(sch, db, k) == Some(t)
    ensures var after := map k | k in db :: if k in hit then Merge(db[k], cols) else db[k];
            Kept(sch, t, db, after) && Carried(sch, db, after)
  {
    var after := map k | k in db :: if k in hit then Merge(db[k], cols) else db[k];
    forall k | k in db && after[k] != db[k]
      ensures Owner(sch, db, k) == Some(t) && RowFits(sch, db, t, k, after[k])
    {
      MergeKept(sch, t, db, k, cols);
    }
    BulkKept(sch, t, db, after);
  }

  lemma UpdateManyHoldsTheWall(
    sch: Schema, db: Db, t: Id, m: Model, w: TenantReads.Where, cols: map<Column, Option<string>>)
    requires WellFormed(sch) && Good(sch, db) && Walled(sch, m)
    ensures var after := Guarded(sch, db, t, UpdateMany(m, w, cols));
            Good(sch, after) && WallHeld(sch, t, db, after)
  {
    CommitHoldsTheWall(sch, t, db, None);
    if RefsAllowed(sch, db, t, m, Payload("", cols, [])) {
      var hit := TenantReads.GuardedSelect(sch, db, t, m, w);
      SelectedRowsAreOwned(sch, t, db, m, w);
      MergedKept(sch, t, db, m, hit, cols);
      CommitHoldsTheWall(sch, t, db, Some(map k | k in db :: if k in hit then Merge(db[k], cols) else db[k]));
    }
  }

  lemma CreateManyHoldsTheWall(sch: Schema, db: Db, t: Id, m: Model, rows: seq<Payload>)
    requires WellFormed(sch) && Good(sch, db) && Walled(sch, m) && HarmlessRows(sch, db, t, db, m, rows)
    ensures var after := Guarded(sch, db, t, CreateMany(m, rows));
            Good(sch, after) && WallHeld(sch, t, db, after)
  {
    CommitHoldsTheWall(sch, t, db, None);
    if forall i | 0 <= i < |rows| :: CreateAllowed(sch, db, t, m, rows[i]) {
      StartKept(sch, t, db);
      CreateRowsKept(sch, t, db, db, m, rows);
      CommitHoldsTheWall(sch, t, db, CreateRows(sch, db, t, m, rows));
    }
  }

  lemma DeletionHoldsTheWall(sch: Schema, t: Id, db: Db, roots: set<Key>)
    requires WellFormed(sch) && Good(sch, db) && SparesOthers(sch, db, t, roots)
    ensures var after := Commit(sch, db, DeleteRows(sch, db, roots));
            Good(sch, after) && WallHeld(sch, t, db, after)
  {
    var done := DeleteRows(sch, db, roots);
    if done.Some? && Constraints(sch, done.value) {
      DeleteHoldsTheWall(sch, t, db, roots);
    } else {
      CommitHoldsTheWall(sch, t, db, None);
    }
  }

  /** One guarded operation, with payloads nested to any depth, whose uninspected references do no harm. */
  lemma GuardedOperationHoldsTheWall(sch: Schema, db: Db, t: Id, op: Operation)
    requires WellFormed(sch) && Good(sch, db) && HarmlessOperation(sch, db, t, op)
    ensures Good(sch, Guarded(sch, db, t, op)) && WallHeld(sch, t, db, Guarded(sch, db, t, op))
  {
    CommitHoldsTheWall(sch, t, db, None);
    if Walled(sch, op.model) {
      match op
      case CreateOne(m, p) => CreateHoldsTheWall(sch, t, db, m, p);
      case CreateMany(m, rows) => CreateManyHoldsTheWall(sch, db, t, m, rows);
      case UpdateOne(m, at, p) =>
        if Find(db, m, at).Some? {
          UpdateHoldsTheWall(sch, t, db, Find(db, m, at).value, p);
        }
      case UpdateMany(m, w, cols) => UpdateManyHoldsTheWall(sch, db, t, m, w, cols);
      case UpsertOne(m, at, create, update) =>
        if Find(db, m, at).Some? {
          UpdateHoldsTheWall(sch, t, db, Find(db, m, at).value, update);
        } else {
          CreateHoldsTheWall(sch, t, db, m, create);
        }
      case DeleteOne(m, at) =>
        if Find(db, m, at).Some? {
          DeletionHoldsTheWall(sch, t, db, {Find(db, m, at).value});
        }
      case DeleteMany(m, w) => DeletionHoldsTheWall(sch, t, db, TenantReads.GuardedSelect(sch, db, t, m, w));
    }
  }

  datatype Call = Call(tenant: Id, op: Operation)

  ghost function Run(sch: Schema, db: Db, calls: seq<Call>): Db
    decreases |calls|
  {
    if calls == [] then db else Run(sch, Guarded(sch, db, calls[0].tenant, calls[0].op), calls[1..])
  }

  /** Each call is harmless on the database it finds. */
  ghost predicate HarmlessRun(sch: Schema, db: Db, calls: seq<Call>)
    decreases |calls|
  {
    calls != [] ==>
      && HarmlessOperation(sch, db, calls[0].tenant, calls[0].op)
      && HarmlessRun(sch, Guarded(sch, db, calls[0].tenant, calls[0].op), calls[1..])
  }

  /** Every row of `u` is still there, unchanged and `u`'s, and no row has become `u`'s. */
  ghost predicate Untouched(sch: Schema, db: Db, after: Db, u: Id) {
    && (forall k | k in db && Owner(sch, db, k) == Some(u) ::
          k in after && after[k] == db[k] && Owner(sch, after, k) == Some(u))
    && (forall k | k in after && Owner(sch, after, k) == Some(u) :: k in db && Owner(sch, db, k) == Some(u))
  }

  /**
   * Guarded writes stay inside the wall: over any run of harmless calls by any tenants, the rows
   * of a tenant `u` that made none of the calls are all there at the end, unchanged and still
   * `u`'s, no row has become `u`'s, and the invariant that guarded reads rely on still holds.
   */
  lemma {:induction false} RunHoldsTheWall(sch: Schema, db: Db, calls: seq<Call>, u: Id)
    requires WellFormed(sch) && Good(sch, db) && HarmlessRun(sch, db, calls)
    requires forall i | 0 <= i < |calls| :: calls[i].tenant != u
    ensures Good(sch, Run(sch, db, calls)) && Untouched(sch, db, Run(sch, db, calls), u)
    decreases |calls|
  {
    if calls != [] {
      GuardedOperationHoldsTheWall(sch, db, calls[0].tenant, calls[0].op);
      RunHoldsTheWall(sch, Guarded(sch, db, calls[0].tenant, calls[0].op), calls[1..], u);
    }
  }

  // ── Plain payloads ────────────────────────────────────────────────────────

  /** Every payload of the operation is one the client accepts. */
  predicate AcceptedOperation(sch: Schema, op: Operation) {
    match op
    case CreateOne(m, p) => Accepted(sch, m, p, None)
    case CreateMany(m, rows) => forall i | 0 <= i < |rows| :: Accepted(sch, m, rows[i], None)
    case UpdateOne(m, _, p) => Accepted(sch, m, p, None)
    case UpsertOne(m, _, create, update) => Accepted(sch, m, create, None) && Accepted(sch, m, update, None)
    case _ => true
  }

  predicate PlainOperation(sch: Schema, op: Operation) {
    match op
    case CreateOne(m, p) => Plain(sch, m, p)
    case CreateMany(m, rows) => forall i | 0 <= i < |rows| :: Plain(sch, m, rows[i])
    case UpdateOne(m, _, p) => Plain(sch, m, p)
    case UpsertOne(m, _, create, update) => Plain(sch, m, create) && Plain(sch, m, update)
    case _ => true
  }

  /** A create beyond the wall, with all that is nested below it. */
  lemma {:induction false} OutsideCreate(
    sch: Schema, before: Db, t: Id, db: Db, m: Model, c: Payload, via: Option<Relation>, inspected: bool)
    requires Outside(sch, m, via) && Accepted(sch, m, c, via)
    ensures HarmlessCreate(sch, before, t, db, m, c, inspected)
    decreases c, 1
  {
    var k := Key(m, c.id);
    assert Leads(sch, m, via, []);
    if k !in db {
      OutsideNested(sch, before, t, db[k := RowOf(c.cols)], k, c, via, 0);
    }
  }

  lemma {:induction false} OutsideNested(
    sch: Schema, before: Db, t: Id, db: Db, x: Key, p: Payload, via: Option<Relation>, i: nat)
    requires x in db && i <= |p.nested| && !Walled(sch, x.model)
    requires Outside(sch, x.model, via) && Accepted(sch, x.model, p, via)
    ensures HarmlessNested(sch, before, t, db, x, p, i, false)
    decreases p, 0, |p.nested| - i
  {
    if i < |p.nested| {
      var n := p.nested[i];
      assert n < p && AcceptedOp(sch, x.model, n, via);
      OutsideStep(sch, before, t, db, x, n, via);
      var done := RunOp(sch, db, x, n);
      if done.Some? {
        OutsideNested(sch, before, t, done.value, x, p, via, i + 1);
      }
    }
  }

  lemma {:induction false} OutsideStep(sch: Schema, before: Db, t: Id, db: Db, x: Key, n: Nested, via: Option<Relation>)
    requires x in db && !Walled(sch, x.model) && Outside(sch, x.model, via) && AcceptedOp(sch, x.model, n, via)
    ensures HarmlessOp(sch, before, t, db, x, n, false)
    decreases n, 2
  {
    if n.field in RelationsOf(sch, x.model) && Target(sch, x.model, RelationsOf(sch, x.model)[n.field]).Some? {
      var r := RelationsOf(sch, x.model)[n.field];
      var m := Target(sch, x.model, r).value;
      OutsideGoesOn(sch, x.model, via, n.field);
      match n.op
      case Create(c) => OutsideCreate(sch, before, t, db, m, c, Some(Inverse(x.model, r)), false);
      case ConnectOrCreate(_, c) => OutsideCreate(sch, before, t, db, m, c, Some(Inverse(x.model, r)), false);
      case _ =>
    }
  }

  lemma {:induction false} PlainCreate(sch: Schema, before: Db, t: Id, db: Db, m: Model, p: Payload, via: Option<Relation>)
    requires NoWayBack(sch) && Walled(sch, m) && Plain(sch, m, p) && Accepted(sch, m, p, via)
    ensures HarmlessCreate(sch, before, t, db, m, Fill(sch, t, m, p), true)
    decreases p, 1
  {
    var q, k := Fill(sch, t, m, p), Key(m, p.id);
    if k !in db {
      PlainNested(sch, before, t, db[k := RowOf(q.cols)], k, p, q, via, 0);
    }
  }

  lemma {:induction false} PlainNested(
    sch: Schema, before: Db, t: Id, db: Db, x: Key, p: Payload, q: Payload, via: Option<Relation>, i: nat)
    requires NoWayBack(sch) && Walled(sch, x.model) && Plain(sch, x.model, p) && Accepted(sch, x.model, p, via)
    requires x in db && i <= |p.nested| && q.nested == FillNested(sch, t, x.model, p)
    ensures HarmlessNested(sch, before, t, db, x, q, i, true)
    decreases p, 0, |p.nested| - i
  {
    if i < |p.nested| {
      var n := p.nested[i];
      assert n < p && PlainOp(sch, x.model, n) && AcceptedOp(sch, x.model, n, via) && q.nested[i] == FillOp(sch, t, x.model, n);
      PlainStep(sch, before, t, db, x, n, via);
      var done := RunOp(sch, db, x, q.nested[i]);
      if done.Some? {
        PlainNested(sch, before, t, done.value, x, p, q, via, i + 1);
      }
    }
  }

  lemma {:induction false} PlainStep(sch: Schema, before: Db, t: Id, db: Db, x: Key, n: Nested, via: Option<Relation>)
    requires NoWayBack(sch) && Walled(sch, x.model) && x in db
    requires PlainOp(sch, x.model, n) && AcceptedOp(sch, x.model, n, via)
    ensures HarmlessOp(sch, before, t, db, x, FillOp(sch, t, x.model, n), true)
    decreases n, 2
  {
    if n.field in RelationsOf(sch, x.model) && Target(sch, x.model, RelationsOf(sch, x.model)[n.field]).Some? {
      match n.op
      case Create(c) => PlainBelow(sch, before, t, db, x.model, n.field, c);
      case ConnectOrCreate(_, c) => PlainBelow(sch, before, t, db, x.model, n.field, c);
      case _ =>
    }
  }

  /** A create nested below a row behind the wall, on either side of it. */
  lemma {:induction false} PlainBelow(sch: Schema, before: Db, t: Id, db: Db, m: Model, f: Field, c: Payload)
    requires NoWayBack(sch) && Walled(sch, m) && f in RelationsOf(sch, m) && Target(sch, m, RelationsOf(sch, m)[f]).Some?
    requires var target := Target(sch, m, RelationsOf(sch, m)[f]).value;
             && (Walled(sch, target) ==> Plain(sch, target, c))
             && Accepted(sch, target, c, Some(Inverse(m, RelationsOf(sch, m)[f])))
    ensures var target := Target(sch, m, RelationsOf(sch, m)[f]).value;
            HarmlessCreate(sch, before, t, db, target, Fill(sch, t, target, c), true)
    decreases c, 2
  {
    var r := RelationsOf(sch, m)[f];
    var target := Target(sch, m, r).value;
    if Walled(sch, target) {
      PlainCreate(sch, before, t, db, target, c, Some(Inverse(m, r)));
    } else {
      assert LeavesForGood(sch, m, r);
      OutsideCreate(sch, before, t, db, target, c, Some(Inverse(m, r)), true);
    }
  }

  lemma {:induction false} PlainRows(sch: Schema, before: Db, t: Id, db: Db, m: Model, rows: seq<Payload>)
    requires NoWayBack(sch) && Walled(sch, m)
    requires forall i | 0 <= i < |rows| :: Plain(sch, m, rows[i]) && Accepted(sch, m, rows[i], None)
    ensures HarmlessRows(sch, before, t, db, m, rows)
    decreases |rows|
  {
    if rows != [] {
      PlainCreate(sch, before, t, db, m, rows[0], None);
      var done := CreateRow(sch, db, m, Fill(sch, t, m, rows[0]));
      if done.Some? {
        PlainRows(sch, before, t, done.value, m, rows[1..]);
      }
    }
  }

  lemma PlainUpdate(sch: Schema, db: Db, t: Id, x: Key, p: Payload)
    requires NoWayBack(sch) && x in db && Walled(sch, x.model) && Plain(sch, x.model, p) && Accepted(sch, x.model, p, None)
    ensures HarmlessUpdate(sch, db, t, x, p)
  {
    var q := Payload(p.id, p.cols, FillNested(sch, t, x.model, p));
    PlainNested(sch, db, t, db[x := Merge(db[x], p.cols)], x, p, q, None, 0);
  }

  /**
   * Plain payloads, of which the guard sees all there is behind the wall, are harmless whatever the
   * database holds and whatever they create beyond it; under a cascade-safe schema so are deletions.
   */
  lemma PlainOperationHoldsTheWall(sch: Schema, db: Db, t: Id, op: Operation)
    requires WellFormed(sch) && NoWayBack(sch) && CascadeSafe(sch) && Good(sch, db)
    requires PlainOperation(sch, op) && AcceptedOperation(sch, op)
    ensures Good(sch, Guarded(sch, db, t, op)) && WallHeld(sch, t, db, Guarded(sch, db, t, op))
  {
    CommitHoldsTheWall(sch, t, db, None);
    if Walled(sch, op.model) {
      match op
      case CreateOne(m, p) => PlainCreate(sch, db, t, db, m, p, None); CreateHoldsTheWall(sch, t, db, m, p);
      case CreateMany(m, rows) => PlainRows(sch, db, t, db, m, rows); CreateManyHoldsTheWall(sch, db, t, m, rows);
      case UpdateOne(m, at, p) =>
        if Find(db, m, at).Some? {
          PlainUpdate(sch, db, t, Find(db, m, at).value, p);
          UpdateHoldsTheWall(sch, t, db, Find(db, m, at).value, p);
        }
      case UpdateMany(m, w, cols) => UpdateManyHoldsTheWall(sch, db, t, m, w, cols);
      case UpsertOne(m, at, create, update) =>
        if Find(db, m, at).Some? {
          PlainUpdate(sch, db, t, Find(db, m, at).value, update);
          UpdateHoldsTheWall(sch, t, db, Find(db, m, at).value, update);
        } else {
          PlainCreate(sch, db, t, db, m, create, None);
          CreateHoldsTheWall(sch, t, db, m, create);
        }
      case DeleteOne(m, at) =>
        if Find(db, m, at).Some? && Owner(sch, db, Find(db, m, at).value) == Some(t) {
          CascadeSafeSparesOthers(sch, t, db, {Find(db, m, at).value});
          DeletionHoldsTheWall(sch, t, db, {Find(db, m, at).value});
        }
      case DeleteMany(m, w) =>
        SelectedRowsAreOwned(sch, t, db, m, w);
        CascadeSafeSparesOthers(sch, t, db, TenantReads.GuardedSelect(sch, db, t, m, w));
        DeletionHoldsTheWall(sch, t, db, TenantReads.GuardedSelect(sch, db, t, m, w));
    }
  }

  /** So a run of plain calls needs no condition on the database it meets. */
  lemma {:induction false} PlainRunHoldsTheWall(sch: Schema, db: Db, calls: seq<Call>, u: Id)
    requires WellFormed(sch) && NoWayBack(sch) && CascadeSafe(sch) && Good(sch, db)
    requires forall i | 0 <= i < |calls| ::
               calls[i].tenant != u && PlainOperation(sch, calls[i].op) && AcceptedOperation(sch, calls[i].op)
    ensures Good(sch, Run(sch, db, calls)) && Untouched(sch, db, Run(sch, db, calls), u)
    decreases |calls|
  {
    if calls != [] {
      PlainOperationHoldsTheWall(sch, db, calls[0].tenant, calls[0].op);
      PlainRunHoldsTheWall(sch, Guarded(sch, db, calls[0].tenant, calls[0].op), calls[1..], u);
    }
  }
}
