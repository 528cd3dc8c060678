/**
 * The data the tenant wall protects: a database of rows behind a schema that says, for every
 * model, how a row reaches its owning tenant and which columns hold references.
 */
module TenantData {
  import opened Wrappers

  type Model = string
  type Field = string
  type Id = string
  datatype Column = TenantId | Named(name: string)

  /** How a model is classified by the guard. */
  datatype Kind =
    | TenantModel
    | Direct
    | ViaParent(fk: Column, relation: Field, parent: Model)
    | PlatformOnly
    | Catalogue
    | Unclassified

  /** `NoAction` leaves a dangling key for the database to refuse at the end of the statement. */
  datatype OnDelete = Cascade | SetNull | Restrict | NoAction

  /**
   * A foreign key column. A pinned one is half of a composite key (tenantId, fk) that the
   * database itself holds to one tenant.
   */
  datatype Ref = Ref(target: Model, pinned: bool, onDelete: OnDelete)

  /** A relation field: the key is on this model, or on the rows that point back here. */
  datatype Relation = Own(fk: Column) | Back(from: Model, fk: Column)

  /** `owned` are the models whose rows always have an owner (their owner column is NOT NULL). */
  datatype Schema = Schema(
    kinds: map<Model, Kind>,
    refs: map<Model, map<Column, Ref>>,
    relations: map<Model, map<Field, Relation>>,
    owned: set<Model>)

  datatype Key = Key(model: Model, id: Id)

  /** A column that is absent is NULL. */
  type Row = map<Column, string>
  type Db = map<Key, Row>

  function KindOf(sch: Schema, m: Model): Kind {
    if m in sch.kinds then sch.kinds[m] else Unclassified
  }

  function RefsOf(sch: Schema, m: Model): map<Column, Ref> {
    if m in sch.refs then sch.refs[m] else map[]
  }

  function RelationsOf(sch: Schema, m: Model): map<Field, Relation> {
    if m in sch.relations then sch.relations[m] else map[]
  }

  function Target(sch: Schema, m: Model, r: Relation): Option<Model> {
    match r
    case Own(fk) => if fk in RefsOf(sch, m) then Some(RefsOf(sch, m)[fk].target) else None
    case Back(from, _) => Some(from)
  }

  function Get(row: Row, c: Column): Option<string> {
    if c in row then Some(row[c]) else None
  }

  /** The models the wall scopes by owner. */
  predicate Walled(sch: Schema, m: Model) {
    var k := KindOf(sch, m);
    k.TenantModel? || k.Direct? || k.ViaParent?
  }

  /** The column that carries a row's ownership, if the model has one. */
  predicate CarriesOwner(sch: Schema, m: Model, c: Column) {
    var k := KindOf(sch, m);
    (k.Direct? && c == TenantId) || (k.ViaParent? && c == k.fk)
  }

  ghost predicate WellFormed(sch: Schema) {
    && (forall m, c | m in sch.refs && c in sch.refs[m] ::
          c == TenantId ==> KindOf(sch, m).Direct? && KindOf(sch, sch.refs[m][c].target).TenantModel?)
    && (forall m, f | m in sch.relations && f in sch.relations[m] ::
          var r := sch.relations[m][f];
          match r
          case Own(fk) => fk in RefsOf(sch, m)
          case Back(from, fk) => fk in RefsOf(sch, from) && RefsOf(sch, from)[fk].target == m)
    && (forall m | m in sch.kinds && sch.kinds[m].Direct? && TenantId in RefsOf(sch, m) :: !RefsOf(sch, m)[TenantId].pinned)
    && (forall m | m in sch.kinds && sch.kinds[m].ViaParent? ::
          var k := sch.kinds[m];
          && k.fk in RefsOf(sch, m)
          && RefsOf(sch, m)[k.fk].target == k.parent
          && !RefsOf(sch, m)[k.fk].pinned
          && KindOf(sch, k.parent).Direct?
          && k.relation in RelationsOf(sch, m)
          && RelationsOf(sch, m)[k.relation] == Own(k.fk))
    && (forall m, c | m in sch.refs && c in sch.refs[m] ::
          sch.refs[m][c].pinned ==> KindOf(sch, m).Direct? && KindOf(sch, sch.refs[m][c].target).Direct?)
  }

  /** The tenant owning a row, or None for a row without an owner (or no row). */
  function Owner(sch: Schema, db: Db, k: Key): Option<Id> {
    if k !in db then None
    else match KindOf(sch, k.model)
      case TenantModel => Some(k.id)
      case Direct => Get(db[k], TenantId)
      case ViaParent(fk, _, parent) =>
        if fk in db[k] && Key(parent, db[k][fk]) in db then Get(db[Key(parent, db[k][fk])], TenantId) else None
      case _ => None
  }

  /** Owned by some tenant other than `t`. */
  predicate Foreign(owner: Option<Id>, t: Id) {
    owner.Some? && owner.value != t
  }

  /** Column `fk` of `x` holds a reference to the row `y`. */
  predicate RefersTo(sch: Schema, db: Db, x: Key, fk: Column, y: Key) {
    && x in db && y in db
    && fk in RefsOf(sch, x.model)
    && RefsOf(sch, x.model)[fk].target == y.model
    && fk in db[x] && db[x][fk] == y.id
  }

  /** `y` is related to `x` through relation field `f` of `x`. */
  predicate Linked(sch: Schema, db: Db, x: Key, f: Field, y: Key) {
    && f in RelationsOf(sch, x.model)
    && match RelationsOf(sch, x.model)[f]
       case Own(fk) => RefersTo(sch, db, x, fk, y)
       case Back(from, fk) => y.model == from && RefersTo(sch, db, y, fk, x)
  }

  /** A tenant's row refers only to rows of the same tenant and to ownerless rows. */
  ghost predicate Sealed(sch: Schema, db: Db) {
    forall x, fk, y | RefersTo(sch, db, x, fk, y) ::
      Owner(sch, db, x).Some? ==> !Foreign(Owner(sch, db, y), Owner(sch, db, x).value)
  }

  /** A set foreign key names a row; a pinned one, a row of the same tenant (unchecked while tenantId is NULL). */
  ghost predicate KeyHolds(sch: Schema, db: Db, x: Key, fk: Column)
    requires x in db && fk in RefsOf(sch, x.model) && fk in db[x]
  {
    var ref := RefsOf(sch, x.model)[fk];
    var y := Key(ref.target, db[x][fk]);
    (ref.pinned && TenantId !in db[x])
    || (y in db && (ref.pinned ==> Get(db[x], TenantId) == Get(db[y], TenantId)))
  }

  /** What the database refuses to violate: dangling and mis-pinned keys, and missing owners. */
  ghost predicate Constraints(sch: Schema, db: Db) {
    && (forall x, fk | x in db && fk in RefsOf(sch, x.model) && fk in db[x] :: KeyHolds(sch, db, x, fk))
    && (forall x | x in db && x.model in sch.owned :: Owner(sch, db, x).Some?)
  }

  /** The invariant of the wall. */
  ghost predicate Good(sch: Schema, db: Db) {
    Sealed(sch, db) && Constraints(sch, db)
  }

  /** A step along a relation of the other side: whoever refers to a tenant's row is no other tenant's. */
  lemma LinkedStaysInside(sch: Schema, db: Db, x: Key, f: Field, y: Key, t: Id)
    requires Sealed(sch, db)
    requires Linked(sch, db, x, f, y)
    requires Owner(sch, db, x) == Some(t)
    ensures !Foreign(Owner(sch, db, y), t)
  {
    match RelationsOf(sch, x.model)[f]
    case Own(fk) => assert RefersTo(sch, db, x, fk, y);
    case Back(from, fk) => assert RefersTo(sch, db, y, fk, x);
  }
}
