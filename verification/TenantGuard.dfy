/**
 * The guard's treatment of write payloads: which references it inspects, what it fills in, and
 * when it refuses. Payloads nest to any depth.
 */
module TenantGuard {
  import opened Wrappers
  import opened TenantData

  /** A unique `where`: by primary key or by another unique column. It names at most one row. */
  datatype Unique = ById(id: Id) | ByKey(column: Column, value: string)

  /** `id` is the key a created row gets. In `cols`, None is an explicit NULL. */
  datatype Payload = Payload(id: Id, cols: map<Column, Option<string>>, nested: seq<Nested>)

  datatype Nested = Nested(field: Field, op: Op)

  /**
   * `Touch` stands for update, updateMany, upsert, delete, deleteMany, set and disconnect; `rows` is
   * what the database makes of the rows it acts on.
   */
  datatype Op =
    | Connect(at: Unique)
    | ConnectOrCreate(at: Unique, otherwise: Payload)
    | Create(payload: Payload)
    | Touch(rows: map<Key, Row>)

  predicate Names(db: Db, m: Model, u: Unique, k: Key) {
    && k in db && k.model == m
    && match u
       case ById(id) => k.id == id
       case ByKey(c, v) => Get(db[k], c) == Some(v)
  }

  /** What `check` refuses: a reference whose owner the look-up finds to be another tenant. */
  predicate NamesForeign(sch: Schema, db: Db, t: Id, m: Model, u: Unique) {
    match KindOf(sch, m)
    case TenantModel => u.ById? && u.id != t
    case Direct => exists k | k in db :: Names(db, m, u, k) && Foreign(Owner(sch, db, k), t)
    case ViaParent(_, _, _) => exists k | k in db :: Names(db, m, u, k) && Foreign(Owner(sch, db, k), t)
    case _ => false
  }

  predicate ScalarAllowed(sch: Schema, db: Db, t: Id, m: Model, cols: map<Column, Option<string>>, fk: Column)
    requires fk in RefsOf(sch, m)
  {
    var ref := RefsOf(sch, m)[fk];
    !ref.pinned && fk != TenantId && fk in cols && cols[fk].Some? ==>
      !NamesForeign(sch, db, t, ref.target, ById(cols[fk].value))
  }

  predicate ScalarsAllowed(sch: Schema, db: Db, t: Id, m: Model, cols: map<Column, Option<string>>) {
    forall fk | fk in RefsOf(sch, m) :: ScalarAllowed(sch, db, t, m, cols, fk)
  }

  /** `tenantId` in a payload may not name another tenant (nor NULL). */
  predicate TenantKept(sch: Schema, t: Id, m: Model, cols: map<Column, Option<string>>) {
    TenantId in cols && !KindOf(sch, m).TenantModel? ==> cols[TenantId] == Some(t)
  }

  /** The reference check on an update payload. */
  predicate RefsAllowed(sch: Schema, db: Db, t: Id, m: Model, p: Payload)
    decreases p, 1
  {
    && TenantKept(sch, t, m, p.cols)
    && ScalarsAllowed(sch, db, t, m, p.cols)
    && forall i | 0 <= i < |p.nested| :: NestedAllowed(sch, db, t, m, p.nested[i])
  }

  predicate NestedAllowed(sch: Schema, db: Db, t: Id, m: Model, n: Nested)
    decreases n, 0
  {
    n.field in RelationsOf(sch, m) && Target(sch, m, RelationsOf(sch, m)[n.field]).Some? ==>
      var r := Target(sch, m, RelationsOf(sch, m)[n.field]).value;
      match n.op
      case Connect(u) => !NamesForeign(sch, db, t, r, u)
      case ConnectOrCreate(u, c) => !NamesForeign(sch, db, t, r, u) && CreateAllowed(sch, db, t, r, c)
      case Create(c) => CreateAllowed(sch, db, t, r, c)
      case Touch(_) => !Walled(sch, r) && !KindOf(sch, r).PlatformOnly?
  }

  /** The check on a create payload, top-level or nested. Other kinds of model pass unchecked. */
  predicate CreateAllowed(sch: Schema, db: Db, t: Id, m: Model, p: Payload)
    decreases p, 2
  {
    match KindOf(sch, m)
    case TenantModel => false
    case Direct =>
      && (TenantId in p.cols ==> p.cols[TenantId] in {None, Some(t)})
      && ScalarsAllowed(sch, db, t, m, p.cols)
      && forall i | 0 <= i < |p.nested| :: NestedAllowed(sch, db, t, m, p.nested[i])
    case ViaParent(fk, _, parent) =>
      && RefsAllowed(sch, db, t, m, p)
      && (fk in p.cols && p.cols[fk].Some? && p.cols[fk].value != "" ==>
            Owner(sch, db, Key(parent, p.cols[fk].value)) == Some(t))
    case _ => true
  }

  // ── Filling in the tenant ─────────────────────────────────────────────────

  function FillCols(sch: Schema, t: Id, m: Model, cols: map<Column, Option<string>>): map<Column, Option<string>> {
    if KindOf(sch, m).Direct? then cols[TenantId := Some(t)] else cols
  }

  /** The create payload as the guard leaves it: every directly owned row in it carries `t`. */
  function Fill(sch: Schema, t: Id, m: Model, p: Payload): Payload
    decreases p, 1
  {
    if Walled(sch, m) then
      Payload(p.id, FillCols(sch, t, m, p.cols), FillNested(sch, t, m, p))
    else p
  }

  function FillNested(sch: Schema, t: Id, m: Model, p: Payload): (filled: seq<Nested>)
    ensures |filled| == |p.nested|
    decreases p, 0
  {
    seq(|p.nested|, i requires 0 <= i < |p.nested| => FillOp(sch, t, m, p.nested[i]))
  }

  function FillOp(sch: Schema, t: Id, m: Model, n: Nested): Nested
    decreases n, 0
  {
    if n.field in RelationsOf(sch, m) && Target(sch, m, RelationsOf(sch, m)[n.field]).Some? then
      var r := Target(sch, m, RelationsOf(sch, m)[n.field]).value;
      match n.op
      case Create(c) => Nested(n.field, Create(Fill(sch, t, r, c)))
      case ConnectOrCreate(u, c) => Nested(n.field, ConnectOrCreate(u, Fill(sch, t, r, c)))
      case _ => n
    else n
  }

  // ── The reference check as the middleware runs it ─────────────────────────

  type Memo = map<(Model, Unique), bool>

  ghost predicate Remembers(sch: Schema, db: Db, t: Id, seen: Memo) {
    forall k | k in seen :: seen[k] == NamesForeign(sch, db, t, k.0, k.1)
  }

  /** One look-up, its answer remembered in `seen`: remembering never changes the verdict. */
  method Check(sch: Schema, db: Db, t: Id, m: Model, u: Unique, seen0: Memo) returns (foreign: bool, seen: Memo)
    requires Remembers(sch, db, t, seen0)
    ensures foreign == NamesForeign(sch, db, t, m, u) && Remembers(sch, db, t, seen)
  {
    seen := seen0;
    if (m, u) !in seen {
      seen := seen[(m, u) := NamesForeign(sch, db, t, m, u)];
    }
    foreign := seen[(m, u)];
  }

  /** The check on the scalar keys of a payload. */
  method AssertScalars(sch: Schema, db: Db, t: Id, m: Model, cols: map<Column, Option<string>>, seen0: Memo)
    returns (ok: bool, seen: Memo)
    requires Remembers(sch, db, t, seen0)
    ensures ok <==> ScalarsAllowed(sch, db, t, m, cols)
    ensures Remembers(sch, db, t, seen)
  {
    seen := seen0;
    var todo := RefsOf(sch, m).Keys;
    while todo != {}
      invariant todo <= RefsOf(sch, m).Keys
      invariant Remembers(sch, db, t, seen)
      invariant forall fk | fk in RefsOf(sch, m) && fk !in todo :: ScalarAllowed(sch, db, t, m, cols, fk)
      decreases |todo|
    {
      var fk :| fk in todo;
      todo := todo - {fk};
      var ref := RefsOf(sch, m)[fk];
      if !ref.pinned && fk != TenantId && fk in cols && cols[fk].Some? {
        var foreign;
        foreign, seen := Check(sch, db, t, ref.target, ById(cols[fk].value), seen);
        if foreign {
          return false, seen;
        }
      }
    }
    ok := true;
  }

  /** The nested writes of a payload, in order; the payload handed on has its creates filled in. */
  method AssertNested(sch: Schema, db: Db, t: Id, m: Model, p: Payload, seen0: Memo)
    returns (ok: bool, filled: seq<Nested>)
    requires Remembers(sch, db, t, seen0)
    ensures ok <==> forall i | 0 <= i < |p.nested| :: NestedAllowed(sch, db, t, m, p.nested[i])
    ensures ok ==> filled == FillNested(sch, t, m, p)
    decreases p, 0
  {
    filled := [];
    var seen := seen0;
    for k := 0 to |p.nested|
      invariant Remembers(sch, db, t, seen)
      invariant forall i | 0 <= i < k :: NestedAllowed(sch, db, t, m, p.nested[i])
      invariant |filled| == k && forall i | 0 <= i < k :: filled[i] == FillOp(sch, t, m, p.nested[i])
    {
      var n := p.nested[k];
      if n.field in RelationsOf(sch, m) && Target(sch, m, RelationsOf(sch, m)[n.field]).Some? {
        var r := Target(sch, m, RelationsOf(sch, m)[n.field]).value;
        if n.op.Touch? && (Walled(sch, r) || KindOf(sch, r).PlatformOnly?) {
          return false, filled;
        }
        if n.op.Connect? || n.op.ConnectOrCreate? {
          var foreign;
          foreign, seen := Check(sch, db, t, r, n.op.at, seen);
          if foreign {
            return false, filled;
          }
        }
        if n.op.Create? || n.op.ConnectOrCreate? {
          var inner, c := AssertCreatePayload(sch, db, t, r, if n.op.Create? then n.op.payload else n.op.otherwise);
          if !inner {
            return false, filled;
          }
          n := Nested(n.field, if n.op.Create? then Create(c) else ConnectOrCreate(n.op.at, c));
        }
      }
      filled := filled + [n];
    }
    ok := true;
  }

  /** A create payload, checked and filled in. */
  method AssertCreatePayload(sch: Schema, db: Db, t: Id, m: Model, p: Payload)
    returns (ok: bool, filled: Payload)
    ensures ok <==> CreateAllowed(sch, db, t, m, p)
    ensures ok ==> filled == Fill(sch, t, m, p)
    decreases p, 1
  {
    filled := p;
    match KindOf(sch, m) {
      case TenantModel => return false, filled;
      case Direct =>
        if TenantId !in p.cols || p.cols[TenantId] == None {
          filled := p.(cols := p.cols[TenantId := Some(t)]);
        } else if p.cols[TenantId] != Some(t) {
          return false, filled;
        }
      case ViaParent(_, _, _) =>
        if TenantId in p.cols && p.cols[TenantId] != Some(t) {
          return false, filled;
        }
      case _ => return true, filled;
    }
    var scalars, seen := AssertScalars(sch, db, t, m, p.cols, map[]);
    if !scalars {
      return false, filled;
    }
    var nested;
    ok, nested := AssertNested(sch, db, t, m, p, seen);
    if !ok {
      return;
    }
    filled := filled.(nested := nested);
    var kind := KindOf(sch, m);
    if kind.ViaParent? && kind.fk in p.cols && p.cols[kind.fk].Some? && p.cols[kind.fk].value != "" {
      ok := Owner(sch, db, Key(kind.parent, p.cols[kind.fk].value)) == Some(t);
    }
  }
}
