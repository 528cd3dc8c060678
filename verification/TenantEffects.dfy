/**
 * What an accepted write does to the tenant's own rows, and when it is refused: exactly the rows it
 * names or selects, exactly the columns it gives, and nothing else.
 */
module TenantEffects {
  import opened Wrappers
  import opened TenantData
  import opened TenantGuard
  import opened TenantWrites
  import TenantReads

  // ── The rows a write reaches ──────────────────────────────────────────────

  /** Rows of `t` that the caller's filter selects. */
  ghost function Chosen(sch: Schema, db: Db, t: Id, m: Model, w: TenantReads.Where): set<Key> {
    set k | k in db && k.model == m && Owner(sch, db, k) == Some(t) && TenantReads.Matches(sch, db, w, k)
  }

  /** The row of `t` that a unique `where` names. */
  ghost function Named(sch: Schema, db: Db, t: Id, m: Model, at: Unique): set<Key> {
    set k | k in db && Names(db, m, at, k) && Owner(sch, db, k) == Some(t)
  }

  /** A unique column names at most one row. */
  ghost predicate NamesOne(db: Db, m: Model, at: Unique) {
    forall a, b | Names(db, m, at, a) && Names(db, m, at, b) :: a == b
  }

  lemma FoundIsNamed(sch: Schema, db: Db, t: Id, m: Model, at: Unique)
    requires NamesOne(db, m, at)
    ensures Find(db, m, at).Some? <==> exists k :: Names(db, m, at, k)
    ensures Find(db, m, at).Some? ==> Names(db, m, at, Find(db, m, at).value)
    ensures Named(sch, db, t, m, at) ==
            if Find(db, m, at).Some? && Owner(sch, db, Find(db, m, at).value) == Some(t) then {Find(db, m, at).value} else {}
  {
  }

  lemma SelectedAreChosen(sch: Schema, db: Db, t: Id, m: Model, w: TenantReads.Where)
    requires WellFormed(sch) && Walled(sch, m)
    ensures TenantReads.GuardedSelect(sch, db, t, m, w) == Chosen(sch, db, t, m, w)
  {
    forall k | k in db && k.model == m
      ensures k in TenantReads.GuardedSelect(sch, db, t, m, w) <==> k in Chosen(sch, db, t, m, w)
    {
      TenantReads.ScopeMeansOwned(sch, db, t, k);
    }
  }

  // ── What the guard lets through ───────────────────────────────────────────

  /** The payload `q`, of model `n`, is what the nested creates of `p` along this path lead to, behind the wall. */
  predicate Reaches(sch: Schema, m: Model, p: Payload, path: seq<nat>, n: Model, q: Payload)
    decreases |path|
  {
    if path == [] then m == n && p == q
    else
      && Walled(sch, m) && path[0] < |p.nested|
      && var inner := p.nested[path[0]];
         && inner.field in RelationsOf(sch, m) && Target(sch, m, RelationsOf(sch, m)[inner.field]).Some?
         && (inner.op.Create? || inner.op.ConnectOrCreate?)
         && Reaches(sch, Target(sch, m, RelationsOf(sch, m)[inner.field]).value, Making(inner.op), path[1..], n, q)
  }

  function Making(op: Op): Payload
    requires op.Create? || op.ConnectOrCreate?
  {
    if op.Create? then op.payload else op.otherwise
  }

  /** What is named is another tenant's: an organisation by another id, or a row there is that somebody else owns. */
  ghost predicate OthersRow(sch: Schema, db: Db, t: Id, m: Model, u: Unique) {
    if KindOf(sch, m).TenantModel? then u.ById? && u.id != t
    else exists k :: k in db && k.model == m && Owner(sch, db, k) !in {None, Some(t)} &&
                     match u
                     case ById(id) => k.id == id
                     case ByKey(c, v) => c in db[k] && db[k][c] == v
  }

  /** One level of a payload names nothing that is another tenant's and acts on nothing guarded but by connecting or creating. */
  ghost predicate LevelAllowed(sch: Schema, db: Db, t: Id, n: Model, q: Payload, created: bool) {
    var kind := KindOf(sch, n);
    && !(created && kind.TenantModel?)
    && (TenantId in q.cols && !kind.TenantModel? ==>
          q.cols[TenantId] == Some(t) || (created && kind.Direct? && q.cols[TenantId] == None))
    && (forall fk | fk in RefsOf(sch, n) && fk in q.cols :: ColumnAllowed(sch, db, t, n, q, fk))
    && (created && kind.ViaParent? && kind.fk in q.cols && q.cols[kind.fk] !in {None, Some("")} ==>
          Owner(sch, db, Key(kind.parent, q.cols[kind.fk].value)) == Some(t))
    && forall i | 0 <= i < |q.nested| :: OpAllowed(sch, db, t, n, q.nested[i])
  }

  ghost predicate ColumnAllowed(sch: Schema, db: Db, t: Id, n: Model, q: Payload, fk: Column)
    requires fk in RefsOf(sch, n) && fk in q.cols
  {
    var ref := RefsOf(sch, n)[fk];
    ref.pinned || fk == TenantId || q.cols[fk].None? || !OthersRow(sch, db, t, ref.target, ById(q.cols[fk].value))
  }

  ghost predicate OpAllowed(sch: Schema, db: Db, t: Id, n: Model, inner: Nested) {
    inner.field in RelationsOf(sch, n) && Target(sch, n, RelationsOf(sch, n)[inner.field]).Some? ==>
      var target := Target(sch, n, RelationsOf(sch, n)[inner.field]).value;
      match inner.op
      case Connect(u) => !OthersRow(sch, db, t, target, u)
      case ConnectOrCreate(u, _) => !OthersRow(sch, db, t, target, u)
      case Create(_) => true
      case Touch(_) => KindOf(sch, target) in {Catalogue, Unclassified}
  }

  lemma NamesForeignIs(sch: Schema, db: Db, t: Id, m: Model, u: Unique)
    ensures NamesForeign(sch, db, t, m, u) <==> OthersRow(sch, db, t, m, u)
  {
    if OthersRow(sch, db, t, m, u) && !KindOf(sch, m).TenantModel? {
      var k :| k in db && k.model == m && Owner(sch, db, k) !in {None, Some(t)} &&
               match u
               case ById(id) => k.id == id
               case ByKey(c, v) => c in db[k] && db[k][c] == v;
      assert Names(db, m, u, k) && Foreign(Owner(sch, db, k), t);
    }
  }

  ghost predicate AllLevels(sch: Schema, db: Db, t: Id, m: Model, p: Payload, created: bool) {
    forall path, n, q | Reaches(sch, m, p, path, n, q) && Walled(sch, n) :: LevelAllowed(sch, db, t, n, q, created || path != [])
  }

  ghost predicate Allowed(sch: Schema, db: Db, t: Id, m: Model, p: Payload, created: bool) {
    if created then CreateAllowed(sch, db, t, m, p) else RefsAllowed(sch, db, t, m, p)
  }

  /** What is nested at `i` is fine below its own level. */
  ghost predicate BelowAllowed(sch: Schema, db: Db, t: Id, m: Model, inner: Nested) {
    inner.field in RelationsOf(sch, m) && Target(sch, m, RelationsOf(sch, m)[inner.field]).Some?
    && (inner.op.Create? || inner.op.ConnectOrCreate?) ==>
      CreateAllowed(sch, db, t, Target(sch, m, RelationsOf(sch, m)[inner.field]).value, Making(inner.op))
  }

  /** The nested writes of one level, for what they name and for what is below them. */
  ghost predicate OpsAllowed(sch: Schema, db: Db, t: Id, m: Model, p: Payload) {
    forall i | 0 <= i < |p.nested| :: OpAllowed(sch, db, t, m, p.nested[i])
  }

  ghost predicate AllBelowAllowed(sch: Schema, db: Db, t: Id, m: Model, p: Payload) {
    forall i | 0 <= i < |p.nested| :: BelowAllowed(sch, db, t, m, p.nested[i])
  }

  lemma OpsOfOneLevel(sch: Schema, db: Db, t: Id, m: Model, p: Payload)
    ensures (forall i | 0 <= i < |p.nested| :: NestedAllowed(sch, db, t, m, p.nested[i])) <==>
            OpsAllowed(sch, db, t, m, p) && AllBelowAllowed(sch, db, t, m, p)
  {
    forall i | 0 <= i < |p.nested|
      ensures NestedAllowed(sch, db, t, m, p.nested[i]) <==>
              OpAllowed(sch, db, t, m, p.nested[i]) && BelowAllowed(sch, db, t, m, p.nested[i])
    {
      OneOp(sch, db, t, m, p.nested[i]);
    }
  }

  lemma ColumnsOfOneLevel(sch: Schema, db: Db, t: Id, m: Model, p: Payload)
    ensures ScalarsAllowed(sch, db, t, m, p.cols) <==>
            forall fk | fk in RefsOf(sch, m) && fk in p.cols :: ColumnAllowed(sch, db, t, m, p, fk)
  {
    forall fk | fk in RefsOf(sch, m) && fk in p.cols
      ensures ScalarAllowed(sch, db, t, m, p.cols, fk) <==> ColumnAllowed(sch, db, t, m, p, fk)
    {
      if p.cols[fk].Some? {
        NamesForeignIs(sch, db, t, RefsOf(sch, m)[fk].target, ById(p.cols[fk].value));
      }
    }
    forall fk | fk in RefsOf(sch, m) && fk !in p.cols
      ensures ScalarAllowed(sch, db, t, m, p.cols, fk)
    {
    }
  }

  lemma OneLevel(sch: Schema, db: Db, t: Id, m: Model, p: Payload, created: bool)
    requires Walled(sch, m)
    ensures Allowed(sch, db, t, m, p, created) <==> LevelAllowed(sch, db, t, m, p, created) && AllBelowAllowed(sch, db, t, m, p)
  {
    ColumnsOfOneLevel(sch, db, t, m, p);
    OpsOfOneLevel(sch, db, t, m, p);
    var nested := forall i | 0 <= i < |p.nested| :: NestedAllowed(sch, db, t, m, p.nested[i]);
    assert RefsAllowed(sch, db, t, m, p) <==> TenantKept(sch, t, m, p.cols) && ScalarsAllowed(sch, db, t, m, p.cols) && nested;
    assert OpsAllowed(sch, db, t, m, p) <==> forall i | 0 <= i < |p.nested| :: OpAllowed(sch, db, t, m, p.nested[i]);
    if created {
      match KindOf(sch, m)
      case TenantModel => assert !CreateAllowed(sch, db, t, m, p);
      case Direct =>
        assert CreateAllowed(sch, db, t, m, p) <==>
               (TenantId in p.cols ==> p.cols[TenantId] in {None, Some(t)}) && ScalarsAllowed(sch, db, t, m, p.cols) && nested;
      case ViaParent(fk, _, parent) =>
        assert CreateAllowed(sch, db, t, m, p) <==>
               RefsAllowed(sch, db, t, m, p)
               && (fk in p.cols && p.cols[fk].Some? && p.cols[fk].value != "" ==>
                     Owner(sch, db, Key(parent, p.cols[fk].value)) == Some(t));
    }
  }

  lemma OneOp(sch: Schema, db: Db, t: Id, m: Model, inner: Nested)
    ensures NestedAllowed(sch, db, t, m, inner) <==> OpAllowed(sch, db, t, m, inner) && BelowAllowed(sch, db, t, m, inner)
  {
    if inner.field in RelationsOf(sch, m) && Target(sch, m, RelationsOf(sch, m)[inner.field]).Some? {
      var target := Target(sch, m, RelationsOf(sch, m)[inner.field]).value;
      match inner.op
      case Connect(u) => NamesForeignIs(sch, db, t, target, u);
      case ConnectOrCreate(u, _) => NamesForeignIs(sch, db, t, target, u);
      case _ =>
    }
  }

  /**
   * Exactly what the guard lets through: a payload is allowed if and only if at every level it reaches
   * behind the wall nothing named is another tenant's, no organisation is created, and nothing guarded
   * is acted on but by connecting or creating.
   */
  lemma {:induction false} AllowedExactly(sch: Schema, db: Db, t: Id, m: Model, p: Payload, created: bool)
    requires Walled(sch, m)
    ensures Allowed(sch, db, t, m, p, created) <==> AllLevels(sch, db, t, m, p, created)
    decreases p, 1
  {
    OneLevel(sch, db, t, m, p, created);
    if AllLevels(sch, db, t, m, p, created) {
      var here: seq<nat> := [];
      assert Reaches(sch, m, p, here, m, p);
      assert LevelAllowed(sch, db, t, m, p, created || here != []);
      forall i | 0 <= i < |p.nested|
        ensures BelowAllowed(sch, db, t, m, p.nested[i])
      {
        AllowedBelow(sch, db, t, m, p, created, i);
      }
      assert AllBelowAllowed(sch, db, t, m, p);
    }
    if Allowed(sch, db, t, m, p, created) {
      forall path, n, q | Reaches(sch, m, p, path, n, q) && Walled(sch, n)
        ensures LevelAllowed(sch, db, t, n, q, created || path != [])
      {
        if path != [] {
          LevelBelow(sch, db, t, m, p, path, n, q);
        }
      }
      assert AllLevels(sch, db, t, m, p, created);
    }
  }

  lemma {:induction false} LevelBelow(sch: Schema, db: Db, t: Id, m: Model, p: Payload, path: seq<nat>, n: Model, q: Payload)
    requires AllBelowAllowed(sch, db, t, m, p) && path != [] && Reaches(sch, m, p, path, n, q) && Walled(sch, n)
    ensures LevelAllowed(sch, db, t, n, q, true)
    decreases p, 0
  {
    var inner, rest := p.nested[path[0]], path[1..];
    var target := Target(sch, m, RelationsOf(sch, m)[inner.field]).value;
    assert BelowAllowed(sch, db, t, m, inner) && Reaches(sch, target, Making(inner.op), rest, n, q);
    assert Walled(sch, target);
    AllowedExactly(sch, db, t, target, Making(inner.op), true);
    assert AllLevels(sch, db, t, target, Making(inner.op), true);
    assert LevelAllowed(sch, db, t, n, q, true || rest != []);
  }

  lemma {:induction false} AllowedBelow(sch: Schema, db: Db, t: Id, m: Model, p: Payload, created: bool, i: nat)
    requires Walled(sch, m) && AllLevels(sch, db, t, m, p, created) && i < |p.nested|
    ensures BelowAllowed(sch, db, t, m, p.nested[i])
    decreases p, 0
  {
    var inner := p.nested[i];
    if inner.field in RelationsOf(sch, m) && Target(sch, m, RelationsOf(sch, m)[inner.field]).Some?
       && (inner.op.Create? || inner.op.ConnectOrCreate?) {
      var target, c := Target(sch, m, RelationsOf(sch, m)[inner.field]).value, Making(inner.op);
      if Walled(sch, target) {
        forall path, n, q | Reaches(sch, target, c, path, n, q) && Walled(sch, n)
          ensures LevelAllowed(sch, db, t, n, q, true)
        {
          assert ([i] + path)[1..] == path;
          assert Reaches(sch, m, p, [i] + path, n, q);
        }
        AllowedExactly(sch, db, t, target, c, true);
      }
    }
  }

  // ── Updates ───────────────────────────────────────────────────────────────

  /** The columns given are what they are given as, in the rows reached; all else is as it was. */
  ghost predicate Updated(before: Db, after: Db, rows: set<Key>, cols: map<Column, Option<string>>) {
    after.Keys == before.Keys && forall k, c | k in before :: Given(before, after, rows, cols, k, c)
  }

  ghost predicate Given(before: Db, after: Db, rows: set<Key>, cols: map<Column, Option<string>>, k: Key, c: Column)
    requires k in before && k in after
  {
    Get(after[k], c) == if k in rows && c in cols then cols[c] else Get(before[k], c)
  }

  lemma MergeGives(row: Row, cols: map<Column, Option<string>>, c: Column)
    ensures Get(Merge(row, cols), c) == if c in cols then cols[c] else Get(row, c)
  {
  }

  lemma MergedAreUpdated(db: Db, rows: set<Key>, cols: map<Column, Option<string>>)
    ensures Updated(db, map k | k in db :: if k in rows then Merge(db[k], cols) else db[k], rows, cols)
  {
    var after := map k | k in db :: if k in rows then Merge(db[k], cols) else db[k];
    forall k, c | k in db
      ensures Given(db, after, rows, cols, k, c)
    {
      MergeGives(db[k], cols, c);
    }
  }

  /**
   * A bulk update reaches exactly the tenant's own rows that match the caller's filter. It is made if
   * its references are allowed and the database accepts it, and otherwise changes nothing.
   */
  lemma UpdateManyExactly(sch: Schema, db: Db, t: Id, m: Model, w: TenantReads.Where,
                          cols: map<Column, Option<string>>) returns (goal: Db)
    requires WellFormed(sch) && Walled(sch, m)
    ensures Updated(db, goal, Chosen(sch, db, t, m, w), cols)
    ensures Guarded(sch, db, t, UpdateMany(m, w, cols)) ==
            if RefsAllowed(sch, db, t, m, Payload("", cols, [])) && Constraints(sch, goal) then goal else db
  {
    SelectedAreChosen(sch, db, t, m, w);
    var rows := Chosen(sch, db, t, m, w);
    goal := map k | k in db :: if k in rows then Merge(db[k], cols) else db[k];
    MergedAreUpdated(db, rows, cols);
  }

  lemma UpdateRowFlat(sch: Schema, db: Db, t: Id, x: Key, p: Payload)
    requires x in db && p.nested == []
    ensures UpdateGuarded(sch, db, t, x, p) ==
            var goal := db[x := Merge(db[x], p.cols)];
            if Owner(sch, db, x) == Some(t) && RefsAllowed(sch, db, t, x.model, p) && Constraints(sch, goal) then goal else db
    ensures Updated(db, db[x := Merge(db[x], p.cols)], {x}, p.cols)
  {
    MergedAreUpdated(db, {x}, p.cols);
    assert db[x := Merge(db[x], p.cols)] == map k | k in db :: if k in {x} then Merge(db[k], p.cols) else db[k];
  }

  /** An update by a unique `where`, of columns only: the same of the one row of the tenant it names. */
  lemma UpdateOneExactly(sch: Schema, db: Db, t: Id, m: Model, at: Unique, p: Payload) returns (goal: Db)
    requires Walled(sch, m) && NamesOne(db, m, at) && p.nested == []
    ensures Updated(db, goal, Named(sch, db, t, m, at), p.cols)
    ensures Guarded(sch, db, t, UpdateOne(m, at, p)) ==
            if RefsAllowed(sch, db, t, m, p) && Constraints(sch, goal) then goal else db
  {
    FoundIsNamed(sch, db, t, m, at);
    var found := Find(db, m, at);
    if found.Some? && Owner(sch, db, found.value) == Some(t) {
      goal := db[found.value := Merge(db[found.value], p.cols)];
      UpdateRowFlat(sch, db, t, found.value, p);
    } else {
      goal := db;
    }
  }

  // ── Creates ───────────────────────────────────────────────────────────────

  /** One more row, with the columns given; a directly owned one carries the tenant's id. */
  ghost predicate Added(sch: Schema, before: Db, after: Db, t: Id, k: Key, cols: map<Column, Option<string>>) {
    && k !in before && after.Keys == before.Keys + {k} && (forall y | y in before :: after[y] == before[y])
    && forall c :: Get(after[k], c) ==
         if KindOf(sch, k.model).Direct? && c == TenantId then Some(t) else if c in cols then cols[c] else None
  }

  lemma FlatRowAdded(sch: Schema, db: Db, t: Id, m: Model, p: Payload)
    requires Walled(sch, m) && p.nested == [] && Key(m, p.id) !in db
    ensures CreateRow(sch, db, m, Fill(sch, t, m, p)) == Some(db[Key(m, p.id) := RowOf(Fill(sch, t, m, p).cols)])
    ensures Added(sch, db, db[Key(m, p.id) := RowOf(Fill(sch, t, m, p).cols)], t, Key(m, p.id), p.cols)
  {
  }

  /** A create of columns only makes the one row it describes, if allowed, accepted and not there yet. */
  lemma CreateOneExactly(sch: Schema, db: Db, t: Id, m: Model, p: Payload) returns (goal: Db)
    requires Walled(sch, m) && p.nested == []
    ensures var k := Key(m, p.id);
            if k !in db && CreateAllowed(sch, db, t, m, p) && Constraints(sch, goal)
            then Added(sch, db, goal, t, k, p.cols) && Guarded(sch, db, t, CreateOne(m, p)) == goal
            else Guarded(sch, db, t, CreateOne(m, p)) == db
    ensures Key(m, p.id) !in db ==> Added(sch, db, goal, t, Key(m, p.id), p.cols)
  {
    if Key(m, p.id) in db {
      goal := db;
    } else {
      FlatRowAdded(sch, db, t, m, p);
      goal := db[Key(m, p.id) := RowOf(Fill(sch, t, m, p).cols)];
    }
  }

  /** An upsert updates the row named, whoever owns it, and creates one only if there is none. */
  lemma UpsertExactly(sch: Schema, db: Db, t: Id, m: Model, at: Unique, create: Payload, update: Payload)
    requires Walled(sch, m) && NamesOne(db, m, at)
    ensures Guarded(sch, db, t, UpsertOne(m, at, create, update)) ==
            if exists k :: Names(db, m, at, k) then Guarded(sch, db, t, UpdateOne(m, at, update))
            else Guarded(sch, db, t, CreateOne(m, create))
  {
    FoundIsNamed(sch, db, t, m, at);
  }

  function KeysOf(m: Model, rows: seq<Payload>): set<Key> {
    set i | 0 <= i < |rows| :: Key(m, rows[i].id)
  }

  /** Each row it describes, and no other. */
  ghost predicate AllAdded(sch: Schema, before: Db, after: Db, t: Id, m: Model, rows: seq<Payload>) {
    && after.Keys == before.Keys + KeysOf(m, rows)
    && (forall y | y in before :: after[y] == before[y])
    && forall i | 0 <= i < |rows| :: RowIs(sch, after, t, Key(m, rows[i].id), rows[i].cols)
  }

  ghost predicate RowIs(sch: Schema, after: Db, t: Id, k: Key, cols: map<Column, Option<string>>) {
    && k in after
    && forall c :: Get(after[k], c) ==
         if KindOf(sch, k.model).Direct? && c == TenantId then Some(t) else if c in cols then cols[c] else None
  }

  /** None of the rows is there yet, or described twice. */
  predicate AllNew(db: Db, m: Model, rows: seq<Payload>) {
    && (forall i | 0 <= i < |rows| :: Key(m, rows[i].id) !in db)
    && forall i, j | 0 <= i < j < |rows| :: rows[i].id != rows[j].id
  }

  lemma {:induction false} RowsAdded(sch: Schema, db: Db, t: Id, m: Model, rows: seq<Payload>)
    requires Walled(sch, m) && forall i | 0 <= i < |rows| :: rows[i].nested == []
    ensures CreateRows(sch, db, t, m, rows).Some? <==> AllNew(db, m, rows)
    ensures AllNew(db, m, rows) ==> AllAdded(sch, db, CreateRows(sch, db, t, m, rows).value, t, m, rows)
    decreases |rows|
  {
    if rows != [] {
      var k, rest := Key(m, rows[0].id), rows[1..];
      assert forall i | 0 <= i < |rest| :: rest[i] == rows[i + 1];
      if k !in db {
        FlatRowAdded(sch, db, t, m, rows[0]);
        var next := db[k := RowOf(Fill(sch, t, m, rows[0]).cols)];
        RowsAdded(sch, next, t, m, rest);
        assert AllNew(next, m, rest) <==> AllNew(db, m, rows) by {
          assert AllNew(db, m, rows) ==> forall i | 0 <= i < |rest| :: rest[i].id != rows[0].id;
          assert forall i | 0 <= i < |rest| :: Key(m, rest[i].id) in db ==> Key(m, rows[i + 1].id) in db;
        }
        if AllNew(db, m, rows) {
          RestAdded(sch, db, next, CreateRows(sch, next, t, m, rest).value, t, m, rows);
        }
      }
    }
  }

  lemma RestAdded(sch: Schema, db: Db, next: Db, last: Db, t: Id, m: Model, rows: seq<Payload>)
    requires rows != [] && AllNew(db, m, rows) && Added(sch, db, next, t, Key(m, rows[0].id), rows[0].cols)
    requires AllAdded(sch, next, last, t, m, rows[1..])
    ensures AllAdded(sch, db, last, t, m, rows)
  {
    var rest := rows[1..];
    assert forall i | 0 <= i < |rest| :: rest[i] == rows[i + 1];
    forall i | 0 <= i < |rows|
      ensures RowIs(sch, last, t, Key(m, rows[i].id), rows[i].cols)
    {
      if i > 0 {
        assert RowIs(sch, last, t, Key(m, rest[i - 1].id), rest[i - 1].cols);
      }
    }
    assert KeysOf(m, rows) == {Key(m, rows[0].id)} + KeysOf(m, rest) by {
      forall k | k in KeysOf(m, rows)
        ensures k == Key(m, rows[0].id) || k in KeysOf(m, rest)
      {
        var i :| 0 <= i < |rows| && k == Key(m, rows[i].id);
        if i > 0 {
          assert k == Key(m, rest[i - 1].id);
        }
      }
      forall i | 0 <= i < |rest|
        ensures Key(m, rest[i].id) in KeysOf(m, rows)
      {
        assert Key(m, rest[i].id) == Key(m, rows[i + 1].id);
      }
    }
  }

  /** A bulk create makes all the rows it describes or none. */
  lemma CreateManyExactly(sch: Schema, db: Db, t: Id, m: Model, rows: seq<Payload>) returns (goal: Db)
    requires Walled(sch, m) && forall i | 0 <= i < |rows| :: rows[i].nested == []
    ensures AllNew(db, m, rows) ==> AllAdded(sch, db, goal, t, m, rows)
    ensures Guarded(sch, db, t, CreateMany(m, rows)) ==
            if AllNew(db, m, rows) && (forall i | 0 <= i < |rows| :: CreateAllowed(sch, db, t, m, rows[i])) && Constraints(sch, goal)
            then goal else db
  {
    RowsAdded(sch, db, t, m, rows);
    goal := if AllNew(db, m, rows) then CreateRows(sch, db, t, m, rows).value else db;
  }

  // ── Nested writes ─────────────────────────────────────────────────────────

  /** `x` and `y` are related by the one key that holds their relation, and nothing else changed. */
  ghost predicate Related(before: Db, after: Db, x: Key, r: Relation, y: Key) {
    after.Keys == before.Keys && forall k, c | k in before :: RelatedAt(before, after, x, r, y, k, c)
  }

  predicate RelatedAt(before: Db, after: Db, x: Key, r: Relation, y: Key, k: Key, c: Column)
    requires k in before && k in after
  {
    Get(after[k], c) ==
      if r.Own? && k == x && c == r.fk then Some(y.id)
      else if r.Back? && k == y && c == r.fk then Some(x.id)
      else Get(before[k], c)
  }

  lemma LinkRelates(sch: Schema, db: Db, x: Key, r: Relation, y: Key)
    requires x in db && y in db
    ensures Related(db, Link(sch, db, x, r, y), x, r, y)
  {
  }

  function Nesting(f: Field, op: Op): Payload {
    Payload("", map[], [Nested(f, op)])
  }

  lemma OneNestedRuns(sch: Schema, db: Db, t: Id, x: Key, f: Field, op: Op)
    requires x in db && f in RelationsOf(sch, x.model) && Target(sch, x.model, RelationsOf(sch, x.model)[f]).Some?
    ensures UpdateGuarded(sch, db, t, x, Nesting(f, op)) ==
            if Owner(sch, db, x) == Some(t) && RefsAllowed(sch, db, t, x.model, Nesting(f, op)) then
              Commit(sch, db, RunOp(sch, db, x, FillOp(sch, t, x.model, Nested(f, op))))
            else db
  {
    var p := Nesting(f, op);
    var q := Payload("", map[], FillNested(sch, t, x.model, p));
    assert Merge(db[x], p.cols) == db[x] && db[x := db[x]] == db;
    assert q.nested == [FillOp(sch, t, x.model, Nested(f, op))];
    var done := RunOp(sch, db, x, q.nested[0]);
    assert RunNested(sch, db, x, q, 0) == done by {
      if done.Some? {
        assert RunNested(sch, done.value, x, q, 1) == Some(done.value);
      }
    }
  }

  /** Updating a row with one nested `connect` relates it to the row named, and changes nothing if there is none. */
  lemma ConnectExactly(sch: Schema, db: Db, t: Id, x: Key, f: Field, u: Unique) returns (goal: Db)
    requires x in db && f in RelationsOf(sch, x.model) && Target(sch, x.model, RelationsOf(sch, x.model)[f]).Some?
    requires var n := Target(sch, x.model, RelationsOf(sch, x.model)[f]).value; NamesOne(db, n, u)
    ensures var n, r := Target(sch, x.model, RelationsOf(sch, x.model)[f]).value, RelationsOf(sch, x.model)[f];
            var named := set y | y in db && Names(db, n, u, y);
            && (forall y | y in named :: Related(db, goal, x, r, y))
            && UpdateGuarded(sch, db, t, x, Nesting(f, Connect(u))) ==
               if named != {} && Owner(sch, db, x) == Some(t) && RefsAllowed(sch, db, t, x.model, Nesting(f, Connect(u)))
                  && Constraints(sch, goal) then goal else db
  {
    var n, r := Target(sch, x.model, RelationsOf(sch, x.model)[f]).value, RelationsOf(sch, x.model)[f];
    OneNestedRuns(sch, db, t, x, f, Connect(u));
    FoundIsNamed(sch, db, t, n, u);
    var found := Find(db, n, u);
    if found.Some? {
      assert (set y | y in db && Names(db, n, u, y)) == {found.value};
      LinkRelates(sch, db, x, r, found.value);
      goal := Link(sch, db, x, r, found.value);
    } else {
      goal := db;
    }
  }

  /** A nested `create` makes the row it describes, with the tenant's id if directly owned, and relates the two. */
  lemma NestedCreateExactly(sch: Schema, db: Db, t: Id, x: Key, f: Field, c: Payload) returns (made: Db, goal: Db)
    requires x in db && f in RelationsOf(sch, x.model) && Target(sch, x.model, RelationsOf(sch, x.model)[f]).Some?
    requires c.nested == []
    ensures var r := RelationsOf(sch, x.model)[f];
            var y := Key(Target(sch, x.model, r).value, c.id);
            && (y !in db ==> Added(sch, db, made, t, y, c.cols) && Related(made, goal, x, r, y))
            && UpdateGuarded(sch, db, t, x, Nesting(f, Create(c))) ==
               if y !in db && Owner(sch, db, x) == Some(t) && RefsAllowed(sch, db, t, x.model, Nesting(f, Create(c)))
                  && Constraints(sch, goal) then goal else db
  {
    var r := RelationsOf(sch, x.model)[f];
    var n := Target(sch, x.model, r).value;
    OneNestedRuns(sch, db, t, x, f, Create(c));
    var y := Key(n, c.id);
    if y !in db {
      AnyRowAdded(sch, db, t, n, c);
      made := db[y := RowOf(Fill(sch, t, n, c).cols)];
      LinkRelates(sch, made, x, r, y);
      goal := Link(sch, made, x, r, y);
    } else {
      made, goal := db, db;
    }
  }

  lemma AnyRowAdded(sch: Schema, db: Db, t: Id, n: Model, c: Payload)
    requires c.nested == [] && Key(n, c.id) !in db
    ensures CreateRow(sch, db, n, Fill(sch, t, n, c)) == Some(db[Key(n, c.id) := RowOf(Fill(sch, t, n, c).cols)])
    ensures Added(sch, db, db[Key(n, c.id) := RowOf(Fill(sch, t, n, c).cols)], t, Key(n, c.id), c.cols)
  {
  }

  /** A nested `connectOrCreate` that passes connects to the row named, and creates one only if there is none. */
  lemma ConnectOrCreateExactly(sch: Schema, db: Db, t: Id, x: Key, f: Field, u: Unique, c: Payload)
    requires x in db && f in RelationsOf(sch, x.model) && Target(sch, x.model, RelationsOf(sch, x.model)[f]).Some?
    requires var n := Target(sch, x.model, RelationsOf(sch, x.model)[f]).value; NamesOne(db, n, u)
    requires RefsAllowed(sch, db, t, x.model, Nesting(f, ConnectOrCreate(u, c)))
    ensures var n := Target(sch, x.model, RelationsOf(sch, x.model)[f]).value;
            UpdateGuarded(sch, db, t, x, Nesting(f, ConnectOrCreate(u, c))) ==
            UpdateGuarded(sch, db, t, x, Nesting(f, if exists y :: Names(db, n, u, y) then Connect(u) else Create(c)))
  {
    var n := Target(sch, x.model, RelationsOf(sch, x.model)[f]).value;
    OneNestedRuns(sch, db, t, x, f, ConnectOrCreate(u, c));
    OneNestedRuns(sch, db, t, x, f, Connect(u));
    OneNestedRuns(sch, db, t, x, f, Create(c));
    FoundIsNamed(sch, db, t, n, u);
    assert NestedAllowed(sch, db, t, x.model, Nesting(f, ConnectOrCreate(u, c)).nested[0]);
  }

  /** Any other nested action on rows beyond the wall sets those rows and no other; none reaches a row behind it. */
  lemma TouchExactly(sch: Schema, db: Db, t: Id, x: Key, f: Field, rows: Db)
    requires x in db && f in RelationsOf(sch, x.model) && Target(sch, x.model, RelationsOf(sch, x.model)[f]).Some?
    ensures var beyond := !Walled(sch, Target(sch, x.model, RelationsOf(sch, x.model)[f]).value)
                          && forall k | k in rows :: !Walled(sch, k.model);
            UpdateGuarded(sch, db, t, x, Nesting(f, Touch(rows))) ==
            if beyond && Owner(sch, db, x) == Some(t) && RefsAllowed(sch, db, t, x.model, Nesting(f, Touch(rows)))
               && Constraints(sch, db + rows) then db + rows else db
  {
    OneNestedRuns(sch, db, t, x, f, Touch(rows));
  }

  // ── Payloads of any depth ─────────────────────────────────────────────────

  /** No row of a walled model loses a column that is no reference; rows are only added. */
  ghost predicate KeepsPlain(sch: Schema, before: Db, after: Db) {
    before.Keys <= after.Keys && forall k, c | k in before && Walled(sch, k.model) && c !in RefsOf(sch, k.model) ::
      SameAt(before, after, k, c)
  }

  predicate SameAt(before: Db, after: Db, k: Key, c: Column)
    requires k in before && k in after
  {
    Get(after[k], c) == Get(before[k], c)
  }

  lemma PlainTwice(sch: Schema, a: Db, b: Db, c: Db)
    requires KeepsPlain(sch, a, b) && KeepsPlain(sch, b, c)
    ensures KeepsPlain(sch, a, c)
  {
    forall k, col | k in a && Walled(sch, k.model) && col !in RefsOf(sch, k.model)
      ensures SameAt(a, c, k, col)
    {
      assert SameAt(a, b, k, col) && SameAt(b, c, k, col);
    }
  }

  lemma LinkKeepsPlain(sch: Schema, db: Db, x: Key, r: Relation, y: Key)
    requires WellFormed(sch) && x in db && y in db && IsRelation(sch, x.model, r) && Target(sch, x.model, r) == Some(y.model)
    ensures KeepsPlain(sch, db, Link(sch, db, x, r, y))
  {
  }

  predicate IsRelation(sch: Schema, m: Model, r: Relation) {
    match r
    case Own(fk) => fk in RefsOf(sch, m)
    case Back(from, fk) => fk in RefsOf(sch, from)
  }

  /** Every row that a payload creates, at any depth of creates, has the columns it is given that are no references. */
  ghost predicate Landed(sch: Schema, db: Db, m: Model, p: Payload)
    decreases p, 1
  {
    && (Walled(sch, m) ==> Key(m, p.id) in db && forall c | c in p.cols && c !in RefsOf(sch, m) ::
          Get(db[Key(m, p.id)], c) == p.cols[c])
    && LandedBelow(sch, db, m, p, 0)
  }

  ghost predicate LandedBelow(sch: Schema, db: Db, m: Model, p: Payload, from: nat)
    requires from <= |p.nested|
    decreases p, 0
  {
    forall i | from <= i < |p.nested| :: LandedAt(sch, db, m, p.nested[i])
  }

  ghost predicate LandedAt(sch: Schema, db: Db, m: Model, n: Nested)
    decreases n, 0
  {
    n.op.Create? && n.field in RelationsOf(sch, m) && Target(sch, m, RelationsOf(sch, m)[n.field]).Some? ==>
      Landed(sch, db, Target(sch, m, RelationsOf(sch, m)[n.field]).value, n.op.payload)
  }

  lemma {:induction false} StaysLanded(sch: Schema, before: Db, after: Db, m: Model, p: Payload)
    requires KeepsPlain(sch, before, after) && Landed(sch, before, m, p)
    ensures Landed(sch, after, m, p)
    decreases p
  {
    forall c | Walled(sch, m) && c in p.cols && c !in RefsOf(sch, m)
      ensures Get(after[Key(m, p.id)], c) == p.cols[c]
    {
      assert SameAt(before, after, Key(m, p.id), c);
    }
    forall i | 0 <= i < |p.nested|
      ensures LandedAt(sch, after, m, p.nested[i])
    {
      assert LandedAt(sch, before, m, p.nested[i]);
      StaysLandedAt(sch, before, after, m, p.nested[i]);
    }
  }

  lemma {:induction false} StaysLandedAt(sch: Schema, before: Db, after: Db, m: Model, n: Nested)
    requires KeepsPlain(sch, before, after) && LandedAt(sch, before, m, n)
    ensures LandedAt(sch, after, m, n)
    decreases n
  {
    if n.op.Create? && n.field in RelationsOf(sch, m) && Target(sch, m, RelationsOf(sch, m)[n.field]).Some? {
      StaysLanded(sch, before, after, Target(sch, m, RelationsOf(sch, m)[n.field]).value, n.op.payload);
    }
  }

  lemma {:induction false} CreateLands(sch: Schema, db: Db, m: Model, p: Payload, after: Db)
    requires WellFormed(sch) && CreateRow(sch, db, m, p) == Some(after)
    ensures KeepsPlain(sch, db, after) && Landed(sch, after, m, p)
    decreases p, 1
  {
    var k := Key(m, p.id);
    var start := db[k := RowOf(p.cols)];
    NestedLands(sch, start, k, p, 0, after);
    PlainTwice(sch, db, start, after);
    forall c | Walled(sch, m) && c in p.cols && c !in RefsOf(sch, m)
      ensures Get(after[k], c) == p.cols[c]
    {
      assert SameAt(start, after, k, c);
    }
  }

  lemma {:induction false} NestedLands(sch: Schema, db: Db, x: Key, p: Payload, i: nat, after: Db)
    requires WellFormed(sch) && x in db && i <= |p.nested| && RunNested(sch, db, x, p, i) == Some(after)
    ensures KeepsPlain(sch, db, after) && LandedBelow(sch, after, x.model, p, i)
    decreases p, 0, |p.nested| - i
  {
    if i < |p.nested| {
      var mid := RunOp(sch, db, x, p.nested[i]).value;
      OpLands(sch, db, x, p.nested[i], mid);
      NestedLands(sch, mid, x, p, i + 1, after);
      PlainTwice(sch, db, mid, after);
      StaysLandedAt(sch, mid, after, x.model, p.nested[i]);
    }
  }

  lemma {:induction false} OpLands(sch: Schema, db: Db, x: Key, n: Nested, after: Db)
    requires WellFormed(sch) && x in db && RunOp(sch, db, x, n) == Some(after)
    ensures KeepsPlain(sch, db, after) && LandedAt(sch, after, x.model, n)
    decreases n, 2
  {
    var r := RelationsOf(sch, x.model)[n.field];
    var m := Target(sch, x.model, r).value;
    match n.op
    case Connect(u) => LinkKeepsPlain(sch, db, x, r, Find(db, m, u).value);
    case Create(c) =>
      var mid := CreateRow(sch, db, m, c).value;
      CreateLands(sch, db, m, c, mid);
      LinkKeepsPlain(sch, mid, x, r, Key(m, c.id));
      PlainTwice(sch, db, mid, after);
      StaysLanded(sch, mid, after, m, c);
    case ConnectOrCreate(u, c) =>
      if Find(db, m, u).Some? {
        LinkKeepsPlain(sch, db, x, r, Find(db, m, u).value);
      } else {
        var mid := CreateRow(sch, db, m, c).value;
        CreateLands(sch, db, m, c, mid);
        LinkKeepsPlain(sch, mid, x, r, Key(m, c.id));
        PlainTwice(sch, db, mid, after);
      }
    case Touch(_) =>
  }

  /** The update took place: the row is the tenant's, the payload is allowed, and the database accepted it. */
  ghost predicate Updates(sch: Schema, db: Db, t: Id, x: Key, p: Payload)
    requires x in db
  {
    && Owner(sch, db, x) == Some(t) && RefsAllowed(sch, db, t, x.model, p)
    && var done := UpdateRow(sch, db, x, Payload(p.id, p.cols, FillNested(sch, t, x.model, p)));
       done.Some? && Constraints(sch, done.value)
  }

  /**
   * Whatever is nested in it, an update that takes place gives the row found every column of the
   * payload that is no reference, and every row created below its own; no other row of a walled model
   * has such a column changed.
   */
  lemma UpdateLands(sch: Schema, db: Db, t: Id, m: Model, at: Unique, p: Payload, x: Key)
    requires WellFormed(sch) && Walled(sch, m) && NamesOne(db, m, at) && Names(db, m, at, x)
    ensures var after := Guarded(sch, db, t, UpdateOne(m, at, p));
            if Updates(sch, db, t, x, p) then
              && KeepsPlain(sch, db[x := Merge(db[x], p.cols)], after) && x in after
              && (forall c | c in p.cols && c !in RefsOf(sch, m) :: Get(after[x], c) == p.cols[c])
              && LandedBelow(sch, after, m, Payload(p.id, p.cols, FillNested(sch, t, m, p)), 0)
            else after == db
  {
    FoundIsNamed(sch, db, t, m, at);
    if Updates(sch, db, t, x, p) {
      var q := Payload(p.id, p.cols, FillNested(sch, t, m, p));
      var start, after := db[x := Merge(db[x], p.cols)], UpdateRow(sch, db, x, q).value;
      NestedLands(sch, start, x, q, 0, after);
      forall c | c in p.cols && c !in RefsOf(sch, m)
        ensures Get(after[x], c) == p.cols[c]
      {
        assert SameAt(start, after, x, c);
        MergeGives(db[x], p.cols, c);
      }
    }
  }

  /** A create that takes place makes its row, and every row nested in it, with all such columns; others keep theirs. */
  lemma CreateOneLands(sch: Schema, db: Db, t: Id, m: Model, p: Payload)
    requires WellFormed(sch) && Walled(sch, m)
    ensures var done := CreateRow(sch, db, m, Fill(sch, t, m, p));
            var after := Guarded(sch, db, t, CreateOne(m, p));
            if CreateAllowed(sch, db, t, m, p) && done.Some? && Constraints(sch, done.value) then
              KeepsPlain(sch, db, after) && Landed(sch, after, m, Fill(sch, t, m, p))
            else after == db
  {
    var done := CreateRow(sch, db, m, Fill(sch, t, m, p));
    if done.Some? {
      CreateLands(sch, db, m, Fill(sch, t, m, p), done.value);
    }
  }

  // ── Deletions ─────────────────────────────────────────────────────────────

  /** `x` refers to `y` by a key with this rule. */
  predicate Depends(sch: Schema, db: Db, x: Key, y: Key, fk: Column, how: OnDelete) {
    RefersTo(sch, db, x, fk, y) && RefsOf(sch, x.model)[fk].onDelete == how
  }

  /** The roots and all that cascades from what is in the set. */
  ghost predicate ClosedUnderCascade(sch: Schema, db: Db, roots: set<Key>, s: set<Key>) {
    roots <= s && forall x, y, fk | y in s && Depends(sch, db, x, y, fk, Cascade) :: x in s
  }

  ghost predicate LeastClosed(sch: Schema, db: Db, roots: set<Key>, gone: set<Key>) {
    && ClosedUnderCascade(sch, db, roots, gone)
    && forall s: set<Key> | ClosedUnderCascade(sch, db, roots, s) :: gone <= s
  }

  /** What goes is gone, and what refers to it by a key that is cleared has the key cleared; nothing else changes. */
  ghost predicate Removed(sch: Schema, before: Db, after: Db, gone: set<Key>) {
    && after.Keys == before.Keys - gone
    && forall k, c | k in after :: Get(after[k], c) == if KeyCleared(sch, before, gone, k, c) then None else Get(before[k], c)
  }

  ghost predicate KeyCleared(sch: Schema, db: Db, gone: set<Key>, k: Key, c: Column) {
    exists y :: y in gone && Depends(sch, db, k, y, c, SetNull)
  }

  /** A row that stays forbids it. */
  ghost predicate Forbidden(sch: Schema, db: Db, gone: set<Key>) {
    exists x, y, fk :: x !in gone && y in gone && Depends(sch, db, x, y, fk, Restrict)
  }

  lemma {:induction false} DoomedIsClosed(sch: Schema, db: Db, roots: set<Key>, s: set<Key>, path: seq<Key>)
    requires ClosedUnderCascade(sch, db, roots, s) && path != [] && path[0] in roots && CascadePath(sch, db, path)
    ensures path[|path| - 1] in s
    decreases |path|
  {
    if |path| > 1 {
      var front := path[..|path| - 1];
      assert ActsOn(sch, db, path[|front| - 1 + 1], path[|front| - 1], Cascade);
      DoomedIsClosed(sch, db, roots, s, front);
      var fk :| RefersTo(sch, db, path[|path| - 1], fk, path[|path| - 2]) && RefsOf(sch, path[|path| - 1].model)[fk].onDelete == Cascade;
      assert Depends(sch, db, path[|path| - 1], path[|path| - 2], fk, Cascade);
    }
  }

  lemma DoomedGoesOn(sch: Schema, db: Db, roots: set<Key>, x: Key, y: Key, fk: Column)
    requires Doomed(sch, db, roots, y) && Depends(sch, db, x, y, fk, Cascade)
    ensures Doomed(sch, db, roots, x)
  {
    var path :| DoomedBy(sch, db, roots, y, path);
    assert ActsOn(sch, db, x, y, Cascade);
    assert (path + [x])[..|path|] == path;
    assert DoomedBy(sch, db, roots, x, path + [x]);
  }

  lemma DoomedAreInDb(sch: Schema, db: Db, roots: set<Key>)
    requires roots <= db.Keys
    ensures forall y | Doomed(sch, db, roots, y) :: y in db
  {
    forall y | Doomed(sch, db, roots, y)
      ensures y in db
    {
      var path :| DoomedBy(sch, db, roots, y, path);
      if |path| > 1 {
        assert ActsOn(sch, db, path[|path| - 2 + 1], path[|path| - 2], Cascade);
      }
    }
  }

  lemma DoomedIsLeastClosed(sch: Schema, db: Db, roots: set<Key>) returns (gone: set<Key>)
    requires roots <= db.Keys
    ensures LeastClosed(sch, db, roots, gone) && gone <= db.Keys
    ensures forall y :: y in gone <==> Doomed(sch, db, roots, y)
  {
    DoomedAreInDb(sch, db, roots);
    gone := set y | y in db && Doomed(sch, db, roots, y);
    forall r | r in roots
      ensures r in gone
    {
      assert DoomedBy(sch, db, roots, r, [r]);
    }
    forall x, y, fk | y in gone && Depends(sch, db, x, y, fk, Cascade)
      ensures x in gone
    {
      DoomedGoesOn(sch, db, roots, x, y, fk);
    }
    forall s: set<Key> | ClosedUnderCascade(sch, db, roots, s)
      ensures gone <= s
    {
      forall y | y in gone
        ensures y in s
      {
        var path :| DoomedBy(sch, db, roots, y, path);
        DoomedIsClosed(sch, db, roots, s, path);
      }
    }
  }

  lemma CutClears(sch: Schema, db: Db, roots: set<Key>, gone: set<Key>, k: Key, c: Column)
    requires k in db && gone <= db.Keys && forall y :: y in gone <==> Doomed(sch, db, roots, y)
    ensures Get(Cut(sch, db, roots, k), c) == if KeyCleared(sch, db, gone, k, c) then None else Get(db[k], c)
  {
    if c in db[k] && Cleared(sch, db, roots, k, c) {
      var y := Key(RefsOf(sch, k.model)[c].target, db[k][c]);
      assert y in gone && Depends(sch, db, k, y, c, SetNull);
    }
  }

  /** A deletion of these roots as the database makes it. */
  lemma DeletionExactly(sch: Schema, db: Db, roots: set<Key>) returns (gone: set<Key>, goal: Db)
    requires roots <= db.Keys
    ensures LeastClosed(sch, db, roots, gone) && Removed(sch, db, goal, gone)
    ensures Commit(sch, db, DeleteRows(sch, db, roots)) ==
            if !Forbidden(sch, db, gone) && Constraints(sch, goal) then goal else db
  {
    gone := DoomedIsLeastClosed(sch, db, roots);
    goal := map y | y in db && !Doomed(sch, db, roots, y) :: Cut(sch, db, roots, y);
    forall k, c | k in goal
      ensures Get(goal[k], c) == if KeyCleared(sch, db, gone, k, c) then None else Get(db[k], c)
    {
      CutClears(sch, db, roots, gone, k, c);
    }
    ForbiddenIsRestricted(sch, db, roots, gone);
  }

  lemma ForbiddenIsRestricted(sch: Schema, db: Db, roots: set<Key>, gone: set<Key>)
    requires forall y :: y in gone <==> Doomed(sch, db, roots, y)
    ensures Forbidden(sch, db, gone) <==>
            exists y, d :: !Doomed(sch, db, roots, y) && Doomed(sch, db, roots, d) && ActsOn(sch, db, y, d, Restrict)
  {
    if Forbidden(sch, db, gone) {
      var x, y, fk :| x !in gone && y in gone && Depends(sch, db, x, y, fk, Restrict);
      assert ActsOn(sch, db, x, y, Restrict);
    }
    if exists y, d :: !Doomed(sch, db, roots, y) && Doomed(sch, db, roots, d) && ActsOn(sch, db, y, d, Restrict) {
      var y, d :| !Doomed(sch, db, roots, y) && Doomed(sch, db, roots, d) && ActsOn(sch, db, y, d, Restrict);
      var fk :| RefersTo(sch, db, y, fk, d) && RefsOf(sch, y.model)[fk].onDelete == Restrict;
      assert Depends(sch, db, y, d, fk, Restrict);
    }
  }

  lemma NothingGone(sch: Schema, db: Db, gone: set<Key>, goal: Db)
    requires LeastClosed(sch, db, {}, gone) && Removed(sch, db, goal, gone)
    ensures goal == db
  {
    assert ClosedUnderCascade(sch, db, {}, {});
    assert gone == {};
    forall k | k in db
      ensures goal[k] == db[k]
    {
      assert forall c :: Get(goal[k], c) == Get(db[k], c);
      SameRow(goal[k], db[k]);
    }
  }

  lemma SameRow(a: Row, b: Row)
    requires forall c :: Get(a, c) == Get(b, c)
    ensures a == b
  {
    assert forall c :: c in a <==> Get(a, c).Some?;
    assert forall c :: c in b <==> Get(b, c).Some?;
    assert forall c | c in a :: a[c] == Get(a, c).value == Get(b, c).value == b[c];
  }

  /**
   * A bulk deletion removes exactly the tenant's own rows that match the caller's filter and what
   * cascades from them, unless a row that stays forbids it.
   */
  lemma DeleteManyExactly(sch: Schema, db: Db, t: Id, m: Model, w: TenantReads.Where) returns (gone: set<Key>, goal: Db)
    requires WellFormed(sch) && Walled(sch, m)
    ensures LeastClosed(sch, db, Chosen(sch, db, t, m, w), gone) && Removed(sch, db, goal, gone)
    ensures Guarded(sch, db, t, DeleteMany(m, w)) ==
            if !Forbidden(sch, db, gone) && Constraints(sch, goal) then goal else db
  {
    SelectedAreChosen(sch, db, t, m, w);
    gone, goal := DeletionExactly(sch, db, Chosen(sch, db, t, m, w));
  }

  /** A deletion by a unique `where`: the same of the one row of the tenant it names. */
  lemma DeleteOneExactly(sch: Schema, db: Db, t: Id, m: Model, at: Unique) returns (gone: set<Key>, goal: Db)
    requires Walled(sch, m) && NamesOne(db, m, at)
    ensures LeastClosed(sch, db, Named(sch, db, t, m, at), gone) && Removed(sch, db, goal, gone)
    ensures Guarded(sch, db, t, DeleteOne(m, at)) ==
            if !Forbidden(sch, db, gone) && Constraints(sch, goal) then goal else db
  {
    FoundIsNamed(sch, db, t, m, at);
    gone, goal := DeletionExactly(sch, db, Named(sch, db, t, m, at));
    if Named(sch, db, t, m, at) == {} {
      NothingGone(sch, db, gone, goal);
    }
  }
}
