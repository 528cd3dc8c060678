/**
 * Reads behind the wall. The guard adds an owner filter to the root of a query and leaves its
 * relation filters and includes alone; these lemmas say when that is enough.
 */
module TenantReads {
  import opened Wrappers
  import opened TenantData

  /** A `where` argument; `All` is the missing or empty one. */
  datatype Where =
    | All
    | Col(column: Column, accepts: Option<string> -> bool)
    | IdIs(id: Id)
    | And(left: Where, right: Where)
    | Or(left: Where, right: Where)
    | Not(inner: Where)
    | Related(field: Field, inner: Where)

  /** One `include`: a relation to follow, a filter on the related rows, and what to include below them. */
  datatype Include = Include(field: Field, filter: Where, below: seq<Include>)

  datatype Step = Step(field: Field, row: Key)

  ghost predicate Matches(sch: Schema, db: Db, w: Where, x: Key)
    decreases w
  {
    x in db &&
    match w
    case All => true
    case Col(c, accepts) => accepts(Get(db[x], c))
    case IdIs(id) => x.id == id
    case And(a, b) => Matches(sch, db, a, x) && Matches(sch, db, b, x)
    case Or(a, b) => Matches(sch, db, a, x) || Matches(sch, db, b, x)
    case Not(a) => !Matches(sch, db, a, x)
    case Related(f, a) => exists y :: Linked(sch, db, x, f, y) && Matches(sch, db, a, y)
  }

  ghost function Selected(sch: Schema, db: Db, m: Model, w: Where): set<Key> {
    set x | x in db && x.model == m && Matches(sch, db, w, x)
  }

  /** The answer to a query shows, under root `x`, the row at the end of this path. */
  ghost predicate Shows(sch: Schema, db: Db, x: Key, includes: seq<Include>, path: seq<Step>)
    decreases |path|
  {
    path == [] ||
    exists i :: 0 <= i < |includes| && ShowsVia(sch, db, x, includes[i], path)
  }

  ghost predicate ShowsVia(sch: Schema, db: Db, x: Key, inc: Include, path: seq<Step>)
    requires path != []
    decreases |path|, 0
  {
    && inc.field == path[0].field
    && Linked(sch, db, x, inc.field, path[0].row)
    && Matches(sch, db, inc.filter, path[0].row)
    && Shows(sch, db, path[0].row, inc.below, path[1..])
  }

  // ── What the guard does to a read ─────────────────────────────────────────

  function ScopeFilter(sch: Schema, m: Model, t: Id): Where {
    match KindOf(sch, m)
    case TenantModel => IdIs(t)
    case ViaParent(_, relation, _) => Related(relation, Col(TenantId, v => v == Some(t)))
    case _ => Col(TenantId, v => v == Some(t))
  }

  function MergeWhere(existing: Where, scope: Where): Where {
    if existing.All? then scope else And(existing, scope)
  }

  /** A find, count, aggregate or bulk write by tenant `t`: the rows it reaches. */
  ghost function GuardedSelect(sch: Schema, db: Db, t: Id, m: Model, w: Where): set<Key> {
    if KindOf(sch, m).PlatformOnly? then {} else Selected(sch, db, m, MergeWhere(w, ScopeFilter(sch, m, t)))
  }

  /** The row a unique read fetched, looked at afterwards: handed back only to its owner. */
  ghost function GuardedUnique(sch: Schema, db: Db, t: Id, fetched: Option<Key>): Option<Key> {
    match fetched
    case None => None
    case Some(x) => if Owner(sch, db, x) == Some(t) then fetched else None
  }

  /** The database as the wall means tenant `t` to see it: every other tenant's rows taken out. */
  ghost function Restriction(sch: Schema, db: Db, t: Id): Db {
    map k | k in db && !Foreign(Owner(sch, db, k), t) :: db[k]
  }

  /** The caller's own query on the restricted database, kept to rows the caller owns. */
  ghost function OwnSelect(sch: Schema, db: Db, t: Id, m: Model, w: Where): set<Key> {
    var seen := Restriction(sch, db, t);
    set x | x in Selected(sch, seen, m, w) && Owner(sch, seen, x) == Some(t)
  }

  /** The guarded query selects what `OwnSelect` does, and shows below each row what the restriction shows. */
  ghost predicate QueryRefines(sch: Schema, db: Db, t: Id, m: Model, w: Where, includes: seq<Include>) {
    && GuardedSelect(sch, db, t, m, w) == OwnSelect(sch, db, t, m, w)
    && forall x, path | x in GuardedSelect(sch, db, t, m, w) ::
         Shows(sch, db, x, includes, path) <==> Shows(sch, Restriction(sch, db, t), x, includes, path)
  }

  lemma ScopeMeansOwned(sch: Schema, db: Db, t: Id, x: Key)
    requires WellFormed(sch) && Walled(sch, x.model) && x in db
    ensures Matches(sch, db, ScopeFilter(sch, x.model, t), x) <==> Owner(sch, db, x) == Some(t)
  {
    match KindOf(sch, x.model)
    case ViaParent(fk, relation, parent) =>
      if Owner(sch, db, x) == Some(t) {
        var y := Key(parent, db[x][fk]);
        assert Linked(sch, db, x, relation, y);
        assert Matches(sch, db, ScopeFilter(sch, x.model, t).inner, y);
      }
    case _ =>
  }

  lemma RestrictionKeepsOwner(sch: Schema, db: Db, t: Id, x: Key)
    requires Constraints(sch, db) && WellFormed(sch)
    requires x in Restriction(sch, db, t)
    ensures Owner(sch, Restriction(sch, db, t), x) == Owner(sch, db, x)
  {
    var seen := Restriction(sch, db, t);
    match KindOf(sch, x.model)
    case ViaParent(fk, _, parent) =>
      if fk in db[x] && Key(parent, db[x][fk]) in db {
        var y := Key(parent, db[x][fk]);
        assert Owner(sch, db, x) == Get(db[y], TenantId) == Owner(sch, db, y);
        assert y in seen;
      }
    case _ =>
  }

  // ── Queries that stay inside on every database ────────────────────────────

  /**
   * No relation of the query is followed from a row that may be ownerless. `owned` says that the
   * row at hand certainly has an owner (the root always does: the guard filtered it).
   */
  ghost predicate Confined(sch: Schema, m: Model, owned: bool, w: Where)
    decreases w
  {
    match w
    case And(a, b) => Confined(sch, m, owned, a) && Confined(sch, m, owned, b)
    case Or(a, b) => Confined(sch, m, owned, a) && Confined(sch, m, owned, b)
    case Not(a) => Confined(sch, m, owned, a)
    case Related(f, a) =>
      owned && forall n | f in RelationsOf(sch, m) && Target(sch, m, RelationsOf(sch, m)[f]) == Some(n) ::
        Confined(sch, n, n in sch.owned, a)
    case _ => true
  }

  ghost predicate ConfinedIncludes(sch: Schema, m: Model, owned: bool, includes: seq<Include>)
  {
    forall i | 0 <= i < |includes| :: ConfinedInclude(sch, m, owned, includes[i])
  }

  ghost predicate ConfinedInclude(sch: Schema, m: Model, owned: bool, inc: Include)
    decreases inc
  {
    owned && forall n | inc.field in RelationsOf(sch, m) && Target(sch, m, RelationsOf(sch, m)[inc.field]) == Some(n) ::
      && Confined(sch, n, n in sch.owned, inc.filter)
      && forall i | 0 <= i < |inc.below| :: ConfinedInclude(sch, n, n in sch.owned, inc.below[i])
  }

  /** Rows whose every relation leads to a row that tenant `t` is meant to see. */
  ghost predicate Sheltered(sch: Schema, db: Db, t: Id, x: Key) {
    forall f, y | Linked(sch, db, x, f, y) :: !Foreign(Owner(sch, db, y), t)
  }

  lemma LinkedInRestriction(sch: Schema, db: Db, t: Id, x: Key, f: Field, y: Key)
    requires x in Restriction(sch, db, t)
    ensures Linked(sch, Restriction(sch, db, t), x, f, y) <==>
            Linked(sch, db, x, f, y) && !Foreign(Owner(sch, db, y), t)
  {
  }

  lemma LinkedTarget(sch: Schema, db: Db, x: Key, f: Field, y: Key)
    requires Linked(sch, db, x, f, y)
    ensures Target(sch, x.model, RelationsOf(sch, x.model)[f]) == Some(y.model)
  {
  }

  lemma OwnedRowsAreSheltered(sch: Schema, db: Db, t: Id, x: Key)
    requires Sealed(sch, db) && Owner(sch, db, x) == Some(t)
    ensures Sheltered(sch, db, t, x)
  {
    forall f, y | Linked(sch, db, x, f, y)
      ensures !Foreign(Owner(sch, db, y), t)
    {
      LinkedStaysInside(sch, db, x, f, y, t);
    }
  }

  /** A row of an always-owned model that `t` is meant to see is `t`'s own. */
  lemma VisibleOwned(sch: Schema, db: Db, t: Id, y: Key)
    requires Constraints(sch, db) && y in db && !Foreign(Owner(sch, db, y), t)
    ensures y.model in sch.owned ==> Owner(sch, db, y) == Some(t)
  {
  }

  lemma {:induction false} ConfinedFilterAgrees(sch: Schema, db: Db, t: Id, owned: bool, w: Where, x: Key)
    requires Good(sch, db)
    requires x in Restriction(sch, db, t)
    requires owned ==> Owner(sch, db, x) == Some(t)
    requires Confined(sch, x.model, owned, w)
    ensures Matches(sch, db, w, x) <==> Matches(sch, Restriction(sch, db, t), w, x)
    decreases w
  {
    var seen := Restriction(sch, db, t);
    match w
    case And(a, b) =>
      ConfinedFilterAgrees(sch, db, t, owned, a, x);
      ConfinedFilterAgrees(sch, db, t, owned, b, x);
    case Or(a, b) =>
      ConfinedFilterAgrees(sch, db, t, owned, a, x);
      ConfinedFilterAgrees(sch, db, t, owned, b, x);
    case Not(a) => ConfinedFilterAgrees(sch, db, t, owned, a, x);
    case Related(f, a) =>
      OwnedRowsAreSheltered(sch, db, t, x);
      forall y
        ensures Linked(sch, db, x, f, y) && Matches(sch, db, a, y) <==>
                Linked(sch, seen, x, f, y) && Matches(sch, seen, a, y)
      {
        LinkedInRestriction(sch, db, t, x, f, y);
        if Linked(sch, db, x, f, y) {
          LinkedTarget(sch, db, x, f, y);
          VisibleOwned(sch, db, t, y);
          ConfinedFilterAgrees(sch, db, t, y.model in sch.owned, a, y);
        }
      }
    case _ =>
  }

  lemma {:induction false} ConfinedIncludesAgree(
    sch: Schema, db: Db, t: Id, owned: bool, includes: seq<Include>, x: Key, path: seq<Step>)
    requires Good(sch, db)
    requires x in Restriction(sch, db, t)
    requires owned ==> Owner(sch, db, x) == Some(t)
    requires ConfinedIncludes(sch, x.model, owned, includes)
    ensures Shows(sch, db, x, includes, path) <==> Shows(sch, Restriction(sch, db, t), x, includes, path)
    decreases |path|
  {
    var seen := Restriction(sch, db, t);
    if path != [] {
      forall i | 0 <= i < |includes|
        ensures ShowsVia(sch, db, x, includes[i], path) <==> ShowsVia(sch, seen, x, includes[i], path)
      {
        var inc, y := includes[i], path[0].row;
        assert ConfinedInclude(sch, x.model, owned, inc);
        OwnedRowsAreSheltered(sch, db, t, x);
        LinkedInRestriction(sch, db, t, x, inc.field, y);
        if Linked(sch, db, x, inc.field, y) {
          LinkedTarget(sch, db, x, inc.field, y);
          VisibleOwned(sch, db, t, y);
          ConfinedFilterAgrees(sch, db, t, y.model in sch.owned, inc.filter, y);
          ConfinedIncludesAgree(sch, db, t, y.model in sch.owned, inc.below, y, path[1..]);
        }
      }
    }
  }

  lemma GuardedSelectIs(sch: Schema, db: Db, t: Id, m: Model, w: Where, x: Key)
    requires WellFormed(sch) && Walled(sch, m)
    ensures x in GuardedSelect(sch, db, t, m, w)
            <==> x in db && x.model == m && Matches(sch, db, w, x) && Owner(sch, db, x) == Some(t)
  {
    if x in db && x.model == m {
      ScopeMeansOwned(sch, db, t, x);
    }
  }

  lemma OwnSelectIs(sch: Schema, db: Db, t: Id, m: Model, w: Where, x: Key)
    requires WellFormed(sch) && Constraints(sch, db)
    ensures x in OwnSelect(sch, db, t, m, w)
            <==> x in Restriction(sch, db, t) && x.model == m && Matches(sch, Restriction(sch, db, t), w, x)
                 && Owner(sch, db, x) == Some(t)
  {
    if x in Restriction(sch, db, t) {
      RestrictionKeepsOwner(sch, db, t, x);
    }
  }

  lemma OwnedIsKept(sch: Schema, db: Db, t: Id, x: Key)
    requires Owner(sch, db, x) == Some(t)
    ensures x in Restriction(sch, db, t)
  {
  }

  lemma ConfinedRoot(sch: Schema, db: Db, t: Id, m: Model, w: Where, x: Key)
    requires WellFormed(sch) && Good(sch, db) && Walled(sch, m) && Confined(sch, m, true, w)
    ensures x in GuardedSelect(sch, db, t, m, w) <==> x in OwnSelect(sch, db, t, m, w)
    ensures x in GuardedSelect(sch, db, t, m, w) ==> x in Restriction(sch, db, t) && x.model == m && Owner(sch, db, x) == Some(t)
  {
    GuardedSelectIs(sch, db, t, m, w, x);
    OwnSelectIs(sch, db, t, m, w, x);
    if Owner(sch, db, x) == Some(t) && x.model == m {
      OwnedIsKept(sch, db, t, x);
      ConfinedFilterAgrees(sch, db, t, true, w, x);
    }
  }

  /**
   * Guarded reads refine unguarded ones: on every database that keeps the invariant, a confined
   * query by `t` selects the rows its own query selects once every other tenant's rows are gone,
   * kept to `t`'s rows, and shows below each the same related rows.
   */
  lemma GuardedReadRefines(sch: Schema, db: Db, t: Id, m: Model, w: Where, includes: seq<Include>)
    requires WellFormed(sch) && Good(sch, db) && Walled(sch, m)
    requires Confined(sch, m, true, w) && ConfinedIncludes(sch, m, true, includes)
    ensures QueryRefines(sch, db, t, m, w, includes)
  {
    forall x
      ensures x in GuardedSelect(sch, db, t, m, w) <==> x in OwnSelect(sch, db, t, m, w)
    {
      ConfinedRoot(sch, db, t, m, w, x);
    }
    forall x, path | x in GuardedSelect(sch, db, t, m, w)
      ensures Shows(sch, db, x, includes, path) <==> Shows(sch, Restriction(sch, db, t), x, includes, path)
    {
      ConfinedRoot(sch, db, t, m, w, x);
      ConfinedIncludesAgree(sch, db, t, true, includes, x, path);
    }
  }

  /** A unique `where` names at most one row. */
  ghost predicate AtMostOne(sch: Schema, db: Db, m: Model, w: Where) {
    forall x, y | x in Selected(sch, db, m, w) && y in Selected(sch, db, m, w) :: x == y
  }

  /** The row a unique read fetches, whoever owns it. */
  ghost function Fetch(sch: Schema, db: Db, m: Model, w: Where): Option<Key> {
    if exists x :: x in Selected(sch, db, m, w) then
      var x :| x in Selected(sch, db, m, w); Some(x)
    else None
  }

  /** A unique read hands back what `OwnSelect` has, and shows below it what the restriction shows. */
  ghost predicate UniqueRefines(sch: Schema, db: Db, t: Id, m: Model, w: Where, includes: seq<Include>) {
    var handed := GuardedUnique(sch, db, t, Fetch(sch, db, m, w));
    && (forall x :: x in OwnSelect(sch, db, t, m, w) <==> handed == Some(x))
    && (handed.Some? ==> forall path ::
         Shows(sch, db, handed.value, includes, path) <==> Shows(sch, Restriction(sch, db, t), handed.value, includes, path))
  }

  /** Checking the owner afterwards comes to the same as filtering by it beforehand. */
  lemma UniqueIsSelected(sch: Schema, db: Db, t: Id, m: Model, w: Where, x: Key)
    requires WellFormed(sch) && Walled(sch, m) && AtMostOne(sch, db, m, w)
    ensures GuardedUnique(sch, db, t, Fetch(sch, db, m, w)) == Some(x) <==> x in GuardedSelect(sch, db, t, m, w)
  {
    GuardedSelectIs(sch, db, t, m, w, x);
    assert x in db && x.model == m && Matches(sch, db, w, x) <==> x in Selected(sch, db, m, w);
  }

  lemma UniqueFollows(sch: Schema, db: Db, t: Id, m: Model, w: Where, includes: seq<Include>)
    requires WellFormed(sch) && Walled(sch, m) && AtMostOne(sch, db, m, w)
    requires QueryRefines(sch, db, t, m, w, includes)
    ensures UniqueRefines(sch, db, t, m, w, includes)
  {
    var handed := GuardedUnique(sch, db, t, Fetch(sch, db, m, w));
    forall x
      ensures x in OwnSelect(sch, db, t, m, w) <==> handed == Some(x)
    {
      UniqueIsSelected(sch, db, t, m, w, x);
    }
    if handed.Some? {
      UniqueIsSelected(sch, db, t, m, w, handed.value);
    }
  }

  /**
   * A unique read, by whatever unique columns and with whatever includes, answers like the same
   * read on the restricted database, kept to the caller's rows.
   */
  lemma GuardedUniqueRefines(sch: Schema, db: Db, t: Id, m: Model, w: Where, includes: seq<Include>)
    requires WellFormed(sch) && Good(sch, db) && Walled(sch, m) && AtMostOne(sch, db, m, w)
    requires Confined(sch, m, true, w) && ConfinedIncludes(sch, m, true, includes)
    ensures UniqueRefines(sch, db, t, m, w, includes)
  {
    GuardedReadRefines(sch, db, t, m, w, includes);
    UniqueFollows(sch, db, t, m, w, includes);
  }

  // ── Every query, on one database ──────────────────────────────────────────

  /** The rows met by following relations from `x`, each step a related row of the one before. */
  ghost predicate Walk(sch: Schema, db: Db, x: Key, path: seq<Step>)
    decreases |path|
  {
    path == [] || (Linked(sch, db, x, path[0].field, path[0].row) && Walk(sch, db, path[0].row, path[1..]))
  }

  function End(x: Key, path: seq<Step>): Key {
    if path == [] then x else path[|path| - 1].row
  }

  /** No walk from a row of `t` reaches another tenant's row (through ownerless rows, say). */
  ghost predicate NoBridge(sch: Schema, db: Db, t: Id) {
    forall x, path | Owner(sch, db, x) == Some(t) && Walk(sch, db, x, path) ::
      !Foreign(Owner(sch, db, End(x, path)), t)
  }

  ghost predicate ReadsRefine(sch: Schema, db: Db, t: Id) {
    forall m, w, includes | Walled(sch, m) :: QueryRefines(sch, db, t, m, w, includes)
  }

  ghost predicate UniqueReadsRefine(sch: Schema, db: Db, t: Id) {
    forall m, w, includes | Walled(sch, m) && AtMostOne(sch, db, m, w) :: UniqueRefines(sch, db, t, m, w, includes)
  }

  ghost predicate Reached(sch: Schema, db: Db, t: Id, y: Key) {
    exists x, path :: Owner(sch, db, x) == Some(t) && Walk(sch, db, x, path) && End(x, path) == y
  }

  lemma {:induction false} WalkOn(sch: Schema, db: Db, x: Key, path: seq<Step>, f: Field, y: Key)
    requires Walk(sch, db, x, path) && Linked(sch, db, End(x, path), f, y)
    ensures Walk(sch, db, x, path + [Step(f, y)])
    ensures End(x, path + [Step(f, y)]) == y
    decreases |path|
  {
    if path != [] {
      WalkOn(sch, db, path[0].row, path[1..], f, y);
      assert (path + [Step(f, y)])[1..] == path[1..] + [Step(f, y)];
    } else {
      assert ([Step(f, y)])[1..] == [];
    }
  }

  lemma ReachedRowsAreSheltered(sch: Schema, db: Db, t: Id, x: Key)
    requires NoBridge(sch, db, t) && Reached(sch, db, t, x)
    ensures Sheltered(sch, db, t, x)
    ensures forall f, y | Linked(sch, db, x, f, y) :: Reached(sch, db, t, y)
  {
    var from, path :| Owner(sch, db, from) == Some(t) && Walk(sch, db, from, path) && End(from, path) == x;
    forall f, y | Linked(sch, db, x, f, y)
      ensures !Foreign(Owner(sch, db, y), t) && Reached(sch, db, t, y)
    {
      WalkOn(sch, db, from, path, f, y);
    }
  }

  lemma {:induction false} ReachedFilterAgrees(sch: Schema, db: Db, t: Id, w: Where, x: Key)
    requires NoBridge(sch, db, t)
    requires x in Restriction(sch, db, t) && Reached(sch, db, t, x)
    ensures Matches(sch, db, w, x) <==> Matches(sch, Restriction(sch, db, t), w, x)
    decreases w
  {
    var seen := Restriction(sch, db, t);
    match w
    case And(a, b) =>
      ReachedFilterAgrees(sch, db, t, a, x);
      ReachedFilterAgrees(sch, db, t, b, x);
    case Or(a, b) =>
      ReachedFilterAgrees(sch, db, t, a, x);
      ReachedFilterAgrees(sch, db, t, b, x);
    case Not(a) => ReachedFilterAgrees(sch, db, t, a, x);
    case Related(f, a) =>
      ReachedRowsAreSheltered(sch, db, t, x);
      forall y
        ensures Linked(sch, db, x, f, y) && Matches(sch, db, a, y) <==>
                Linked(sch, seen, x, f, y) && Matches(sch, seen, a, y)
      {
        LinkedInRestriction(sch, db, t, x, f, y);
        if Linked(sch, db, x, f, y) {
          ReachedFilterAgrees(sch, db, t, a, y);
        }
      }
    case _ =>
  }

  lemma {:induction false} ReachedIncludesAgree(
    sch: Schema, db: Db, t: Id, includes: seq<Include>, x: Key, path: seq<Step>)
    requires NoBridge(sch, db, t)
    requires x in Restriction(sch, db, t) && Reached(sch, db, t, x)
    ensures Shows(sch, db, x, includes, path) <==> Shows(sch, Restriction(sch, db, t), x, includes, path)
    decreases |path|
  {
    var seen := Restriction(sch, db, t);
    if path != [] {
      forall i | 0 <= i < |includes|
        ensures ShowsVia(sch, db, x, includes[i], path) <==> ShowsVia(sch, seen, x, includes[i], path)
      {
        var inc, y := includes[i], path[0].row;
        ReachedRowsAreSheltered(sch, db, t, x);
        LinkedInRestriction(sch, db, t, x, inc.field, y);
        if Linked(sch, db, x, inc.field, y) {
          ReachedFilterAgrees(sch, db, t, inc.filter, y);
          ReachedIncludesAgree(sch, db, t, inc.below, y, path[1..]);
        }
      }
    }
  }

  /** The includes that ask for exactly the relations of a path. */
  ghost function Along(path: seq<Step>): seq<Include>
    decreases |path|
  {
    if path == [] then [] else [Include(path[0].field, All, Along(path[1..]))]
  }

  lemma {:induction false} AlongShowsWalk(sch: Schema, db: Db, x: Key, path: seq<Step>)
    requires Walk(sch, db, x, path)
    ensures Shows(sch, db, x, Along(path), path)
    decreases |path|
  {
    if path != [] {
      AlongShowsWalk(sch, db, path[0].row, path[1..]);
      assert ShowsVia(sch, db, x, Along(path)[0], path);
    }
  }

  lemma {:induction false} ShownRowsExist(sch: Schema, db: Db, x: Key, includes: seq<Include>, path: seq<Step>)
    requires Shows(sch, db, x, includes, path) && path != []
    ensures End(x, path) in db
    decreases |path|
  {
    var i :| 0 <= i < |includes| && ShowsVia(sch, db, x, includes[i], path);
    if |path| > 1 {
      ShownRowsExist(sch, db, path[0].row, includes[i].below, path[1..]);
    }
  }

  /**
   * Without the confinement condition the refinement holds on a database exactly when no other
   * tenant's row can be walked to from a row of `t`. (The invariant alone does not give that: a
   * walk may leave through an ownerless row, which any tenant's rows may refer to.)
   */
  lemma ReadsRefineExactlyWithoutBridges(sch: Schema, db: Db, t: Id)
    requires WellFormed(sch) && Good(sch, db)
    ensures ReadsRefine(sch, db, t) <==> NoBridge(sch, db, t)
  {
    if NoBridge(sch, db, t) {
      forall m, w, includes | Walled(sch, m)
        ensures QueryRefines(sch, db, t, m, w, includes)
      {
        NoBridgeRefines(sch, db, t, m, w, includes);
      }
    }
    if ReadsRefine(sch, db, t) {
      forall x, path | Owner(sch, db, x) == Some(t) && Walk(sch, db, x, path)
        ensures !Foreign(Owner(sch, db, End(x, path)), t)
      {
        GuardedSelectIs(sch, db, t, x.model, All, x);
        assert x in GuardedSelect(sch, db, t, x.model, All);
        assert QueryRefines(sch, db, t, x.model, All, Along(path));
        ShownWalkStaysInside(sch, db, t, x, path);
      }
    }
  }

  /** Unique reads alone refine on just the same databases. */
  lemma UniqueReadsRefineExactlyWithoutBridges(sch: Schema, db: Db, t: Id)
    requires WellFormed(sch) && Good(sch, db)
    ensures UniqueReadsRefine(sch, db, t) <==> NoBridge(sch, db, t)
  {
    if NoBridge(sch, db, t) {
      forall m, w, includes | Walled(sch, m) && AtMostOne(sch, db, m, w)
        ensures UniqueRefines(sch, db, t, m, w, includes)
      {
        NoBridgeRefines(sch, db, t, m, w, includes);
        UniqueFollows(sch, db, t, m, w, includes);
      }
    }
    if UniqueReadsRefine(sch, db, t) {
      forall x, path | Owner(sch, db, x) == Some(t) && Walk(sch, db, x, path)
        ensures !Foreign(Owner(sch, db, End(x, path)), t)
      {
        var w := IdIs(x.id);
        assert AtMostOne(sch, db, x.model, w);
        GuardedSelectIs(sch, db, t, x.model, w, x);
        UniqueIsSelected(sch, db, t, x.model, w, x);
        assert UniqueRefines(sch, db, t, x.model, w, Along(path));
        ShownWalkStaysInside(sch, db, t, x, path);
      }
    }
  }

  lemma ShownWalkStaysInside(sch: Schema, db: Db, t: Id, x: Key, path: seq<Step>)
    requires Owner(sch, db, x) == Some(t) && Walk(sch, db, x, path)
    requires Shows(sch, db, x, Along(path), path) ==> Shows(sch, Restriction(sch, db, t), x, Along(path), path)
    ensures !Foreign(Owner(sch, db, End(x, path)), t)
  {
    AlongShowsWalk(sch, db, x, path);
    if path != [] {
      ShownRowsExist(sch, Restriction(sch, db, t), x, Along(path), path);
    }
  }

  lemma NoBridgeRoot(sch: Schema, db: Db, t: Id, m: Model, w: Where, x: Key)
    requires WellFormed(sch) && Constraints(sch, db) && Walled(sch, m)
    requires NoBridge(sch, db, t)
    requires x in db && x.model == m
    ensures x in GuardedSelect(sch, db, t, m, w) ==>
              x in Restriction(sch, db, t) && Reached(sch, db, t, x)
    ensures x in GuardedSelect(sch, db, t, m, w) <==> x in OwnSelect(sch, db, t, m, w)
  {
    GuardedSelectIs(sch, db, t, m, w, x);
    OwnSelectIs(sch, db, t, m, w, x);
    if Owner(sch, db, x) == Some(t) {
      OwnedIsKept(sch, db, t, x);
      assert Walk(sch, db, x, []) && End(x, []) == x;
      ReachedFilterAgrees(sch, db, t, w, x);
    }
  }

  lemma NoBridgeRefines(sch: Schema, db: Db, t: Id, m: Model, w: Where, includes: seq<Include>)
    requires WellFormed(sch) && Good(sch, db) && Walled(sch, m)
    requires NoBridge(sch, db, t)
    ensures QueryRefines(sch, db, t, m, w, includes)
  {
    forall x
      ensures x in GuardedSelect(sch, db, t, m, w) <==> x in OwnSelect(sch, db, t, m, w)
    {
      if x in db && x.model == m {
        NoBridgeRoot(sch, db, t, m, w, x);
      }
    }
    forall x, path | x in GuardedSelect(sch, db, t, m, w)
      ensures Shows(sch, db, x, includes, path) <==> Shows(sch, Restriction(sch, db, t), x, includes, path)
    {
      NoBridgeRoot(sch, db, t, m, w, x);
      ReachedIncludesAgree(sch, db, t, includes, x, path);
    }
  }

  // ── A database that keeps the invariant and still has a bridge ────────────

  const RULE: Model := "FlagRule"
  const FLAG: Model := "FeatureFlag"
  const FLAG_KEY: Column := Named("flagKey")

  /** A tenant's flag rules refer to the platform's catalogue of flags, which refers back. */
  function FlagSchema(): Schema {
    Schema(
      map[RULE := Direct, FLAG := Catalogue, "Tenant" := TenantModel],
      map[RULE := map[TenantId := Ref("Tenant", false, Cascade), FLAG_KEY := Ref(FLAG, false, Restrict)]],
      map[RULE := map["tenant" := Own(TenantId), "flag" := Own(FLAG_KEY)], FLAG := map["tenantRules" := Back(RULE, FLAG_KEY)]],
      {RULE})
  }

  function SharedFlag(): Db {
    map[
      Key("Tenant", "t") := map[],
      Key("Tenant", "u") := map[],
      Key(FLAG, "f") := map[],
      Key(RULE, "mine") := map[TenantId := "t", FLAG_KEY := "f"],
      Key(RULE, "theirs") := map[TenantId := "u", FLAG_KEY := "f"]]
  }

  lemma FlagSchemaFacts()
    ensures var sch := FlagSchema();
            && KindOf(sch, RULE) == Direct && KindOf(sch, FLAG) == Catalogue
            && KindOf(sch, "Tenant") == TenantModel
            && RefsOf(sch, RULE).Keys == {TenantId, FLAG_KEY}
            && RefsOf(sch, RULE)[TenantId].target == "Tenant" && RefsOf(sch, RULE)[FLAG_KEY].target == FLAG
            && !RefsOf(sch, RULE)[TenantId].pinned && !RefsOf(sch, RULE)[FLAG_KEY].pinned
            && RefsOf(sch, FLAG) == map[] && RefsOf(sch, "Tenant") == map[]
  {
  }

  lemma FlagSchemaIsWellFormed()
    ensures WellFormed(FlagSchema())
  {
    FlagSchemaFacts();
  }

  lemma SharedFlagKey(x: Key, fk: Column)
    requires x in SharedFlag() && fk in RefsOf(FlagSchema(), x.model) && fk in SharedFlag()[x]
    ensures var owner := if x.id == "mine" then "t" else "u";
            && x.model == RULE && SharedFlag()[x][TenantId] == owner
            && SharedFlag()[x][fk] == if fk == TenantId then owner else "f"
  {
    FlagSchemaFacts();
  }

  lemma SharedFlagIsAccepted()
    ensures Constraints(FlagSchema(), SharedFlag())
  {
    var sch, db := FlagSchema(), SharedFlag();
    FlagSchemaFacts();
    forall x, fk | x in db && fk in RefsOf(sch, x.model) && fk in db[x]
      ensures KeyHolds(sch, db, x, fk)
    {
      SharedFlagKey(x, fk);
    }
    assert forall x | x in db && x.model == RULE :: TenantId in db[x];
  }

  /** The flag is nobody's; the other rows a rule refers to are its own organisation. */
  lemma SharedFlagRef(x: Key, fk: Column, y: Key)
    requires RefersTo(FlagSchema(), SharedFlag(), x, fk, y)
    ensures var owner := Owner(FlagSchema(), SharedFlag(), y);
            owner == None || owner == Owner(FlagSchema(), SharedFlag(), x)
  {
    SharedFlagKey(x, fk);
    FlagSchemaFacts();
  }

  lemma SharedFlagIsGood()
    ensures Good(FlagSchema(), SharedFlag())
  {
    SharedFlagIsAccepted();
    forall x, fk, y | RefersTo(FlagSchema(), SharedFlag(), x, fk, y)
      ensures var owner := Owner(FlagSchema(), SharedFlag(), x);
              owner.Some? ==> !Foreign(Owner(FlagSchema(), SharedFlag(), y), owner.value)
    {
      SharedFlagRef(x, fk, y);
    }
  }

  lemma FlagWalk()
    ensures var path := [Step("flag", Key(FLAG, "f")), Step("tenantRules", Key(RULE, "theirs"))];
            Walk(FlagSchema(), SharedFlag(), Key(RULE, "mine"), path)
  {
    var sch, db := FlagSchema(), SharedFlag();
    var mine, theirs, f := Key(RULE, "mine"), Key(RULE, "theirs"), Key(FLAG, "f");
    var path := [Step("flag", f), Step("tenantRules", theirs)];
    assert Linked(sch, db, mine, "flag", f);
    assert Linked(sch, db, f, "tenantRules", theirs);
    assert path[1..] == [Step("tenantRules", theirs)];
    assert path[1..][1..] == [];
    assert Walk(sch, db, f, path[1..]);
  }

  lemma RuleOwners()
    ensures Owner(FlagSchema(), SharedFlag(), Key(RULE, "mine")) == Some("t")
    ensures Owner(FlagSchema(), SharedFlag(), Key(RULE, "theirs")) == Some("u")
  {
    FlagSchemaFacts();
  }

  lemma FlagBridges()
    ensures !NoBridge(FlagSchema(), SharedFlag(), "t")
  {
    var path := [Step("flag", Key(FLAG, "f")), Step("tenantRules", Key(RULE, "theirs"))];
    FlagWalk();
    RuleOwners();
    assert End(Key(RULE, "mine"), path) == Key(RULE, "theirs");
    assert "t" != "u" by { assert "t"[0] != "u"[0]; }
  }

  /** An include that goes down to the catalogue and back up shows another tenant's rule. */
  lemma SharedCatalogueIsABridge()
    ensures WellFormed(FlagSchema()) && Good(FlagSchema(), SharedFlag())
    ensures !ReadsRefine(FlagSchema(), SharedFlag(), "t") && !UniqueReadsRefine(FlagSchema(), SharedFlag(), "t")
  {
    FlagSchemaIsWellFormed();
    SharedFlagIsGood();
    FlagBridges();
    ReadsRefineExactlyWithoutBridges(FlagSchema(), SharedFlag(), "t");
    UniqueReadsRefineExactlyWithoutBridges(FlagSchema(), SharedFlag(), "t");
  }
}
