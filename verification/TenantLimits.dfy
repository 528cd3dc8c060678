/**
 * Two payloads that pass the guard and breach the wall on a database that keeps every invariant, one
 * for each way in which a connect can fail to be plain.
 */
module TenantLimits {
  import opened Wrappers
  import opened TenantData
  import opened TenantGuard
  import opened TenantWrites
  import opened TenantExact

  /** An operation after which `k` or the invariant shows a breach. */
  lemma BreachIsHarmful(sch: Schema, db: Db, t: Id, op: Operation, after: Db, k: Key)
    requires WellFormed(sch) && Good(sch, db) && after == Guarded(sch, db, t, op)
    requires || !Sealed(sch, after)
             || (k in db && Foreign(Owner(sch, db, k), t) && !(k in after && after[k] == db[k]))
             || (k in after && Foreign(Owner(sch, after, k), t) && Owner(sch, db, k) != Owner(sch, after, k))
    ensures !HarmlessOperation(sch, db, t, op)
  {
    if HarmlessOperation(sch, db, t, op) {
      GuardedOperationHoldsTheWall(sch, db, t, op);
    }
  }

  /** An update of one row by its id that only connects it, when the guard and the database accept it. */
  lemma ConnectCommits(sch: Schema, db: Db, t: Id, x: Key, f: Field, u: Unique, y: Key)
    requires x in db && y in db && f in RelationsOf(sch, x.model) && Walled(sch, x.model)
    requires Target(sch, x.model, RelationsOf(sch, x.model)[f]) == Some(y.model) && Find(db, y.model, u) == Some(y)
    requires Owner(sch, db, x) == Some(t) && RefsAllowed(sch, db, t, x.model, Connecting(f, u))
    requires Constraints(sch, Link(sch, db, x, RelationsOf(sch, x.model)[f], y))
    ensures Guarded(sch, db, t, UpdateOne(x.model, ById(x.id), Connecting(f, u))) == Link(sch, db, x, RelationsOf(sch, x.model)[f], y)
  {
    assert Names(db, x.model, ById(x.id), x);
    assert Find(db, x.model, ById(x.id)) == Some(x);
    ConnectRuns(sch, db, t, x, f, u, y);
  }

  // ── An organisation named by another unique column is not inspected ───────

  const BOT_HASH: Column := Named("telegramBotTokenHash")
  const BRANCH: Model := "Branch"
  const BY_HASH: Payload := Connecting("tenant", ByKey(BOT_HASH, "h"))

  function BranchSchema(): Schema {
    Schema(
      map["Tenant" := TenantModel, BRANCH := Direct],
      map[BRANCH := map[TenantId := Ref("Tenant", false, Cascade)]],
      map[BRANCH := map["tenant" := Own(TenantId)]],
      {BRANCH})
  }

  /** Two organisations, the hash being `holder`'s, and a branch of `owner`'s. */
  function Holding(holder: Id, owner: Id): Db {
    map[
      Key("Tenant", "t") := if holder == "t" then map[BOT_HASH := "h"] else map[],
      Key("Tenant", "u") := if holder == "u" then map[BOT_HASH := "h"] else map[],
      Key(BRANCH, "b") := map[TenantId := owner]]
  }

  lemma BranchIsLayered()
    ensures Layered(BranchSchema())
  {
    var sch := BranchSchema();
    assert sch.refs.Keys == {BRANCH} && sch.relations.Keys == {BRANCH} && sch.relations[BRANCH] == map["tenant" := Own(TenantId)];
    assert Target(sch, BRANCH, Own(TenantId)) == Some("Tenant");
  }

  lemma HoldingIsGood(holder: Id, owner: Id)
    requires owner in {"t", "u"}
    ensures Good(BranchSchema(), Holding(holder, owner))
  {
    var sch, db := BranchSchema(), Holding(holder, owner);
    assert RefsOf(sch, "Tenant") == map[];
    assert forall x, fk | x in db && fk in RefsOf(sch, x.model) :: x == Key(BRANCH, "b") && fk == TenantId;
  }

  lemma HolderIsFound(holder: Id)
    requires holder in {"t", "u"}
    ensures Find(Holding(holder, "t"), "Tenant", ByKey(BOT_HASH, "h")) == Some(Key("Tenant", holder))
    ensures Link(BranchSchema(), Holding(holder, "t"), Key(BRANCH, "b"), Own(TenantId), Key("Tenant", holder)) == Holding(holder, holder)
  {
    var db := Holding(holder, "t");
    assert "t" != "u" by { assert "t"[0] != "u"[0]; }
    assert Names(db, "Tenant", ByKey(BOT_HASH, "h"), Key("Tenant", holder));
    assert db[Key(BRANCH, "b")][TenantId := holder] == map[TenantId := holder];
  }

  lemma NamingPasses(holder: Id)
    ensures RefsAllowed(BranchSchema(), Holding(holder, "t"), "t", BRANCH, BY_HASH)
  {
    assert NestedAllowed(BranchSchema(), Holding(holder, "t"), "t", BRANCH, BY_HASH.nested[0]);
  }

  lemma NamingCommits(holder: Id)
    requires holder in {"t", "u"}
    ensures Guarded(BranchSchema(), Holding(holder, "t"), "t", UpdateOne(BRANCH, ById("b"), BY_HASH)) == Holding(holder, holder)
  {
    HoldingIsGood(holder, holder);
    NamingPasses(holder);
    HolderIsFound(holder);
    ConnectCommits(BranchSchema(), Holding(holder, "t"), "t", Key(BRANCH, "b"), "tenant", ByKey(BOT_HASH, "h"), Key("Tenant", holder));
  }

  /** Updating a branch with `tenant: { connect: { telegramBotTokenHash } }` hands it to `u`. */
  lemma TenantNamedByAnotherColumnReowns()
    ensures var sch, db, b := BranchSchema(), Holding("u", "t"), Key(BRANCH, "b");
            var op := UpdateOne(BRANCH, ById("b"), BY_HASH);
            && Layered(sch) && Good(sch, db) && AcceptedOperation(sch, op) && Owner(sch, db, b) == Some("t")
            && Owner(sch, Guarded(sch, db, "t", op), b) == Some("u")
            && !PlainOperation(sch, op) && !HarmlessOperation(sch, db, "t", op)
  {
    BranchIsLayered();
    HoldingIsGood("u", "t");
    NamingCommits("u");
    assert "t" != "u" by { assert "t"[0] != "u"[0]; }
    assert !PlainOp(BranchSchema(), BRANCH, BY_HASH.nested[0]);
    BreachIsHarmful(BranchSchema(), Holding("u", "t"), "t", UpdateOne(BRANCH, ById("b"), BY_HASH), Holding("u", "u"), Key(BRANCH, "b"));
  }

  /** Such a payload is not plain, and does harm exactly when the organisation it names is not the caller's own. */
  lemma NamedByAnotherColumnExactly(holder: Id)
    requires holder in {"t", "u"}
    ensures var sch, db := BranchSchema(), Holding(holder, "t");
            var after := UpdateGuarded(sch, db, "t", Key(BRANCH, "b"), BY_HASH);
            Good(sch, after) && WallHeld(sch, "t", db, after) <==> holder == "t"
  {
    var sch, db := BranchSchema(), Holding(holder, "t");
    BranchIsLayered();
    HoldingIsGood(holder, "t");
    HoldingIsGood(holder, holder);
    HolderIsFound(holder);
    NamingPasses(holder);
    ConnectIsExact(sch, db, "t", Key(BRANCH, "b"), "tenant", ByKey(BOT_HASH, "h"), Key("Tenant", holder));
  }

  // ── A connect that carries ownership may claim a shared ownerless row ─────

  const USER: Model := "User"
  const AUDIT_LOG: Model := "AuditLog"
  const USER_ID: Column := Named("userId")

  function StaffSchema(): Schema {
    Schema(
      map["Tenant" := TenantModel, USER := Direct, AUDIT_LOG := Direct],
      map[USER := map[TenantId := Ref("Tenant", false, SetNull)],
          AUDIT_LOG := map[TenantId := Ref("Tenant", false, Cascade), USER_ID := Ref(USER, false, SetNull)]],
      map["Tenant" := map["users" := Back(USER, TenantId)], AUDIT_LOG := map["user" := Own(USER_ID)]],
      {})
  }

  function Staff(root: Row): Db {
    map[
      Key("Tenant", "t") := map[],
      Key("Tenant", "u") := map[],
      Key(USER, "root") := root,
      Key(AUDIT_LOG, "d") := map[TenantId := "u", USER_ID := "root"]]
  }

  const CLAIM: Payload := Connecting("users", ById("root"))

  lemma StaffSchemaFacts()
    ensures var sch := StaffSchema();
            && KindOf(sch, USER) == Direct && KindOf(sch, AUDIT_LOG) == Direct && KindOf(sch, "Tenant") == TenantModel
            && RefsOf(sch, USER) == map[TenantId := Ref("Tenant", false, SetNull)]
            && RefsOf(sch, AUDIT_LOG) == map[TenantId := Ref("Tenant", false, Cascade), USER_ID := Ref(USER, false, SetNull)]
            && RefsOf(sch, "Tenant") == map[]
            && RelationsOf(sch, "Tenant") == map["users" := Back(USER, TenantId)]
  {
  }

  lemma StaffSchemaIsWellFormed()
    ensures WellFormed(StaffSchema())
  {
    var sch := StaffSchema();
    StaffSchemaFacts();
    assert sch.refs.Keys == {USER, AUDIT_LOG} && sch.relations.Keys == {"Tenant", AUDIT_LOG};
    assert forall m, c | m in sch.refs && c in sch.refs[m] :: c == TenantId || (m == AUDIT_LOG && c == USER_ID);
  }

  lemma StaffKey(root: Row, x: Key, fk: Column)
    requires root == map[] || root == map[TenantId := "t"]
    requires x in Staff(root) && fk in RefsOf(StaffSchema(), x.model) && fk in Staff(root)[x]
    ensures (x == Key(USER, "root") && fk == TenantId && Staff(root)[x][fk] == "t")
         || (x == Key(AUDIT_LOG, "d") && fk == TenantId && Staff(root)[x][fk] == "u")
         || (x == Key(AUDIT_LOG, "d") && fk == USER_ID && Staff(root)[x][fk] == "root")
  {
    StaffSchemaFacts();
  }

  lemma StaffIsAccepted(root: Row)
    requires root == map[] || root == map[TenantId := "t"]
    ensures Constraints(StaffSchema(), Staff(root))
  {
    var sch, db := StaffSchema(), Staff(root);
    StaffSchemaFacts();
    forall x, fk | x in db && fk in RefsOf(sch, x.model) && fk in db[x]
      ensures KeyHolds(sch, db, x, fk)
    {
      StaffKey(root, x, fk);
    }
  }

  lemma StaffIsSealed(root: Row)
    requires root == map[] || root == map[TenantId := "t"]
    ensures Sealed(StaffSchema(), Staff(root)) <==> root == map[]
  {
    var sch, db := StaffSchema(), Staff(root);
    StaffSchemaFacts();
    assert RefersTo(sch, db, Key(AUDIT_LOG, "d"), USER_ID, Key(USER, "root"));
    if root == map[] {
      forall x, fk, y | RefersTo(sch, db, x, fk, y)
        ensures Owner(sch, db, x).Some? ==> !Foreign(Owner(sch, db, y), Owner(sch, db, x).value)
      {
        StaffKey(root, x, fk);
      }
    }
  }

  lemma ClaimPasses()
    ensures RefsAllowed(StaffSchema(), Staff(map[]), "t", "Tenant", CLAIM)
  {
    var sch, db := StaffSchema(), Staff(map[]);
    StaffSchemaFacts();
    assert forall k :: Names(db, USER, ById("root"), k) ==> k == Key(USER, "root");
    assert NestedAllowed(sch, db, "t", "Tenant", CLAIM.nested[0]);
  }

  lemma ClaimLinks()
    ensures var sch, db := StaffSchema(), Staff(map[]);
            Find(db, USER, ById("root")) == Some(Key(USER, "root"))
            && Link(sch, db, Key("Tenant", "t"), Back(USER, TenantId), Key(USER, "root")) == Staff(map[TenantId := "t"])
  {
    var db := Staff(map[]);
    assert Names(db, USER, ById("root"), Key(USER, "root"));
  }

  lemma ClaimCommits()
    ensures Guarded(StaffSchema(), Staff(map[]), "t", UpdateOne("Tenant", ById("t"), CLAIM)) == Staff(map[TenantId := "t"])
  {
    StaffSchemaFacts();
    StaffIsAccepted(map[TenantId := "t"]);
    ClaimPasses();
    ClaimLinks();
    ConnectCommits(StaffSchema(), Staff(map[]), "t", Key("Tenant", "t"), "users", ById("root"), Key(USER, "root"));
  }

  lemma ClaimIsAccepted()
    ensures AcceptedOperation(StaffSchema(), UpdateOne("Tenant", ById("t"), CLAIM)) && !Plain(StaffSchema(), "Tenant", CLAIM)
  {
    StaffSchemaFacts();
    assert !PlainOp(StaffSchema(), "Tenant", CLAIM.nested[0]);
  }

  /** Connecting a platform user to one's own organisation makes it `t`'s while `u`'s rows refer to it. */
  lemma ClaimingAnOwnerlessRowBreaksTheInvariant()
    ensures var sch, db := StaffSchema(), Staff(map[]);
            && WellFormed(sch) && Good(sch, db) && AcceptedOperation(sch, UpdateOne("Tenant", ById("t"), CLAIM))
            && !Plain(sch, "Tenant", CLAIM)
            && !Sealed(sch, Guarded(sch, db, "t", UpdateOne("Tenant", ById("t"), CLAIM)))
            && !HarmlessOperation(sch, db, "t", UpdateOne("Tenant", ById("t"), CLAIM))
  {
    StaffSchemaIsWellFormed();
    StaffIsAccepted(map[]);
    StaffIsSealed(map[]);
    StaffIsSealed(map[TenantId := "t"]);
    ClaimCommits();
    ClaimIsAccepted();
    BreachIsHarmful(StaffSchema(), Staff(map[]), "t", UpdateOne("Tenant", ById("t"), CLAIM),
                    Staff(map[TenantId := "t"]), Key(USER, "root"));
  }
}
