/**
 * The edge of the wall in the application's schema: the two relations that lead from a tenant's rows
 * to rows of the platform's catalogue, and what those lead on to.
 */
module TenantEdge {
  import opened Wrappers
  import opened TenantData
  import opened TenantGuard
  import opened TenantWrites
  import opened TenantExact

  const FLAG_RULE: Model := "FlagRule"
  const FLAG: Model := "FeatureFlag"
  const PLATFORM_RULE: Model := "PlatformFlagRule"
  const ROLE: Model := "AccessRole"
  const ROLE_PERMISSION: Model := "RolePermission"
  const PERMISSION: Model := "AccessPermission"
  const FLAG_KEY: Column := Named("flagKey")
  const ROLE_ID: Column := Named("roleId")
  const PERMISSION_CODE: Column := Named("permissionCode")

  /** The models on either side of the two relations that cross the wall, and those one step beyond. */
  function EdgeSchema(): Schema {
    Schema(
      map["Tenant" := TenantModel, FLAG_RULE := Direct, ROLE := Direct, ROLE_PERMISSION := ViaParent(ROLE_ID, "role", ROLE),
          FLAG := Catalogue, PLATFORM_RULE := Catalogue, PERMISSION := Catalogue],
      map[FLAG_RULE := map[TenantId := Ref("Tenant", false, Cascade), FLAG_KEY := Ref(FLAG, false, Restrict)],
          ROLE := map[TenantId := Ref("Tenant", false, Cascade)],
          ROLE_PERMISSION := map[ROLE_ID := Ref(ROLE, false, Cascade), PERMISSION_CODE := Ref(PERMISSION, false, Restrict)],
          PLATFORM_RULE := map[FLAG_KEY := Ref(FLAG, false, Restrict)]],
      map[FLAG_RULE := map["tenant" := Own(TenantId), "flag" := Own(FLAG_KEY)],
          ROLE := map["tenant" := Own(TenantId), "permissions" := Back(ROLE_PERMISSION, ROLE_ID)],
          ROLE_PERMISSION := map["role" := Own(ROLE_ID), "permission" := Own(PERMISSION_CODE)],
          FLAG := map["tenantRules" := Back(FLAG_RULE, FLAG_KEY), "platformRules" := Back(PLATFORM_RULE, FLAG_KEY)],
          PLATFORM_RULE := map["flag" := Own(FLAG_KEY)],
          PERMISSION := map["roles" := Back(ROLE_PERMISSION, PERMISSION_CODE)]],
      {FLAG_RULE, ROLE, ROLE_PERMISSION})
  }

  lemma EdgeKinds(m: Model)
    ensures Walled(EdgeSchema(), m) <==> m in {"Tenant", FLAG_RULE, ROLE, ROLE_PERMISSION}
    ensures KindOf(EdgeSchema(), m).TenantModel? <==> m == "Tenant"
    ensures KindOf(EdgeSchema(), m).Direct? <==> m in {FLAG_RULE, ROLE}
    ensures KindOf(EdgeSchema(), m).ViaParent? <==> m == ROLE_PERMISSION
    ensures m == ROLE_PERMISSION ==> KindOf(EdgeSchema(), m) == ViaParent(ROLE_ID, "role", ROLE)
  {
  }

  lemma EdgeRef(m: Model, c: Column)
    requires c in RefsOf(EdgeSchema(), m)
    ensures var ref := RefsOf(EdgeSchema(), m)[c];
            || (m in {FLAG_RULE, ROLE} && c == TenantId && ref == Ref("Tenant", false, Cascade))
            || (m in {FLAG_RULE, PLATFORM_RULE} && c == FLAG_KEY && ref == Ref(FLAG, false, Restrict))
            || (m == ROLE_PERMISSION && c == ROLE_ID && ref == Ref(ROLE, false, Cascade))
            || (m == ROLE_PERMISSION && c == PERMISSION_CODE && ref == Ref(PERMISSION, false, Restrict))
  {
  }

  lemma EdgeRelation(m: Model, f: Field)
    requires f in RelationsOf(EdgeSchema(), m)
    ensures var sch := EdgeSchema();
            var r := RelationsOf(sch, m)[f];
            || (m in {FLAG_RULE, ROLE} && r == Own(TenantId) && Target(sch, m, r) == Some("Tenant"))
            || (m in {FLAG_RULE, PLATFORM_RULE} && f == "flag" && r == Own(FLAG_KEY) && Target(sch, m, r) == Some(FLAG))
            || (m == ROLE_PERMISSION && r == Own(ROLE_ID) && Target(sch, m, r) == Some(ROLE))
            || (m == ROLE_PERMISSION && r == Own(PERMISSION_CODE) && Target(sch, m, r) == Some(PERMISSION))
            || (m == ROLE && r == Back(ROLE_PERMISSION, ROLE_ID) && Target(sch, m, r) == Some(ROLE_PERMISSION))
            || (m == FLAG && r == Back(FLAG_RULE, FLAG_KEY) && Target(sch, m, r) == Some(FLAG_RULE))
            || (m == FLAG && r == Back(PLATFORM_RULE, FLAG_KEY) && Target(sch, m, r) == Some(PLATFORM_RULE))
            || (m == PERMISSION && r == Back(ROLE_PERMISSION, PERMISSION_CODE) && Target(sch, m, r) == Some(ROLE_PERMISSION))
  {
  }

  lemma KeysPointBack()
    ensures var sch := EdgeSchema();
            && FLAG_KEY in RefsOf(sch, FLAG_RULE) && RefsOf(sch, FLAG_RULE)[FLAG_KEY].target == FLAG
            && FLAG_KEY in RefsOf(sch, PLATFORM_RULE) && RefsOf(sch, PLATFORM_RULE)[FLAG_KEY].target == FLAG
            && ROLE_ID in RefsOf(sch, ROLE_PERMISSION) && RefsOf(sch, ROLE_PERMISSION)[ROLE_ID] == Ref(ROLE, false, Cascade)
            && PERMISSION_CODE in RefsOf(sch, ROLE_PERMISSION) && RefsOf(sch, ROLE_PERMISSION)[PERMISSION_CODE].target == PERMISSION
            && "role" in RelationsOf(sch, ROLE_PERMISSION) && RelationsOf(sch, ROLE_PERMISSION)["role"] == Own(ROLE_ID)
  {
  }

  ghost predicate EdgeRefs(sch: Schema) {
    forall m, c | m in sch.refs && c in sch.refs[m] ::
      && !sch.refs[m][c].pinned && (KindOf(sch, sch.refs[m][c].target).TenantModel? <==> c == TenantId)
      && (c == TenantId ==> KindOf(sch, m).Direct?)
      && (sch.refs[m][c].onDelete == Cascade ==> CarriesOwner(sch, m, c))
  }

  ghost predicate EdgeRelations(sch: Schema) {
    forall m, f | m in sch.relations && f in sch.relations[m] ::
      match sch.relations[m][f]
      case Own(fk) => fk in RefsOf(sch, m)
      case Back(from, fk) => fk in RefsOf(sch, from) && RefsOf(sch, from)[fk].target == m
  }

  lemma EdgeRefsHold()
    ensures EdgeRefs(EdgeSchema())
  {
    var sch := EdgeSchema();
    forall m, c | m in sch.refs && c in sch.refs[m]
      ensures !sch.refs[m][c].pinned && (KindOf(sch, sch.refs[m][c].target).TenantModel? <==> c == TenantId)
      ensures c == TenantId ==> KindOf(sch, m).Direct?
      ensures sch.refs[m][c].onDelete == Cascade ==> CarriesOwner(sch, m, c)
    {
      assert RefsOf(sch, m) == sch.refs[m];
      EdgeRef(m, c);
      EdgeKinds(m);
      EdgeKinds(sch.refs[m][c].target);
    }
  }

  lemma EdgeRelationsHold()
    ensures EdgeRelations(EdgeSchema())
  {
    var sch := EdgeSchema();
    KeysPointBack();
    forall m, f | m in sch.relations && f in sch.relations[m]
      ensures match sch.relations[m][f]
              case Own(fk) => fk in RefsOf(sch, m)
              case Back(from, fk) => fk in RefsOf(sch, from) && RefsOf(sch, from)[fk].target == m
    {
      assert RelationsOf(sch, m) == sch.relations[m];
      EdgeRelation(m, f);
    }
  }

  lemma WellFormedByParts(sch: Schema)
    requires EdgeRefs(sch) && EdgeRelations(sch)
    requires forall m | KindOf(sch, m).ViaParent? :: KindOf(sch, m) == ViaParent(ROLE_ID, "role", ROLE) && m == ROLE_PERMISSION
    requires KindOf(sch, ROLE).Direct? && ROLE_ID in RefsOf(sch, ROLE_PERMISSION) && RefsOf(sch, ROLE_PERMISSION)[ROLE_ID].target == ROLE
    requires "role" in RelationsOf(sch, ROLE_PERMISSION) && RelationsOf(sch, ROLE_PERMISSION)["role"] == Own(ROLE_ID)
    ensures WellFormed(sch) && OneTenantKey(sch) && CascadeSafe(sch)
  {
    forall m | m in sch.kinds && sch.kinds[m].ViaParent?
      ensures sch.kinds[m] == ViaParent(ROLE_ID, "role", ROLE) && m == ROLE_PERMISSION
    {
      assert KindOf(sch, m) == sch.kinds[m];
    }
    forall m, c | c in RefsOf(sch, m)
      ensures !RefsOf(sch, m)[c].pinned
    {
      assert RefsOf(sch, m) == sch.refs[m];
    }
  }

  lemma EdgeIsWellFormed()
    ensures WellFormed(EdgeSchema()) && OneTenantKey(EdgeSchema()) && CascadeSafe(EdgeSchema())
  {
    EdgeRefsHold();
    EdgeRelationsHold();
    KeysPointBack();
    EdgeKinds(ROLE);
    forall m | KindOf(EdgeSchema(), m).ViaParent?
      ensures KindOf(EdgeSchema(), m) == ViaParent(ROLE_ID, "role", ROLE) && m == ROLE_PERMISSION
    {
      EdgeKinds(m);
    }
    WellFormedByParts(EdgeSchema());
  }

  lemma FlagLeadsNowhere(path: seq<Field>)
    requires Leads(EdgeSchema(), FLAG, Some(Back(FLAG_RULE, FLAG_KEY)), path)
    ensures LastModel(EdgeSchema(), FLAG, path) in {FLAG, PLATFORM_RULE}
  {
    if path != [] {
      EdgeRelation(FLAG, path[0]);
      var rest := path[1..];
      if rest != [] {
        EdgeRelation(PLATFORM_RULE, rest[0]);
      }
    }
  }

  lemma PermissionLeadsNowhere(path: seq<Field>)
    requires Leads(EdgeSchema(), PERMISSION, Some(Back(ROLE_PERMISSION, PERMISSION_CODE)), path)
    ensures LastModel(EdgeSchema(), PERMISSION, path) == PERMISSION
  {
    if path != [] {
      EdgeRelation(PERMISSION, path[0]);
    }
  }

  lemma BeyondTheEdge()
    ensures Outside(EdgeSchema(), FLAG, Some(Back(FLAG_RULE, FLAG_KEY)))
    ensures Outside(EdgeSchema(), PERMISSION, Some(Back(ROLE_PERMISSION, PERMISSION_CODE)))
  {
    forall path | Leads(EdgeSchema(), FLAG, Some(Back(FLAG_RULE, FLAG_KEY)), path)
      ensures !Walled(EdgeSchema(), LastModel(EdgeSchema(), FLAG, path))
    {
      FlagLeadsNowhere(path);
      EdgeKinds(LastModel(EdgeSchema(), FLAG, path));
    }
    forall path | Leads(EdgeSchema(), PERMISSION, Some(Back(ROLE_PERMISSION, PERMISSION_CODE)), path)
      ensures !Walled(EdgeSchema(), LastModel(EdgeSchema(), PERMISSION, path))
    {
      PermissionLeadsNowhere(path);
      EdgeKinds(PERMISSION);
    }
  }

  /**
   * What the client accepts below a flag or a permission never reaches a tenant's row again, and
   * nothing cascades but ownership: plain operations need no more than that.
   */
  lemma EdgeHasNoWayBack()
    ensures Layered(EdgeSchema()) && CascadeSafe(EdgeSchema())
  {
    var sch := EdgeSchema();
    EdgeIsWellFormed();
    BeyondTheEdge();
    forall m, f | Walled(sch, m) && f in RelationsOf(sch, m)
      ensures LeavesForGood(sch, m, RelationsOf(sch, m)[f])
    {
      EdgeKinds(m);
      EdgeRelation(m, f);
      EdgeKinds(Target(sch, m, RelationsOf(sch, m)[f]).value);
    }
  }
}
