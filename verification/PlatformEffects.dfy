/**
 * What each step makes of one account, one organisation and one request: every way in which it can
 * change, and that nothing else changes it.
 */
module PlatformEffects {
  import opened Wrappers
  import opened PurgeBlockers
  import opened PlatformControl

  function At<K, V>(m: map<K, V>, k: K): Option<V> {
    if k in m then Some(m[k]) else None
  }

  ghost predicate MayAsk(s: State, actor: UserId, recent: bool) {
    IsSuper(s.users, actor) && recent
  }

  /** A grant asked for is executed at once: its maker is the only active super-administrator. */
  ghost predicate AtOnce(s: State, actor: UserId, u: UserId, id: ApprovalId, now: int) {
    !HasAnother(s.users, actor) && id !in s.approvals && NoneOpen(s.approvals, SUPERADMIN_GRANT, u, now)
  }

  ghost predicate Purges(p: Policy, s: State, e: Event)
    requires e.Purge?
  {
    && MayAsk(s, e.actor, e.recent) && MayErase(p, s.tenants, e.tenant, e.now) && e.commits
    && e.request in s.approvals && s.approvals[e.request].action == TENANT_PURGE && s.approvals[e.request].subject == e.tenant
    && s.approvals[e.request].status == APPROVED && e.now < s.approvals[e.request].expiresAt
    && Archived(s.tenants, s.archives, e.tenant, e.archive) && NoNumbers(e.found)
  }

  // ── Accounts ──────────────────────────────────────────────────────────────

  /** The account a create makes: a super-administrator's only by another one, and inactive unless that one is alone. */
  ghost function Created(s: State, e: Event): Option<User>
    requires e.CreateUser?
  {
    if !e.permitted || e.actor !in s.users then None
    else if IsSuper(s.users, e.actor) then
      if e.superadmin then
        if e.home.Some? || !e.recent then None else Some(User(true, None, AtOnce(s, e.actor, e.user, e.id, e.now)))
      else if e.home.Some? then Some(User(false, e.home, true)) else None
    else
      var a := s.users[e.actor];
      if e.superadmin || !a.active || a.superadmin || a.tenant.None? then None else Some(User(false, a.tenant, true))
  }

  /** What a step makes of account `u`, None where there is no such account. */
  ghost function AccountAfter(p: Policy, s: State, e: Event, u: UserId): Option<User> {
    var was := At(s.users, u);
    match e
    case RequestGrant(actor, recent, target, id, now) =>
      if target == u && MayAsk(s, actor, recent) && was.Some? && !(was.value.superadmin && was.value.active) && AtOnce(s, actor, u, id, now)
      then Some(User(true, None, true)) else was
    case ApproveGrant(actor, recent, id, now) =>
      if MayAsk(s, actor, recent) && MayCheck(s.approvals, id, actor, now) && s.approvals[id].subject == u && was.Some?
      then Some(User(true, None, true)) else was
    case Purge(_, _, tenant, _, _, _, _, _) =>
      if was.Some? && was.value.tenant == Some(tenant) && Purges(p, s, e) then None else was
    case SignUp(v, tenant) => if v == u && was.None? then Some(User(false, Some(tenant), true)) else was
    case CreateUser(_, _, _, v, _, _, _, _) => if v == u && was.None? then Created(s, e) else was
    case ChangeRole(actor, permitted, v, superadmin) =>
      if v == u && permitted && Manages(s.users, actor, u) && was.value.active && (superadmin ==> was.value.superadmin)
         && (actor == u && was.value.superadmin ==> superadmin)
      then Some(was.value.(superadmin := superadmin)) else was
    case RemoveUser(actor, permitted, v) =>
      if v == u && permitted && Manages(s.users, actor, u) && actor != u
      then (if IsSuper(s.users, actor) then None else Some(was.value.(active := false))) else was
    case Reactivate(actor, permitted, v) =>
      if v == u && permitted && Manages(s.users, actor, u) && actor != u && !was.value.active
      then Some(was.value.(active := true)) else was
    case _ => was
  }

  lemma GrantsExactly(p: Policy, s: State, e: Event, u: UserId)
    requires e.RequestGrant?
    ensures At(Apply(p, s, e).users, u) == AccountAfter(p, s, e, u)
  {
    SuperIs(s.users, e.actor);
    LapseIs(s.approvals, SUPERADMIN_GRANT, e.target, e.now);
  }

  lemma CreatesExactly(p: Policy, s: State, e: Event, u: UserId)
    requires e.CreateUser?
    ensures At(Apply(p, s, e).users, u) == AccountAfter(p, s, e, u)
  {
    SuperIs(s.users, e.actor);
    if MayCreate(s, e) && e.superadmin {
      var more := s.users[e.user := WAITING];
      SuperIs(more, e.actor);
      WaitingIsNoOther(s.users, e.user, e.actor);
      LapseIs(s.approvals, SUPERADMIN_GRANT, e.user, e.now);
    }
  }

  /** Every way in which an account comes to be, changes or goes. */
  lemma AccountsExactly(p: Policy, s: State, e: Event, u: UserId)
    ensures At(Apply(p, s, e).users, u) == AccountAfter(p, s, e, u)
  {
    if e.RequestGrant? {
      GrantsExactly(p, s, e, u);
    } else if e.CreateUser? {
      CreatesExactly(p, s, e, u);
    } else if e.ChangeRole? || e.RemoveUser? || e.Reactivate? {
      StaffExactly(p, s, e, u);
    } else if e.ApproveGrant? || e.Purge? {
      SuperIs(s.users, e.actor);
    } else if OfTenants(e) {
      assert Apply(p, s, e).users == s.users;
    }
  }

  lemma StaffExactly(p: Policy, s: State, e: Event, u: UserId)
    requires e.ChangeRole? || e.RemoveUser? || e.Reactivate?
    ensures At(Apply(p, s, e).users, u) == AccountAfter(p, s, e, u)
  {
    SuperIs(s.users, e.actor);
  }

  // ── Organisations ─────────────────────────────────────────────────────────

  /** What a step makes of organisation `t`. Only `SetStatus` and a payment look at what the status was. */
  ghost function TenantAfter(p: Policy, s: State, e: Event, t: TenantId): Option<Tenant> {
    var was := At(s.tenants, t);
    match e
    case Remove(v, now) => if v == t && was.Some? then Some(Tenant("SUSPENDED", Some(now))) else was
    case SetStatus(v, status) =>
      if v != t || was.None? || (status == "ACTIVE" && was.value.status == "PENDING_PAYMENT") then was
      else Some(Tenant(status, if status == "ACTIVE" then None else was.value.deletedAt))
    case EditStatus(v, status) =>
      if v != t || was.None? || (status == "ACTIVE" && was.value.status == "PENDING_PAYMENT") then was
      else Some(Tenant(status, was.value.deletedAt))
    case ConfirmPayment(v) => if v == t && was.Some? then Some(Tenant("ACTIVE", was.value.deletedAt)) else was
    case CreateTenant(v, status) => if v == t && was.None? then Some(Tenant(status, None)) else was
    case Purge(_, _, v, _, _, _, _, _) => if v == t && Purges(p, s, e) then None else was
    case _ => was
  }

  /** Every way in which an organisation comes to be, changes or goes; archives are only added, of one waiting to be erased. */
  lemma TenantsExactly(p: Policy, s: State, e: Event, t: TenantId)
    ensures At(Apply(p, s, e).tenants, t) == TenantAfter(p, s, e, t)
    ensures Apply(p, s, e).archives ==
            if e.WriteArchive? && MayAsk(s, e.actor, e.recent) && e.tenant in s.tenants && s.tenants[e.tenant].deletedAt.Some?
            then s.archives + [Archive(e.tenant, e.now)] else s.archives
  {
    if e.Purge? || e.WriteArchive? {
      SuperIs(s.users, e.actor);
    } else if !OfTenants(e) {
      OthersLeaveTenants(p, s, e);
    }
  }

  // ── Requests ──────────────────────────────────────────────────────────────

  /** The request a step raises, if it may: by whom, about what, and until when it can be decided. */
  ghost function Raised(p: Policy, s: State, e: Event): Option<(ApprovalId, Approval)> {
    match e
    case RequestGrant(actor, recent, target, id, now) =>
      if MayAsk(s, actor, recent) && target in s.users && !(s.users[target].superadmin && s.users[target].active)
         && id !in s.approvals && NoneOpen(s.approvals, SUPERADMIN_GRANT, target, now)
      then Some((id, Asked(p, s, actor, target, now))) else None
    case CreateUser(actor, recent, permitted, user, superadmin, home, id, now) =>
      if permitted && superadmin && home.None? && MayAsk(s, actor, recent) && user !in s.users
         && id !in s.approvals && NoneOpen(s.approvals, SUPERADMIN_GRANT, user, now)
      then Some((id, Asked(p, s, actor, user, now))) else None
    case RequestPurge(actor, recent, tenant, id, archive, found, now) =>
      if MayAsk(s, actor, recent) && MayErase(p, s.tenants, tenant, now) && Archived(s.tenants, s.archives, tenant, archive)
         && NoNumbers(found) && HasAnother(s.users, actor)
         && id !in s.approvals && NoneOpen(s.approvals, TENANT_PURGE, tenant, now)
      then Some((id, Approval(TENANT_PURGE, tenant, actor, None, PENDING, false, now + p.ttl))) else None
    case _ => None
  }

  /** A grant waits for a second person, or is executed and marked as one person's where there is no second. */
  ghost function Asked(p: Policy, s: State, actor: UserId, u: UserId, now: int): Approval {
    var alone := !HasAnother(s.users, actor);
    Approval(SUPERADMIN_GRANT, u, actor, None, if alone then EXECUTED else PENDING, alone, now + p.ttl)
  }

  /** Requests come to be only by being raised, one at a time and as described. */
  lemma RequestsAreRaised(p: Policy, s: State, e: Event)
    ensures Apply(p, s, e).approvals.Keys == s.approvals.Keys + (if Raised(p, s, e).Some? then {Raised(p, s, e).value.0} else {})
    ensures Raised(p, s, e).Some? ==> Apply(p, s, e).approvals[Raised(p, s, e).value.0] == Raised(p, s, e).value.1
  {
    if e.RequestGrant? {
      GrantRaises(p, s, e);
    } else if e.CreateUser? {
      CreateRaises(p, s, e);
    } else if e.RequestPurge? {
      PurgeRaises(p, s, e);
    } else if OfTenants(e) {
      assert Apply(p, s, e).approvals == s.approvals;
    }
  }

  lemma GrantRaises(p: Policy, s: State, e: Event)
    requires e.RequestGrant?
    ensures Apply(p, s, e).approvals.Keys == s.approvals.Keys + (if Raised(p, s, e).Some? then {Raised(p, s, e).value.0} else {})
    ensures Raised(p, s, e).Some? ==> Apply(p, s, e).approvals[Raised(p, s, e).value.0] == Raised(p, s, e).value.1
  {
    SuperIs(s.users, e.actor);
    LapseIs(s.approvals, SUPERADMIN_GRANT, e.target, e.now);
  }

  lemma PurgeRaises(p: Policy, s: State, e: Event)
    requires e.RequestPurge?
    ensures Apply(p, s, e).approvals.Keys == s.approvals.Keys + (if Raised(p, s, e).Some? then {Raised(p, s, e).value.0} else {})
    ensures Raised(p, s, e).Some? ==> Apply(p, s, e).approvals[Raised(p, s, e).value.0] == Raised(p, s, e).value.1
  {
    SuperIs(s.users, e.actor);
    LapseIs(s.approvals, TENANT_PURGE, e.tenant, e.now);
  }

  lemma CreateRaises(p: Policy, s: State, e: Event)
    requires e.CreateUser?
    ensures Apply(p, s, e).approvals.Keys == s.approvals.Keys + (if Raised(p, s, e).Some? then {Raised(p, s, e).value.0} else {})
    ensures Raised(p, s, e).Some? ==> Apply(p, s, e).approvals[Raised(p, s, e).value.0] == Raised(p, s, e).value.1
  {
    SuperIs(s.users, e.actor);
    if MayCreate(s, e) && e.superadmin {
      SuperIs(s.users[e.user := WAITING], e.actor);
      WaitingIsNoOther(s.users, e.user, e.actor);
      LapseIs(s.approvals, SUPERADMIN_GRANT, e.user, e.now);
    }
  }

  /** What a step makes of a request that is there. */
  ghost function RequestAfter(p: Policy, s: State, e: Event, a: ApprovalId): Approval
    requires a in s.approvals
  {
    var was := s.approvals[a];
    match e
    case Decide(actor, recent, id, approve, reasoned, now) =>
      if id == a && IsSuper(s.users, actor) && (if approve then recent else reasoned) && MayCheck(s.approvals, a, actor, now)
      then was.(status := if approve then APPROVED else REJECTED, checker := Some(actor)) else was
    case ApproveGrant(actor, recent, id, now) =>
      if id == a && MayAsk(s, actor, recent) && MayCheck(s.approvals, a, actor, now)
      then was.(status := if was.subject in s.users then EXECUTED else APPROVED, checker := Some(actor)) else was
    case Cancel(actor, id) =>
      if id == a && was.maker == actor && was.status in {PENDING, APPROVED} then was.(status := CANCELLED) else was
    case Purge(_, _, _, request, _, _, _, _) => if request == a && Purges(p, s, e) then was.(status := EXECUTED) else was
    case List(action, now) => Lapsed(was, action, None, now)
    case RequestGrant(actor, recent, target, _, now) =>
      if MayAsk(s, actor, recent) && target in s.users && !(s.users[target].superadmin && s.users[target].active)
      then Lapsed(was, SUPERADMIN_GRANT, Some(target), now) else was
    case CreateUser(actor, recent, permitted, user, superadmin, home, _, now) =>
      if permitted && superadmin && home.None? && MayAsk(s, actor, recent) && user !in s.users
      then Lapsed(was, SUPERADMIN_GRANT, Some(user), now) else was
    case RequestPurge(actor, recent, tenant, _, archive, found, now) =>
      if MayAsk(s, actor, recent) && MayErase(p, s.tenants, tenant, now) && Archived(s.tenants, s.archives, tenant, archive)
         && NoNumbers(found) && HasAnother(s.users, actor)
      then Lapsed(was, TENANT_PURGE, Some(tenant), now) else was
    case _ => was
  }

  /** Every way in which a request that is there changes: decided, cancelled, carried out, or lapsed. */
  lemma RequestsExactly(p: Policy, s: State, e: Event, a: ApprovalId)
    requires a in s.approvals
    ensures a in Apply(p, s, e).approvals && Apply(p, s, e).approvals[a] == RequestAfter(p, s, e, a)
  {
    if e.RequestGrant? {
      GrantLapses(p, s, e, a);
    } else if e.CreateUser? {
      CreateLapses(p, s, e, a);
    } else if e.RequestPurge? {
      PurgeLapses(p, s, e, a);
    } else if e.Decide? || e.ApproveGrant? || e.Purge? {
      SuperIs(s.users, e.actor);
    } else if OfTenants(e) {
      assert Apply(p, s, e).approvals == s.approvals;
    }
  }

  lemma GrantLapses(p: Policy, s: State, e: Event, a: ApprovalId)
    requires e.RequestGrant? && a in s.approvals
    ensures a in Apply(p, s, e).approvals && Apply(p, s, e).approvals[a] == RequestAfter(p, s, e, a)
  {
    SuperIs(s.users, e.actor);
    LapseIs(s.approvals, SUPERADMIN_GRANT, e.target, e.now);
  }

  lemma PurgeLapses(p: Policy, s: State, e: Event, a: ApprovalId)
    requires e.RequestPurge? && a in s.approvals
    ensures a in Apply(p, s, e).approvals && Apply(p, s, e).approvals[a] == RequestAfter(p, s, e, a)
  {
    SuperIs(s.users, e.actor);
    LapseIs(s.approvals, TENANT_PURGE, e.tenant, e.now);
  }

  lemma CreateLapses(p: Policy, s: State, e: Event, a: ApprovalId)
    requires e.CreateUser? && a in s.approvals
    ensures a in Apply(p, s, e).approvals && Apply(p, s, e).approvals[a] == RequestAfter(p, s, e, a)
  {
    SuperIs(s.users, e.actor);
    if MayCreate(s, e) && e.superadmin {
      SuperIs(s.users[e.user := WAITING], e.actor);
      LapseIs(s.approvals, SUPERADMIN_GRANT, e.user, e.now);
    }
  }
}
