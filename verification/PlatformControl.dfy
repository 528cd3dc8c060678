/**
 * Two-person control over the platform: promoting super-administrators and purging organisations.
 * Each handler is one atomic step. An actor reaches a handler only while the account is an active
 * super-administrator; `recent` says their authenticator code is recent enough.
 */
module PlatformControl {
  import opened Wrappers
  import opened PurgeBlockers

  type UserId = string
  type TenantId = string
  type ApprovalId = string

  datatype User = User(superadmin: bool, tenant: Option<TenantId>, active: bool)
  datatype Tenant = Tenant(status: string, deletedAt: Option<int>)
  datatype Archive = Archive(tenant: TenantId, at: int)

  datatype Action = SUPERADMIN_GRANT | TENANT_PURGE
  datatype Status = PENDING | APPROVED | REJECTED | CANCELLED | EXECUTED

  datatype Approval = Approval(
    action: Action, subject: string, maker: UserId, checker: Option<UserId>, status: Status, sole: bool, expiresAt: int)

  type Approvals = map<ApprovalId, Approval>

  /** History: who was promoted on which approval, and whether no other super-administrator was active then. */
  datatype Promotion = Promotion(user: UserId, approval: ApprovalId, alone: bool)

  /** History of the organisations: what bears on an erasure, in order. */
  datatype Entry =
    | Cleared(tenant: TenantId)
    | Removed(tenant: TenantId, at: int)
    | Purged(tenant: TenantId, at: int, request: ApprovalId, archive: nat, found: Blockers)

  datatype State = State(
    users: map<UserId, User>, tenants: map<TenantId, Tenant>, archives: seq<Archive>, approvals: Approvals,
    promotions: seq<Promotion>, log: seq<Entry>)

  datatype Policy = Policy(ttl: nat, grace: nat)

  // ── Approvals ─────────────────────────────────────────────────────────────

  predicate IsOpen(a: Approval) {
    a.status.PENDING? || a.status.APPROVED?
  }

  predicate Final(a: Approval) {
    !IsOpen(a)
  }

  predicate About(a: Approval, action: Action, subject: string) {
    a.action == action && a.subject == subject
  }

  predicate Stale(a: Approval, action: Action, subject: Option<string>, now: int) {
    a.action == action && (subject.None? || a.subject == subject.value) && IsOpen(a) && a.expiresAt <= now
  }

  function ExpireStale(approvals: Approvals, action: Action, subject: Option<string>, now: int): Approvals {
    map id | id in approvals ::
      if Stale(approvals[id], action, subject, now) then approvals[id].(status := CANCELLED) else approvals[id]
  }

  /** The open request a handler finds. */
  predicate Finds(approvals: Approvals, action: Action, subject: string, id: ApprovalId, now: int) {
    id in approvals && About(approvals[id], action, subject) && IsOpen(approvals[id]) && approvals[id].expiresAt > now
  }

  predicate HasOpen(approvals: Approvals, action: Action, subject: string, now: int) {
    exists id | id in approvals :: Finds(approvals, action, subject, id, now)
  }

  /** Conflicts leave only the stale requests lapsed. */
  predicate CanOpen(approvals: Approvals, action: Action, subject: string, id: ApprovalId, now: int) {
    id !in approvals && !HasOpen(approvals, action, subject, now)
  }

  function Open(approvals: Approvals, id: ApprovalId, a: Approval, now: int): Approvals {
    var live := ExpireStale(approvals, a.action, Some(a.subject), now);
    if CanOpen(live, a.action, a.subject, id, now) then live[id := a] else live
  }

  predicate MayDecide(approvals: Approvals, id: ApprovalId, checker: UserId, now: int) {
    && id in approvals && approvals[id].status.PENDING?
    && approvals[id].expiresAt > now && approvals[id].maker != checker
  }

  predicate MayCancel(approvals: Approvals, id: ApprovalId, actor: UserId) {
    id in approvals && IsOpen(approvals[id]) && approvals[id].maker == actor
  }

  // ── Handlers ──────────────────────────────────────────────────────────────

  datatype Event =
    | RequestGrant(actor: UserId, recent: bool, target: UserId, id: ApprovalId, now: int)
    | ApproveGrant(actor: UserId, recent: bool, id: ApprovalId, now: int)
    | Decide(actor: UserId, recent: bool, id: ApprovalId, approve: bool, reasoned: bool, now: int)
    | Cancel(actor: UserId, id: ApprovalId)
    | List(action: Action, now: int)
    | WriteArchive(actor: UserId, recent: bool, tenant: TenantId, now: int)
    | RequestPurge(actor: UserId, recent: bool, tenant: TenantId, id: ApprovalId, archive: nat, found: Blockers, now: int)
    | Purge(actor: UserId, recent: bool, tenant: TenantId, request: ApprovalId, archive: nat, found: Blockers, commits: bool, now: int)
    | Remove(tenant: TenantId, now: int)
    | SetStatus(tenant: TenantId, status: string)
    | EditStatus(tenant: TenantId, status: string)
    | ConfirmPayment(tenant: TenantId)
    | CreateTenant(tenant: TenantId, status: string)
    | SignUp(user: UserId, tenant: TenantId)
    | CreateUser(actor: UserId, recent: bool, permitted: bool, user: UserId, superadmin: bool, home: Option<TenantId>,
                 id: ApprovalId, now: int)
    | ChangeRole(actor: UserId, permitted: bool, user: UserId, superadmin: bool)
    | RemoveUser(actor: UserId, permitted: bool, user: UserId)
    | Reactivate(actor: UserId, permitted: bool, user: UserId)

  predicate ActiveSuper(users: map<UserId, User>, u: UserId) {
    u in users && users[u].superadmin && users[u].active && users[u].tenant.None?
  }

  predicate OtherSuper(users: map<UserId, User>, u: UserId) {
    exists v | v in users :: v != u && ActiveSuper(users, v)
  }

  const PROMOTED: User := User(true, None, true)

  /** The check on the numbers found. */
  predicate Unblocked(b: Blockers) {
    b.legalHolds == 0 && b.openRelationships == 0 && b.withinRetention == 0
  }

  predicate Activatable(t: Tenant, status: string) {
    status == "ACTIVE" ==> t.status != "PENDING_PAYMENT"
  }

  predicate GraceOver(p: Policy, t: Tenant, now: int) {
    t.deletedAt.Some? && t.deletedAt.value + p.grace <= now
  }

  predicate CurrentArchive(s: State, tenant: TenantId, archive: nat)
    requires tenant in s.tenants && s.tenants[tenant].deletedAt.Some?
  {
    archive < |s.archives| && s.archives[archive].tenant == tenant && s.tenants[tenant].deletedAt.value <= s.archives[archive].at
  }

  /** With no other active super-administrator, the request is recorded as already executed. */
  function GrantRequest(p: Policy, s: State, e: Event): Approval
    requires e.RequestGrant?
  {
    var sole := !OtherSuper(s.users, e.actor);
    Approval(SUPERADMIN_GRANT, e.target, e.actor, None, if sole then EXECUTED else PENDING, sole, e.now + p.ttl)
  }

  function PurgeRequest(p: Policy, e: Event): Approval
    requires e.RequestPurge?
  {
    Approval(TENANT_PURGE, e.tenant, e.actor, None, PENDING, false, e.now + p.ttl)
  }

  function RequestGrantStep(p: Policy, s: State, e: Event): State
    requires e.RequestGrant?
  {
    if !ActiveSuper(s.users, e.actor) || !e.recent || e.target !in s.users
       || (s.users[e.target].superadmin && s.users[e.target].active) then s
    else
      var a := GrantRequest(p, s, e);
      var live := ExpireStale(s.approvals, SUPERADMIN_GRANT, Some(e.target), e.now);
      var approvals := Open(s.approvals, e.id, a, e.now);
      if !a.sole || !CanOpen(live, SUPERADMIN_GRANT, e.target, e.id, e.now) then s.(approvals := approvals)
      else s.(approvals := approvals, users := s.users[e.target := PROMOTED],
              promotions := s.promotions + [Promotion(e.target, e.id, !OtherSuper(s.users, e.actor))])
  }

  /** The decision commits first; carrying it out is a second transaction, undone if the account is gone. */
  function ApproveGrantStep(s: State, e: Event): State
    requires e.ApproveGrant?
  {
    if !ActiveSuper(s.users, e.actor) || !e.recent || !MayDecide(s.approvals, e.id, e.actor, e.now) then s
    else
      var a := s.approvals[e.id].(status := APPROVED, checker := Some(e.actor));
      if a.subject !in s.users then s.(approvals := s.approvals[e.id := a])
      else s.(approvals := s.approvals[e.id := a.(status := EXECUTED)], users := s.users[a.subject := PROMOTED],
              promotions := s.promotions + [Promotion(a.subject, e.id, !OtherSuper(s.users, a.maker))])
  }

  function DecideStep(s: State, e: Event): State
    requires e.Decide?
  {
    if !ActiveSuper(s.users, e.actor) || (e.approve && !e.recent) || (!e.approve && !e.reasoned)
       || !MayDecide(s.approvals, e.id, e.actor, e.now) then s
    else
      var status := if e.approve then APPROVED else REJECTED;
      s.(approvals := s.approvals[e.id := s.approvals[e.id].(status := status, checker := Some(e.actor))])
  }

  function RequestPurgeStep(p: Policy, s: State, e: Event): State
    requires e.RequestPurge?
  {
    if !ActiveSuper(s.users, e.actor) || !e.recent || e.tenant !in s.tenants || !GraceOver(p, s.tenants[e.tenant], e.now)
       || !CurrentArchive(s, e.tenant, e.archive) || !Unblocked(e.found) || !OtherSuper(s.users, e.actor) then s
    else
      s.(approvals := Open(s.approvals, e.id, PurgeRequest(p, e), e.now))
  }

  predicate MayPurge(p: Policy, s: State, e: Event)
    requires e.Purge?
  {
    && ActiveSuper(s.users, e.actor) && e.recent && e.tenant in s.tenants && GraceOver(p, s.tenants[e.tenant], e.now)
    && Finds(s.approvals, TENANT_PURGE, e.tenant, e.request, e.now) && s.approvals[e.request].status.APPROVED?
    && CurrentArchive(s, e.tenant, e.archive) && Unblocked(e.found) && e.commits
  }

  function PurgeStep(p: Policy, s: State, e: Event): State
    requires e.Purge?
  {
    if !MayPurge(p, s, e) then s
    else
      s.(tenants := s.tenants - {e.tenant},
         users := (map u | u in s.users && s.users[u].tenant != Some(e.tenant) :: s.users[u]),
         approvals := s.approvals[e.request := s.approvals[e.request].(status := EXECUTED)],
         log := s.log + [Purged(e.tenant, e.now, e.request, e.archive, e.found)])
  }

  /** Whose account an actor may manage: anybody's for a super-administrator, otherwise their organisation's staff. */
  predicate MayManage(users: map<UserId, User>, actor: UserId, u: UserId) {
    && actor in users && users[actor].active && u in users
    && (ActiveSuper(users, actor)
        || (!users[actor].superadmin && users[actor].tenant.Some? && users[u].tenant == users[actor].tenant && !users[u].superadmin))
  }

  predicate OfUsers(e: Event) {
    e.SignUp? || e.CreateUser? || e.ChangeRole? || e.RemoveUser? || e.Reactivate?
  }

  /** An account is created in the actor's own organisation, by a super-administrator in any. */
  predicate MayCreate(s: State, e: Event)
    requires e.CreateUser?
  {
    && e.permitted && e.actor in s.users && s.users[e.actor].active && e.user !in s.users
    && if e.superadmin then ActiveSuper(s.users, e.actor) && e.home.None? && e.recent
       else if ActiveSuper(s.users, e.actor) then e.home.Some?
       else !s.users[e.actor].superadmin && s.users[e.actor].tenant.Some?
  }

  const WAITING: User := User(true, None, false)

  /** A new super-administrator's account starts inactive, and the grant is asked for at once. */
  function CreateUserStep(p: Policy, s: State, e: Event): State
    requires e.CreateUser?
  {
    if !MayCreate(s, e) then s
    else if e.superadmin then
      RequestGrantStep(p, s.(users := s.users[e.user := WAITING]), RequestGrant(e.actor, e.recent, e.user, e.id, e.now))
    else
      var tenant := if ActiveSuper(s.users, e.actor) then e.home else s.users[e.actor].tenant;
      s.(users := s.users[e.user := User(false, tenant, true)])
  }

  predicate MayChangeRole(s: State, e: Event)
    requires e.ChangeRole?
  {
    && e.permitted && MayManage(s.users, e.actor, e.user) && s.users[e.user].active
    && (e.superadmin ==> s.users[e.user].superadmin)
    && !(e.actor == e.user && s.users[e.user].superadmin && !e.superadmin)
  }

  predicate MayReactivate(s: State, e: Event)
    requires e.Reactivate?
  {
    e.permitted && MayManage(s.users, e.actor, e.user) && e.actor != e.user && !s.users[e.user].active
  }

  /** Staff accounts. Reactivating asks for no recent code and no approval. */
  function UserStep(p: Policy, s: State, e: Event): State
    requires OfUsers(e)
  {
    match e
    case SignUp(u, t) => if u in s.users then s else s.(users := s.users[u := User(false, Some(t), true)])
    case CreateUser(_, _, _, _, _, _, _, _) => CreateUserStep(p, s, e)
    case ChangeRole(_, _, u, superadmin) =>
      if !MayChangeRole(s, e) then s else s.(users := s.users[u := s.users[u].(superadmin := superadmin)])
    case RemoveUser(actor, permitted, u) =>
      if !permitted || !MayManage(s.users, actor, u) || actor == u then s
      else if ActiveSuper(s.users, actor) then s.(users := s.users - {u})
      else s.(users := s.users[u := s.users[u].(active := false)])
    case Reactivate(_, _, u) =>
      if !MayReactivate(s, e) then s else s.(users := s.users[u := s.users[u].(active := true)])
  }

  predicate OfTenants(e: Event) {
    e.Remove? || e.SetStatus? || e.EditStatus? || e.ConfirmPayment? || e.CreateTenant?
  }

  /** Erasure, suspension and reactivation. An edit that sets ACTIVE keeps the erasure date. */
  function TenantStep(s: State, e: Event): State
    requires OfTenants(e)
  {
    match e
    case Remove(t, now) =>
      if t !in s.tenants then s
      else s.(tenants := s.tenants[t := Tenant("SUSPENDED", Some(now))], log := s.log + [Removed(t, now)])
    case SetStatus(t, status) =>
      if t !in s.tenants || !Activatable(s.tenants[t], status) then s
      else if status != "ACTIVE" then s.(tenants := s.tenants[t := s.tenants[t].(status := status)])
      else s.(tenants := s.tenants[t := Tenant(status, None)], log := s.log + [Cleared(t)])
    case EditStatus(t, status) =>
      if t !in s.tenants || !Activatable(s.tenants[t], status) then s
      else s.(tenants := s.tenants[t := s.tenants[t].(status := status)])
    case ConfirmPayment(t) =>
      if t !in s.tenants then s else s.(tenants := s.tenants[t := s.tenants[t].(status := "ACTIVE")])
    case CreateTenant(t, status) =>
      if t in s.tenants then s
      else s.(tenants := s.tenants[t := Tenant(status, None)], log := s.log + [Cleared(t)])
  }

  function Apply(p: Policy, s: State, e: Event): State {
    match e
    case RequestGrant(_, _, _, _, _) => RequestGrantStep(p, s, e)
    case ApproveGrant(_, _, _, _) => ApproveGrantStep(s, e)
    case Decide(_, _, _, _, _, _) => DecideStep(s, e)
    case Cancel(actor, id) =>
      if !MayCancel(s.approvals, id, actor) then s
      else s.(approvals := s.approvals[id := s.approvals[id].(status := CANCELLED)])
    case List(action, now) => s.(approvals := ExpireStale(s.approvals, action, None, now))
    case WriteArchive(actor, recent, t, now) =>
      if ActiveSuper(s.users, actor) && recent && t in s.tenants && s.tenants[t].deletedAt.Some?
      then s.(archives := s.archives + [Archive(t, now)]) else s
    case RequestPurge(_, _, _, _, _, _, _) => RequestPurgeStep(p, s, e)
    case Purge(_, _, _, _, _, _, _, _) => PurgeStep(p, s, e)
    case SignUp(_, _) => UserStep(p, s, e)
    case CreateUser(_, _, _, _, _, _, _, _) => UserStep(p, s, e)
    case ChangeRole(_, _, _, _) => UserStep(p, s, e)
    case RemoveUser(_, _, _) => UserStep(p, s, e)
    case Reactivate(_, _, _) => UserStep(p, s, e)
    case _ => TenantStep(s, e)
  }

  function Run(p: Policy, s: State, es: seq<Event>): State
    decreases |es|
  {
    if es == [] then s else Run(p, Apply(p, s, es[0]), es[1..])
  }

  // ── Final statuses ────────────────────────────────────────────────────────

  /** Requests keep who raised them and what they are about. */
  predicate SameRequest(a: Approval, b: Approval) {
    a.action == b.action && a.subject == b.subject && a.maker == b.maker && a.sole == b.sole && a.expiresAt == b.expiresAt
  }

  /** What may happen to a request in one step: a final one stays as it is. */
  predicate Moves(before: Approvals, after: Approvals, id: ApprovalId)
    requires id in before
  {
    && id in after && SameRequest(before[id], after[id])
    && (Final(before[id]) ==> after[id] == before[id])
  }

  lemma OpenMoves(approvals: Approvals, added: ApprovalId, a: Approval, now: int, id: ApprovalId)
    requires id in approvals
    ensures Moves(approvals, Open(approvals, added, a, now), id)
  {
  }

  lemma CreateMoves(p: Policy, s: State, e: Event, id: ApprovalId)
    requires id in s.approvals && e.CreateUser?
    ensures Moves(s.approvals, CreateUserStep(p, s, e).approvals, id)
  {
    var asked := RequestGrant(e.actor, e.recent, e.user, e.id, e.now);
    OpenMoves(s.approvals, e.id, GrantRequest(p, s.(users := s.users[e.user := WAITING]), asked), e.now, id);
  }

  lemma StepMoves(p: Policy, s: State, e: Event, id: ApprovalId)
    requires id in s.approvals
    ensures Moves(s.approvals, Apply(p, s, e).approvals, id)
  {
    if e.RequestGrant? {
      OpenMoves(s.approvals, e.id, GrantRequest(p, s, e), e.now, id);
    } else if e.CreateUser? {
      CreateMoves(p, s, e, id);
    } else if e.RequestPurge? {
      OpenMoves(s.approvals, e.id, PurgeRequest(p, e), e.now, id);
    }
  }

  /** REJECTED, EXECUTED and CANCELLED are never left, and such a request never changes again. */
  lemma {:induction false} FinalForGood(p: Policy, s: State, es: seq<Event>, id: ApprovalId)
    requires id in s.approvals && Final(s.approvals[id])
    ensures id in Run(p, s, es).approvals && Run(p, s, es).approvals[id] == s.approvals[id]
    decreases |es|
  {
    if es != [] {
      StepMoves(p, s, es[0], id);
      FinalForGood(p, Apply(p, s, es[0]), es[1..], id);
    }
  }

  // ── The invariant ─────────────────────────────────────────────────────────

  /** Nobody checks their own request, and only a sole grant goes without a checker. */
  predicate TwoPeople(a: Approval) {
    && (a.checker.Some? ==> a.checker.value != a.maker)
    && (a.status.APPROVED? || a.status.EXECUTED? ==> a.checker.Some? || a.sole)
    && (a.sole ==> a.action.SUPERADMIN_GRANT? && a.status.EXECUTED?)
  }

  ghost predicate AllTwoPeople(approvals: Approvals) {
    forall id | id in approvals :: TwoPeople(approvals[id])
  }

  ghost predicate OneOpen(approvals: Approvals) {
    forall a, b | a in approvals && b in approvals && IsOpen(approvals[a]) && IsOpen(approvals[b]) ::
      approvals[a].action == approvals[b].action && approvals[a].subject == approvals[b].subject ==> a == b
  }

  /** A promotion rests on an executed request for that account, by two people or by one who was alone. */
  predicate Backed(approvals: Approvals, m: Promotion) {
    && m.approval in approvals && approvals[m.approval].status.EXECUTED? && approvals[m.approval].subject == m.user
    && (approvals[m.approval].sole ==> m.alone)
  }

  ghost predicate PromotionsBacked(approvals: Approvals, promotions: seq<Promotion>) {
    && (forall i | 0 <= i < |promotions| :: Backed(approvals, promotions[i]))
    && forall i, j | 0 <= i < j < |promotions| :: promotions[i].approval != promotions[j].approval
  }

  /** The erasure date in force: of the last removal, unless a reactivation came after it. */
  function ErasedAt(log: seq<Entry>, t: TenantId): Option<int> {
    if log == [] then None
    else
      var last := log[|log| - 1];
      if last.tenant != t || last.Purged? then ErasedAt(log[..|log| - 1], t)
      else if last.Removed? then Some(last.at) else None
  }

  /** What must hold of a purge at the point of the log where it happened. */
  ghost predicate Justified(p: Policy, approvals: Approvals, archives: seq<Archive>, log: seq<Entry>, k: nat)
    requires k < |log| && log[k].Purged?
  {
    var e := log[k];
    var erased := ErasedAt(log[..k], e.tenant);
    && erased.Some? && erased.value + p.grace <= e.at
    && e.archive < |archives| && archives[e.archive].tenant == e.tenant && erased.value <= archives[e.archive].at
    && e.request in approvals && var a := approvals[e.request];
    && a.action.TENANT_PURGE? && a.subject == e.tenant && a.status.EXECUTED? && e.at < a.expiresAt
    && a.checker.Some? && a.checker.value != a.maker && Unblocked(e.found)
  }

  ghost predicate PurgesJustified(p: Policy, s: State) {
    forall k | 0 <= k < |s.log| && s.log[k].Purged? :: Justified(p, s.approvals, s.archives, s.log, k)
  }

  ghost predicate ErasuresLogged(tenants: map<TenantId, Tenant>, log: seq<Entry>) {
    forall t | t in tenants :: tenants[t].deletedAt == ErasedAt(log, t)
  }

  ghost predicate Inv(p: Policy, s: State) {
    && AllTwoPeople(s.approvals) && OneOpen(s.approvals)
    && PromotionsBacked(s.approvals, s.promotions)
    && PurgesJustified(p, s) && ErasuresLogged(s.tenants, s.log)
  }

  // ── Each part is kept ─────────────────────────────────────────────────────

  lemma NothingOpens(before: Approvals, after: Approvals)
    requires OneOpen(before) && after.Keys == before.Keys
    requires forall id | id in before :: SameRequest(before[id], after[id]) && (IsOpen(after[id]) ==> IsOpen(before[id]))
    ensures OneOpen(after)
  {
  }

  /** After the stale requests have lapsed, a request that is not found is not open at all. */
  lemma OpenKeepsOneOpen(approvals: Approvals, id: ApprovalId, a: Approval, now: int)
    requires OneOpen(approvals) && AllTwoPeople(approvals) && TwoPeople(a)
    ensures OneOpen(Open(approvals, id, a, now)) && AllTwoPeople(Open(approvals, id, a, now))
  {
    var live := ExpireStale(approvals, a.action, Some(a.subject), now);
    NothingOpens(approvals, live);
    if CanOpen(live, a.action, a.subject, id, now) {
      forall b | b in live && IsOpen(live[b]) && About(live[b], a.action, a.subject)
        ensures false
      {
        assert Finds(live, a.action, a.subject, b, now);
      }
    }
  }

  lemma DecisionKeeps(approvals: Approvals, id: ApprovalId, b: Approval)
    requires OneOpen(approvals) && AllTwoPeople(approvals) && id in approvals && IsOpen(approvals[id])
    requires SameRequest(approvals[id], b) && TwoPeople(b)
    ensures OneOpen(approvals[id := b]) && AllTwoPeople(approvals[id := b])
  {
    NothingOpens(approvals, approvals[id := b]);
  }

  lemma GrantRequestKeepsApprovals(p: Policy, s: State, e: Event)
    requires OneOpen(s.approvals) && AllTwoPeople(s.approvals) && e.RequestGrant?
    ensures OneOpen(RequestGrantStep(p, s, e).approvals) && AllTwoPeople(RequestGrantStep(p, s, e).approvals)
  {
    OpenKeepsOneOpen(s.approvals, e.id, GrantRequest(p, s, e), e.now);
  }

  lemma ListKeepsApprovals(approvals: Approvals, action: Action, now: int)
    requires OneOpen(approvals) && AllTwoPeople(approvals)
    ensures OneOpen(ExpireStale(approvals, action, None, now)) && AllTwoPeople(ExpireStale(approvals, action, None, now))
  {
    NothingOpens(approvals, ExpireStale(approvals, action, None, now));
  }

  lemma ApproveKeepsApprovals(p: Policy, s: State, e: Event)
    requires OneOpen(s.approvals) && AllTwoPeople(s.approvals) && e.ApproveGrant?
    ensures OneOpen(Apply(p, s, e).approvals) && AllTwoPeople(Apply(p, s, e).approvals)
  {
    if MayDecide(s.approvals, e.id, e.actor, e.now) {
      var a := s.approvals[e.id].(status := APPROVED, checker := Some(e.actor));
      DecisionKeeps(s.approvals, e.id, a);
      DecisionKeeps(s.approvals, e.id, a.(status := EXECUTED));
    }
  }

  lemma OneChangeKeepsApprovals(p: Policy, s: State, e: Event)
    requires OneOpen(s.approvals) && AllTwoPeople(s.approvals)
    requires !e.RequestGrant? && !e.CreateUser? && !e.RequestPurge? && !e.ApproveGrant? && !e.List?
    ensures OneOpen(Apply(p, s, e).approvals) && AllTwoPeople(Apply(p, s, e).approvals)
  {
    match e
    case Decide(actor, _, id, approve, _, now) =>
      if MayDecide(s.approvals, id, actor, now) {
        DecisionKeeps(s.approvals, id, s.approvals[id].(status := if approve then APPROVED else REJECTED, checker := Some(actor)));
      }
    case Cancel(actor, id) =>
      if MayCancel(s.approvals, id, actor) {
        DecisionKeeps(s.approvals, id, s.approvals[id].(status := CANCELLED));
      }
    case Purge(_, _, _, request, _, _, _, _) =>
      if MayPurge(p, s, e) {
        DecisionKeeps(s.approvals, request, s.approvals[request].(status := EXECUTED));
      }
    case _ =>
  }

  lemma StepKeepsApprovals(p: Policy, s: State, e: Event)
    requires OneOpen(s.approvals) && AllTwoPeople(s.approvals)
    ensures OneOpen(Apply(p, s, e).approvals) && AllTwoPeople(Apply(p, s, e).approvals)
  {
    match e
    case RequestGrant(_, _, _, _, _) => GrantRequestKeepsApprovals(p, s, e);
    case CreateUser(actor, recent, _, u, _, _, id, now) =>
      GrantRequestKeepsApprovals(p, s.(users := s.users[u := WAITING]), RequestGrant(actor, recent, u, id, now));
    case RequestPurge(_, _, _, _, _, _, _) => OpenKeepsOneOpen(s.approvals, e.id, PurgeRequest(p, e), e.now);
    case ApproveGrant(_, _, _, _) => ApproveKeepsApprovals(p, s, e);
    case List(action, now) => ListKeepsApprovals(s.approvals, action, now);
    case _ => OneChangeKeepsApprovals(p, s, e);
  }

  lemma StepKeepsPromotions(p: Policy, s: State, e: Event)
    requires PromotionsBacked(s.approvals, s.promotions) && AllTwoPeople(s.approvals)
    ensures PromotionsBacked(Apply(p, s, e).approvals, Apply(p, s, e).promotions)
  {
    var t := Apply(p, s, e);
    forall i | 0 <= i < |s.promotions|
      ensures Backed(t.approvals, s.promotions[i])
    {
      assert Backed(s.approvals, s.promotions[i]);
      StepMoves(p, s, e, s.promotions[i].approval);
    }
    if t.promotions != s.promotions {
      NewPromotion(p, s, e);
    }
  }

  /** A promotion is made on a request no earlier promotion used. */
  lemma NewPromotion(p: Policy, s: State, e: Event)
    requires Apply(p, s, e).promotions != s.promotions && AllTwoPeople(s.approvals)
    ensures var t := Apply(p, s, e);
            && |t.promotions| == |s.promotions| + 1 && t.promotions[..|s.promotions|] == s.promotions
            && var m := t.promotions[|s.promotions|];
            && Backed(t.approvals, m)
            && (m.approval in s.approvals ==> IsOpen(s.approvals[m.approval]))
  {
    assert e.RequestGrant? || e.ApproveGrant? || e.CreateUser?;
  }

  lemma JustifiedStays(p: Policy, s: State, e: Event, k: nat)
    requires k < |s.log| && s.log[k].Purged? && Justified(p, s.approvals, s.archives, s.log, k)
    ensures var t := Apply(p, s, e);
            k < |t.log| && t.log[k] == s.log[k] && Justified(p, t.approvals, t.archives, t.log, k)
  {
    StepMoves(p, s, e, s.log[k].request);
    LogGrows(p, s, e);
    var t := Apply(p, s, e);
    assert t.log[..k] == s.log[..k];
  }

  lemma LogGrows(p: Policy, s: State, e: Event)
    ensures s.log <= Apply(p, s, e).log && |Apply(p, s, e).log| <= |s.log| + 1
    ensures s.archives <= Apply(p, s, e).archives
    ensures |Apply(p, s, e).log| > |s.log| && Apply(p, s, e).log[|s.log|].Purged? ==> e.Purge? && MayPurge(p, s, e)
  {
  }

  lemma NewPurge(p: Policy, s: State, e: Event)
    requires Inv(p, s) && e.Purge? && MayPurge(p, s, e)
    ensures var t := Apply(p, s, e); Justified(p, t.approvals, t.archives, t.log, |s.log|)
  {
    var t := Apply(p, s, e);
    assert t.log[..|s.log|] == s.log;
    assert TwoPeople(s.approvals[e.request]);
  }

  lemma StepKeepsPurges(p: Policy, s: State, e: Event)
    requires Inv(p, s)
    ensures PurgesJustified(p, Apply(p, s, e))
  {
    var t := Apply(p, s, e);
    LogGrows(p, s, e);
    forall k | 0 <= k < |t.log| && t.log[k].Purged?
      ensures Justified(p, t.approvals, t.archives, t.log, k)
    {
      if k < |s.log| {
        JustifiedStays(p, s, e, k);
      } else {
        NewPurge(p, s, e);
      }
    }
  }

  lemma ErasedAtAfter(log: seq<Entry>, e: Entry, t: TenantId)
    ensures ErasedAt(log + [e], t) ==
            if e.tenant != t || e.Purged? then ErasedAt(log, t) else if e.Removed? then Some(e.at) else None
  {
    assert (log + [e])[..|log|] == log;
  }

  /** One more entry about `t`, and the erasure date it says. */
  lemma EntryKeepsErasures(before: map<TenantId, Tenant>, after: map<TenantId, Tenant>, log: seq<Entry>, e: Entry)
    requires ErasuresLogged(before, log) && !e.Purged?
    requires forall t | t in after :: if t == e.tenant then after[t].deletedAt == (if e.Removed? then Some(e.at) else None)
                                      else t in before && after[t] == before[t]
    ensures ErasuresLogged(after, log + [e])
  {
    forall t | t in after
      ensures after[t].deletedAt == ErasedAt(log + [e], t)
    {
      ErasedAtAfter(log, e, t);
    }
  }

  lemma TenantStepKeepsErasures(s: State, e: Event)
    requires ErasuresLogged(s.tenants, s.log) && OfTenants(e)
    ensures ErasuresLogged(TenantStep(s, e).tenants, TenantStep(s, e).log)
  {
    var u := TenantStep(s, e);
    if e.Remove? && e.tenant in s.tenants {
      EntryKeepsErasures(s.tenants, u.tenants, s.log, Removed(e.tenant, e.now));
    } else if u.log != s.log {
      EntryKeepsErasures(s.tenants, u.tenants, s.log, Cleared(e.tenant));
    }
  }

  lemma PurgeKeepsErasures(p: Policy, s: State, e: Event)
    requires ErasuresLogged(s.tenants, s.log) && e.Purge?
    ensures ErasuresLogged(PurgeStep(p, s, e).tenants, PurgeStep(p, s, e).log)
  {
    forall t | t in PurgeStep(p, s, e).tenants && MayPurge(p, s, e)
      ensures ErasedAt(PurgeStep(p, s, e).log, t) == ErasedAt(s.log, t)
    {
      ErasedAtAfter(s.log, Purged(e.tenant, e.now, e.request, e.archive, e.found), t);
    }
  }

  lemma OthersLeaveTenants(p: Policy, s: State, e: Event)
    requires !OfTenants(e) && !e.Purge?
    ensures Apply(p, s, e).tenants == s.tenants && Apply(p, s, e).log == s.log
  {
  }

  lemma StepKeepsErasures(p: Policy, s: State, e: Event)
    requires ErasuresLogged(s.tenants, s.log)
    ensures ErasuresLogged(Apply(p, s, e).tenants, Apply(p, s, e).log)
  {
    if OfTenants(e) {
      TenantStepKeepsErasures(s, e);
    } else if e.Purge? {
      PurgeKeepsErasures(p, s, e);
    } else {
      OthersLeaveTenants(p, s, e);
    }
  }

  lemma StepKeepsInv(p: Policy, s: State, e: Event)
    requires Inv(p, s)
    ensures Inv(p, Apply(p, s, e))
  {
    StepKeepsApprovals(p, s, e);
    StepKeepsPromotions(p, s, e);
    StepKeepsPurges(p, s, e);
    StepKeepsErasures(p, s, e);
  }

  /**
   * Over any run: promotions map injectively to executed requests for that account, decided by two
   * people or made by one who was alone; and every purge came a grace period after the last removal
   * of that organisation, with no reactivation in between, an archive written since that removal, and
   * an unexpired purge request for it that a second person had approved.
   */
  lemma {:induction false} RunKeepsInv(p: Policy, s: State, es: seq<Event>)
    requires Inv(p, s)
    ensures Inv(p, Run(p, s, es))
    decreases |es|
  {
    if es != [] {
      StepKeepsInv(p, s, es[0]);
      RunKeepsInv(p, Apply(p, s, es[0]), es[1..]);
    }
  }

  /** The erasure date in force is that of a removal with no reactivation, and no other removal, after it. */
  lemma {:induction false} ErasedAtMeans(log: seq<Entry>, t: TenantId)
    requires ErasedAt(log, t).Some?
    ensures exists i :: 0 <= i < |log| && log[i] == Removed(t, ErasedAt(log, t).value)
              && forall j | i < j < |log| && log[j].tenant == t :: log[j].Purged?
    decreases |log|
  {
    var n := |log| - 1;
    if log[n].tenant != t || log[n].Purged? {
      ErasedAtMeans(log[..n], t);
      var i :| 0 <= i < n && log[..n][i] == Removed(t, ErasedAt(log, t).value)
               && forall j | i < j < n && log[..n][j].tenant == t :: log[..n][j].Purged?;
      assert log[i] == Removed(t, ErasedAt(log, t).value);
    }
  }

  /** A platform with no requests yet and no erasure pending. */
  ghost predicate Initial(s: State) {
    && s.approvals == map[] && s.promotions == [] && s.log == []
    && forall t | t in s.tenants :: s.tenants[t].deletedAt.None?
  }

  /** `orgs` are the ids of organisations, past and to come: no account has one of them. */
  ghost predicate Apart(orgs: set<string>, s: State) {
    && s.tenants.Keys <= orgs && s.users.Keys !! orgs
    && forall id | id in s.approvals && s.approvals[id].action.TENANT_PURGE? :: s.approvals[id].subject in orgs
  }

  predicate ApartEvent(orgs: set<string>, e: Event) {
    && (e.CreateTenant? ==> e.tenant in orgs)
    && (e.CreateUser? || e.SignUp? ==> e.user !in orgs)
  }

  ghost predicate OnGrants(approvals: Approvals, promotions: seq<Promotion>) {
    forall i | 0 <= i < |promotions| ::
      promotions[i].approval in approvals && approvals[promotions[i].approval].action.SUPERADMIN_GRANT?
  }

  lemma StepKeepsApart(p: Policy, orgs: set<string>, s: State, e: Event)
    requires Apart(orgs, s) && ApartEvent(orgs, e)
    ensures Apart(orgs, Apply(p, s, e))
  {
    var t := Apply(p, s, e);
    StepKeepsNames(p, orgs, s, e);
    forall id | id in t.approvals && t.approvals[id].action.TENANT_PURGE?
      ensures t.approvals[id].subject in orgs
    {
      if id in s.approvals {
        StepMoves(p, s, e, id);
      } else {
        assert e.RequestPurge? ==> e.tenant in s.tenants;
      }
    }
  }

  lemma StepKeepsNames(p: Policy, orgs: set<string>, s: State, e: Event)
    requires s.tenants.Keys <= orgs && s.users.Keys !! orgs && ApartEvent(orgs, e)
    requires forall id | id in s.approvals && s.approvals[id].action.TENANT_PURGE? :: s.approvals[id].subject in orgs
    ensures Apply(p, s, e).tenants.Keys <= orgs && Apply(p, s, e).users.Keys !! orgs
  {
  }

  lemma StepKeepsOnGrants(p: Policy, orgs: set<string>, s: State, e: Event)
    requires Apart(orgs, s) && OnGrants(s.approvals, s.promotions)
    ensures OnGrants(Apply(p, s, e).approvals, Apply(p, s, e).promotions)
  {
    forall i | 0 <= i < |s.promotions|
      ensures Moves(s.approvals, Apply(p, s, e).approvals, s.promotions[i].approval)
    {
      StepMoves(p, s, e, s.promotions[i].approval);
    }
  }

  /** The door for grants does not look at what a request is for; that ids do not clash keeps purges from promoting. */
  lemma {:induction false} RunKeepsOnGrants(p: Policy, orgs: set<string>, s: State, es: seq<Event>)
    requires Apart(orgs, s) && OnGrants(s.approvals, s.promotions)
    requires forall i | 0 <= i < |es| :: ApartEvent(orgs, es[i])
    ensures OnGrants(Run(p, s, es).approvals, Run(p, s, es).promotions)
    decreases |es|
  {
    if es != [] {
      StepKeepsApart(p, orgs, s, es[0]);
      StepKeepsOnGrants(p, orgs, s, es[0]);
      RunKeepsOnGrants(p, orgs, Apply(p, s, es[0]), es[1..]);
    }
  }

  /**
   * Promotions, read off the whole run: each on its own executed grant request for that account, by
   * two people or by one who was alone.
   */
  lemma PromotionsAreBacked(p: Policy, s: State, es: seq<Event>, orgs: set<string>, i: nat, j: nat)
    requires Initial(s) && i < |Run(p, s, es).promotions| && j < |Run(p, s, es).promotions|
    requires Apart(orgs, s) && forall k | 0 <= k < |es| :: ApartEvent(orgs, es[k])
    ensures var end := Run(p, s, es);
            var m := end.promotions[i];
            && (i != j ==> m.approval != end.promotions[j].approval)
            && m.approval in end.approvals
            && var a := end.approvals[m.approval];
               && a.status.EXECUTED? && a.action.SUPERADMIN_GRANT? && a.subject == m.user
               && ((a.checker.Some? && a.checker.value != a.maker) || (a.sole && m.alone))
  {
    RunKeepsInv(p, s, es);
    RunKeepsOnGrants(p, orgs, s, es);
    var end := Run(p, s, es);
    assert Backed(end.approvals, end.promotions[i]);
    assert TwoPeople(end.approvals[end.promotions[i].approval]);
  }

  /** A purge, read off the whole run: the removal it follows, and the two people behind it. */
  lemma PurgeFollowsRemoval(p: Policy, s: State, es: seq<Event>, k: nat)
    requires Initial(s) && k < |Run(p, s, es).log| && Run(p, s, es).log[k].Purged?
    ensures var end := Run(p, s, es);
            var purge := end.log[k];
            exists i :: 0 <= i < k && end.log[i].Removed? && end.log[i].tenant == purge.tenant
              && end.log[i].at + p.grace <= purge.at
              && (forall j | i < j < k && end.log[j].tenant == purge.tenant :: end.log[j].Purged?)
              && purge.archive < |end.archives| && end.archives[purge.archive].tenant == purge.tenant
              && end.log[i].at <= end.archives[purge.archive].at
    ensures var end := Run(p, s, es);
            var purge := end.log[k];
            && purge.request in end.approvals && About(end.approvals[purge.request], TENANT_PURGE, purge.tenant)
            && end.approvals[purge.request].checker.Some?
            && end.approvals[purge.request].checker.value != end.approvals[purge.request].maker
            && purge.at < end.approvals[purge.request].expiresAt
    ensures forall r, today | Meaning(r, today, Run(p, s, es).log[k].found) :: Allowed(r, today)
  {
    RunKeepsInv(p, s, es);
    var end := Run(p, s, es);
    var purge := end.log[k];
    assert Justified(p, end.approvals, end.archives, end.log, k);
    ErasedAtMeans(end.log[..k], purge.tenant);
    var i :| 0 <= i < k && end.log[..k][i] == Removed(purge.tenant, ErasedAt(end.log[..k], purge.tenant).value)
             && forall j | i < j < k && end.log[..k][j].tenant == purge.tenant :: end.log[..k][j].Purged?;
    assert end.log[i] == end.log[..k][i];
    assert forall j | i < j < k :: end.log[j] == end.log[..k][j];
  }

  // ── Who is a super-administrator ──────────────────────────────────────────

  /**
   * The guard of a grant's execution: an approval by somebody else, or a request, for an account that
   * is there or for a new one, by a requester who is alone.
   */
  predicate Promotes(s: State, e: Event, u: UserId) {
    match e
    case RequestGrant(actor, recent, target, id, now) =>
      && target == u && ActiveSuper(s.users, actor) && recent && u in s.users && !(s.users[u].superadmin && s.users[u].active)
      && !OtherSuper(s.users, actor) && CanOpen(s.approvals, SUPERADMIN_GRANT, u, id, now)
    case ApproveGrant(actor, recent, id, now) =>
      && ActiveSuper(s.users, actor) && recent && MayDecide(s.approvals, id, actor, now)
      && s.approvals[id].subject == u && u in s.users
    case CreateUser(actor, _, _, user, superadmin, _, id, now) =>
      && user == u && superadmin && MayCreate(s, e)
      && !OtherSuper(s.users, actor) && CanOpen(s.approvals, SUPERADMIN_GRANT, u, id, now)
    case _ => false
  }

  /** Letting stale requests lapse makes no difference to whether a new one can be opened. */
  lemma StaleOnesDoNotCount(approvals: Approvals, action: Action, subject: string, id: ApprovalId, now: int)
    ensures CanOpen(ExpireStale(approvals, action, Some(subject), now), action, subject, id, now)
            <==> CanOpen(approvals, action, subject, id, now)
  {
    var live := ExpireStale(approvals, action, Some(subject), now);
    forall b | b in approvals
      ensures Finds(live, action, subject, b, now) <==> Finds(approvals, action, subject, b, now)
    {
    }
  }

  /** A super-administrator's account, made inactive or never activated, is activated by another one alone. */
  predicate Revives(s: State, e: Event, u: UserId) {
    && e.Reactivate? && e.permitted && e.user == u && e.actor != u && ActiveSuper(s.users, e.actor)
    && u in s.users && s.users[u].superadmin && s.users[u].tenant.None? && !s.users[u].active
  }

  /** The two ways to become an active super-administrator, and no other, by what holds before the step. */
  lemma BecomesSuperExactly(p: Policy, s: State, e: Event, u: UserId)
    requires !ActiveSuper(s.users, u)
    ensures ActiveSuper(Apply(p, s, e).users, u) <==> Promotes(s, e, u) || Revives(s, e, u)
  {
    if e.RequestGrant? {
      StaleOnesDoNotCount(s.approvals, SUPERADMIN_GRANT, e.target, e.id, e.now);
    } else if e.CreateUser? {
      CreatedSuperExactly(p, s, e, u);
    } else if OfTenants(e) {
      assert Apply(p, s, e).users == s.users;
    }
  }

  lemma CreatedSuperExactly(p: Policy, s: State, e: Event, u: UserId)
    requires e.CreateUser? && !ActiveSuper(s.users, u)
    ensures ActiveSuper(CreateUserStep(p, s, e).users, u) <==> Promotes(s, e, u)
  {
    if MayCreate(s, e) {
      StaleOnesDoNotCount(s.approvals, SUPERADMIN_GRANT, e.user, e.id, e.now);
      WaitingIsNoOther(s.users, e.user, e.actor);
    }
  }

  lemma WaitingIsNoOther(users: map<UserId, User>, u: UserId, actor: UserId)
    requires u !in users || !ActiveSuper(users, u)
    ensures OtherSuper(users[u := WAITING], actor) <==> OtherSuper(users, actor)
  {
    forall v | v in users && ActiveSuper(users, v)
      ensures ActiveSuper(users[u := WAITING], v)
    {
    }
  }

  /** A grant's execution is put on record. */
  lemma PromotionIsRecorded(p: Policy, s: State, e: Event, u: UserId)
    requires Promotes(s, e, u)
    ensures var t := Apply(p, s, e);
            |t.promotions| == |s.promotions| + 1 && t.promotions[|s.promotions|].user == u
  {
    if e.RequestGrant? {
      StaleOnesDoNotCount(s.approvals, SUPERADMIN_GRANT, e.target, e.id, e.now);
    } else if e.CreateUser? {
      StaleOnesDoNotCount(s.approvals, SUPERADMIN_GRANT, e.user, e.id, e.now);
      WaitingIsNoOther(s.users, e.user, e.actor);
    }
  }

  lemma PromotionsGrow(p: Policy, s: State, e: Event)
    ensures s.promotions <= Apply(p, s, e).promotions
  {
  }

  /**
   * Every super-administrator of the end was one before, was promoted on the way, or was reactivated
   * on the way by another active super-administrator.
   */
  lemma {:induction false} SupersArePromotedOrRevived(p: Policy, s: State, es: seq<Event>, u: UserId)
    requires ActiveSuper(Run(p, s, es).users, u)
    ensures s.promotions <= Run(p, s, es).promotions
    ensures || ActiveSuper(s.users, u)
            || (exists i :: |s.promotions| <= i < |Run(p, s, es).promotions| && Run(p, s, es).promotions[i].user == u)
            || (exists i :: 0 <= i < |es| && Revives(Run(p, s, es[..i]), es[i], u))
    decreases |es|
  {
    if es != [] {
      var t := Apply(p, s, es[0]);
      SupersArePromotedOrRevived(p, t, es[1..], u);
      PromotionsGrow(p, s, es[0]);
      if ActiveSuper(t.users, u) {
        if !ActiveSuper(s.users, u) {
          BecomesSuperExactly(p, s, es[0], u);
          assert es[..0] == [] && Run(p, s, es[..0]) == s;
          if Promotes(s, es[0], u) {
            PromotionIsRecorded(p, s, es[0], u);
            assert Run(p, s, es).promotions[|s.promotions|].user == u;
          }
        }
      } else if exists i :: 0 <= i < |es| - 1 && Revives(Run(p, t, es[1..][..i]), es[1..][i], u) {
        var i :| 0 <= i < |es| - 1 && Revives(Run(p, t, es[1..][..i]), es[1..][i], u);
        assert es[..i + 1][1..] == es[1..][..i] && es[..i + 1][0] == es[0];
        assert Revives(Run(p, s, es[..i + 1]), es[i + 1], u);
      }
    }
  }

  /**
   * Two-person control over super-administrators does not hold of the code: where a second one is
   * active, so that a grant needs an approval, one of them creates an account and activates it alone.
   */
  lemma OneSuperMakesAnother(p: Policy, s: State, actor: UserId, u: UserId, id: ApprovalId, now: int)
    requires ActiveSuper(s.users, actor) && OtherSuper(s.users, actor) && u !in s.users
    ensures var end := Run(p, s, [CreateUser(actor, true, true, u, true, None, id, now), Reactivate(actor, true, u)]);
            && ActiveSuper(end.users, u) && end.promotions == s.promotions
            && forall r | r in end.approvals && About(end.approvals[r], SUPERADMIN_GRANT, u) && r !in s.approvals ::
                 end.approvals[r].status.PENDING? && end.approvals[r].checker.None?
  {
    var made := CreateUser(actor, true, true, u, true, None, id, now);
    var again := Reactivate(actor, true, u);
    var mid := Apply(p, s, made);
    CreatedWaits(p, s, made);
    assert [made, again][1..] == [again] && [again][1..] == [];
    assert Run(p, s, [made, again]) == Run(p, mid, [again]) == Apply(p, mid, again);
  }

  /** With a second super-administrator active, a new one's account waits for the approval. */
  lemma CreatedWaits(p: Policy, s: State, e: Event)
    requires e.CreateUser? && e.superadmin && MayCreate(s, e) && OtherSuper(s.users, e.actor)
    ensures var t := Apply(p, s, e);
            && t.users == s.users[e.user := WAITING] && t.promotions == s.promotions
            && forall r | r in t.approvals && r !in s.approvals ::
                 t.approvals[r].status.PENDING? && t.approvals[r].checker.None?
  {
    var v :| v in s.users && v != e.actor && ActiveSuper(s.users, v);
    assert ActiveSuper(s.users[e.user := WAITING], v);
  }

  // ── What ends an erasure ──────────────────────────────────────────────────

  /**
   * Only a reactivation withdraws an erasure, and only a purge carries it out: over any run with
   * neither, an organisation waiting to be erased still is, whatever edits and payments set its
   * status to.
   */
  lemma {:induction false} ErasureStands(p: Policy, s: State, es: seq<Event>, t: TenantId)
    requires t in s.tenants && s.tenants[t].deletedAt.Some?
    requires forall i | 0 <= i < |es| :: es[i] != SetStatus(t, "ACTIVE") && !(es[i].Purge? && es[i].tenant == t)
    ensures t in Run(p, s, es).tenants && Run(p, s, es).tenants[t].deletedAt.Some?
    ensures (forall i | 0 <= i < |es| :: !es[i].Remove?) ==> Run(p, s, es).tenants[t].deletedAt == s.tenants[t].deletedAt
    decreases |es|
  {
    if es != [] {
      StepErases(p, s, es[0], t);
      ErasureStands(p, Apply(p, s, es[0]), es[1..], t);
    }
  }

  lemma StepErases(p: Policy, s: State, e: Event, t: TenantId)
    requires t in s.tenants && s.tenants[t].deletedAt.Some?
    requires e != SetStatus(t, "ACTIVE") && !(e.Purge? && e.tenant == t)
    ensures var u := Apply(p, s, e);
            t in u.tenants && u.tenants[t].deletedAt.Some? && (!e.Remove? ==> u.tenants[t].deletedAt == s.tenants[t].deletedAt)
  {
    if !OfTenants(e) && !e.Purge? {
      OthersLeaveTenants(p, s, e);
    }
  }

  // ── The services over the shared tables ───────────────────────────────────

  // How contracts speak of the tables, without the handlers' own checks.

  /** An active super-administrator, outside every organisation. */
  predicate IsSuper(users: map<UserId, User>, u: UserId) {
    u in users && users[u] == User(true, None, true)
  }

  ghost predicate HasAnother(users: map<UserId, User>, u: UserId) {
    exists v :: v != u && IsSuper(users, v)
  }

  /** No unexpired request of this kind for this subject waits or stands approved. */
  ghost predicate NoneOpen(approvals: Approvals, action: Action, subject: string, now: int) {
    forall a | a in approvals && approvals[a].action == action && approvals[a].subject == subject && now < approvals[a].expiresAt ::
      approvals[a].status !in {PENDING, APPROVED}
  }

  /** A request of this kind (for this subject, if one is named) that waited or stood approved until it expired is cancelled. */
  function Lapsed(a: Approval, action: Action, subject: Option<string>, now: int): Approval {
    if a.action == action && subject in {None, Some(a.subject)} && a.status in {PENDING, APPROVED} && a.expiresAt <= now
    then a.(status := CANCELLED) else a
  }

  ghost predicate AllLapsed(before: Approvals, after: Approvals, action: Action, subject: Option<string>, now: int) {
    forall a | a in before :: a in after && after[a] == Lapsed(before[a], action, subject, now)
  }

  predicate MayErase(p: Policy, tenants: map<TenantId, Tenant>, tenant: TenantId, now: int) {
    tenant in tenants && tenants[tenant].deletedAt.Some? && tenants[tenant].deletedAt.value <= now - p.grace
  }

  /** The archive is of that organisation and no older than its removal. */
  predicate Archived(tenants: map<TenantId, Tenant>, archives: seq<Archive>, tenant: TenantId, archive: nat)
    requires tenant in tenants && tenants[tenant].deletedAt.Some?
  {
    && archive < |archives| && archives[archive].tenant == tenant
    && archives[archive].at >= tenants[tenant].deletedAt.value
  }

  predicate NoNumbers(b: Blockers) {
    b.legalHolds == b.openRelationships == b.withinRetention == 0
  }

  /** A super-administrator may manage any account, staff only accounts of their own organisation. */
  predicate Manages(users: map<UserId, User>, actor: UserId, u: UserId) {
    && actor in users && u in users
    && (IsSuper(users, actor)
        || (users[actor].active && !users[actor].superadmin && !users[u].superadmin
            && users[actor].tenant == users[u].tenant != None))
  }

  predicate MayCheck(approvals: Approvals, id: ApprovalId, checker: UserId, now: int) {
    id in approvals && approvals[id].status == PENDING && now < approvals[id].expiresAt && approvals[id].maker != checker
  }

  datatype Refusal = NotAllowed | NotPending | NoAccount | NotErasable | NotApproved | Blocked | Failed

  lemma SuperIs(users: map<UserId, User>, u: UserId)
    ensures ActiveSuper(users, u) <==> IsSuper(users, u)
    ensures OtherSuper(users, u) <==> HasAnother(users, u)
  {
    if HasAnother(users, u) {
      var v :| v != u && IsSuper(users, v);
      assert ActiveSuper(users, v);
    }
    if OtherSuper(users, u) {
      var v :| v in users && v != u && ActiveSuper(users, v);
      assert IsSuper(users, v);
    }
  }

  /** A handler that first lets stale requests lapse finds one still open exactly when there was one. */
  lemma LapseIs(approvals: Approvals, action: Action, subject: string, now: int)
    ensures var live := ExpireStale(approvals, action, Some(subject), now);
            && live.Keys == approvals.Keys && AllLapsed(approvals, live, action, Some(subject), now)
            && (HasOpen(live, action, subject, now) <==> !NoneOpen(approvals, action, subject, now))
  {
    var live := ExpireStale(approvals, action, Some(subject), now);
    forall b | b in approvals
      ensures Finds(live, action, subject, b, now) <==>
              About(approvals[b], action, subject) && now < approvals[b].expiresAt && approvals[b].status in {PENDING, APPROVED}
      ensures live[b] == Lapsed(approvals[b], action, Some(subject), now)
    {
    }
  }

  class Platform {
    const policy: Policy
    var users: map<UserId, User>
    var tenants: map<TenantId, Tenant>
    var archives: seq<Archive>
    var approvals: Approvals
    ghost var promotions: seq<Promotion>
    ghost var log: seq<Entry>

    ghost function View(): State
      reads this
    {
      State(users, tenants, archives, approvals, promotions, log)
    }

    /** With no second super-administrator the request is executed at once and recorded as sole. */
    method RequestPromotion(actor: UserId, recent: bool, target: UserId, id: ApprovalId, now: int)
      returns (r: Result<Status, Refusal>)
      modifies this
      ensures View() == Apply(policy, old(View()), RequestGrant(actor, recent, target, id, now))
      ensures r.Ok? <==>
              && IsSuper(old(users), actor) && recent && target in old(users)
              && !(old(users)[target].superadmin && old(users)[target].active)
              && id !in old(approvals) && NoneOpen(old(approvals), SUPERADMIN_GRANT, target, now)
      ensures r.Ok? ==> approvals.Keys == old(approvals).Keys + {id}
                        && approvals[id] == Approval(SUPERADMIN_GRANT, target, actor, None, r.value,
                                                     !HasAnother(old(users), actor), now + policy.ttl)
                        && r.value == if HasAnother(old(users), actor) then PENDING else EXECUTED
      ensures r.Ok? ==> AllLapsed(old(approvals), approvals, SUPERADMIN_GRANT, Some(target), now)
      ensures r.Err? ==> approvals.Keys == old(approvals).Keys
      ensures r == Err(NotAllowed) ==> approvals == old(approvals)
      ensures users == (if r == Ok(EXECUTED) then old(users)[target := User(true, None, true)] else old(users))
      ensures tenants == old(tenants) && archives == old(archives)
    {
      SuperIs(users, actor);
      if !ActiveSuper(users, actor) || !recent || target !in users {
        return Err(NotAllowed);
      }
      if users[target].superadmin && users[target].active {
        return Err(NotPending);
      }
      var sole := !OtherSuper(users, actor);
      LapseIs(approvals, SUPERADMIN_GRANT, target, now);
      approvals := ExpireStale(approvals, SUPERADMIN_GRANT, Some(target), now);
      if id in approvals || HasOpen(approvals, SUPERADMIN_GRANT, target, now) {
        return Err(NotPending);
      }
      var status := if sole then EXECUTED else PENDING;
      approvals := approvals[id := Approval(SUPERADMIN_GRANT, target, actor, None, status, sole, now + policy.ttl)];
      if sole {
        promotions := promotions + [Promotion(target, id, true)];
        users := users[target := PROMOTED];
      }
      r := Ok(status);
    }

    method DecideRequest(actor: UserId, recent: bool, id: ApprovalId, approve: bool, reasoned: bool, now: int)
      returns (r: Result<Status, Refusal>)
      modifies this`approvals
      ensures View() == Apply(policy, old(View()), Decide(actor, recent, id, approve, reasoned, now))
      ensures r.Ok? <==>
              IsSuper(users, actor) && (if approve then recent else reasoned) && MayCheck(old(approvals), id, actor, now)
      ensures r.Ok? ==> r.value == (if approve then APPROVED else REJECTED)
                        && approvals == old(approvals)[id := old(approvals)[id].(status := r.value, checker := Some(actor))]
      ensures r.Err? ==> approvals == old(approvals)
    {
      if !ActiveSuper(users, actor) || (approve && !recent) {
        return Err(NotAllowed);
      }
      if id !in approvals {
        return Err(NotPending);
      }
      var a := approvals[id];
      if !a.status.PENDING? || a.expiresAt <= now || a.maker == actor || (!approve && !reasoned) {
        return Err(NotPending);
      }
      var status := if approve then APPROVED else REJECTED;
      approvals := approvals[id := a.(status := status, checker := Some(actor))];
      r := Ok(status);
    }

    method CancelRequest(actor: UserId, id: ApprovalId) returns (done: bool)
      modifies this`approvals
      ensures View() == Apply(policy, old(View()), Cancel(actor, id))
      ensures done <==> id in old(approvals) && old(approvals)[id].status in {PENDING, APPROVED} && old(approvals)[id].maker == actor
      ensures approvals == if done then old(approvals)[id := old(approvals)[id].(status := CANCELLED)] else old(approvals)
    {
      if id !in approvals || !IsOpen(approvals[id]) || approvals[id].maker != actor {
        return false;
      }
      approvals := approvals[id := approvals[id].(status := CANCELLED)];
      done := true;
    }

    method RequestTenantPurge(actor: UserId, recent: bool, tenant: TenantId, id: ApprovalId, archive: nat, found: Blockers, now: int)
      returns (r: Result<ApprovalId, Refusal>)
      modifies this`approvals
      ensures View() == Apply(policy, old(View()), RequestPurge(actor, recent, tenant, id, archive, found, now))
      ensures r.Ok? <==>
              && IsSuper(users, actor) && recent && MayErase(policy, tenants, tenant, now) && Archived(tenants, archives, tenant, archive)
              && NoNumbers(found) && HasAnother(users, actor)
              && id !in old(approvals) && NoneOpen(old(approvals), TENANT_PURGE, tenant, now)
      ensures r.Ok? ==> r.value == id && approvals.Keys == old(approvals).Keys + {id}
                        && approvals[id] == Approval(TENANT_PURGE, tenant, actor, None, PENDING, false, now + policy.ttl)
                        && AllLapsed(old(approvals), approvals, TENANT_PURGE, Some(tenant), now)
      ensures r.Err? ==> approvals.Keys == old(approvals).Keys
      ensures r.Err? && r != Err(NotPending) ==> approvals == old(approvals)
    {
      SuperIs(users, actor);
      if !ActiveSuper(users, actor) || !recent || tenant !in tenants {
        return Err(NotAllowed);
      }
      if !GraceOver(policy, tenants[tenant], now) {
        return Err(NotErasable);
      }
      if |archives| <= archive || archives[archive].tenant != tenant || archives[archive].at < tenants[tenant].deletedAt.value
         || !Unblocked(found) || !OtherSuper(users, actor) {
        return Err(Blocked);
      }
      LapseIs(approvals, TENANT_PURGE, tenant, now);
      approvals := ExpireStale(approvals, TENANT_PURGE, Some(tenant), now);
      if id in approvals || HasOpen(approvals, TENANT_PURGE, tenant, now) {
        return Err(NotPending);
      }
      approvals := approvals[id := Approval(TENANT_PURGE, tenant, actor, None, PENDING, false, now + policy.ttl)];
      r := Ok(id);
    }

    /** Suspends the organisation and starts its grace period, again if it had started. */
    method RemoveTenant(tenant: TenantId, now: int) returns (found: bool)
      modifies this`tenants, this`log
      ensures View() == Apply(policy, old(View()), Remove(tenant, now))
      ensures found <==> tenant in old(tenants)
      ensures tenants == if found then old(tenants)[tenant := Tenant("SUSPENDED", Some(now))] else old(tenants)
    {
      found := tenant in tenants;
      if found {
        tenants := tenants[tenant := Tenant("SUSPENDED", Some(now))];
        log := log + [Removed(tenant, now)];
      }
    }

    /** Reactivating withdraws the erasure; an organisation waiting for its payment is not activated here. */
    method SetTenantStatus(tenant: TenantId, status: string) returns (done: bool)
      modifies this`tenants, this`log
      ensures View() == Apply(policy, old(View()), SetStatus(tenant, status))
      ensures done <==> tenant in old(tenants) && !(status == "ACTIVE" && old(tenants)[tenant].status == "PENDING_PAYMENT")
      ensures done ==> tenants == old(tenants)[tenant := Tenant(status, if status == "ACTIVE" then None else old(tenants)[tenant].deletedAt)]
      ensures !done ==> View() == old(View())
    {
      if tenant !in tenants || (status == "ACTIVE" && tenants[tenant].status == "PENDING_PAYMENT") {
        return false;
      }
      if status == "ACTIVE" {
        tenants := tenants[tenant := Tenant(status, None)];
        log := log + [Cleared(tenant)];
      } else {
        tenants := tenants[tenant := tenants[tenant].(status := status)];
      }
      done := true;
    }

    /** A suspended account is active again. Nothing is asked of a super-administrator but not to be the account itself. */
    method ReactivateUser(actor: UserId, permitted: bool, user: UserId) returns (done: bool)
      modifies this`users
      ensures View() == Apply(policy, old(View()), Reactivate(actor, permitted, user))
      ensures done <==> permitted && Manages(old(users), actor, user) && actor != user && !old(users)[user].active
      ensures users == if done then old(users)[user := old(users)[user].(active := true)] else old(users)
    {
      if !permitted || !MayManage(users, actor, user) || actor == user || users[user].active {
        return false;
      }
      users := users[user := users[user].(active := true)];
      done := true;
    }

    method Approve(actor: UserId, recent: bool, id: ApprovalId, now: int) returns (r: Result<UserId, Refusal>)
      modifies this
      ensures View() == Apply(policy, old(View()), ApproveGrant(actor, recent, id, now))
      ensures r.Ok? || r == Err(NoAccount) <==> IsSuper(old(users), actor) && recent && MayCheck(old(approvals), id, actor, now)
      ensures r.Ok? || r == Err(NoAccount) ==>
              approvals == old(approvals)[id := old(approvals)[id].(checker := Some(actor),
                                                                    status := if r.Ok? then EXECUTED else APPROVED)]
      ensures r == Err(NoAccount) ==> old(approvals)[id].subject !in old(users)
      ensures r.Ok? ==> r.value in old(users) && r.value == old(approvals)[id].subject && users == old(users)[r.value := User(true, None, true)]
      ensures r.Err? ==> users == old(users) && promotions == old(promotions)
      ensures r in {Err(NotAllowed), Err(NotPending)} ==> approvals == old(approvals)
      ensures tenants == old(tenants) && archives == old(archives)
    {
      if !ActiveSuper(users, actor) || !recent {
        return Err(NotAllowed);
      }
      if !MayDecide(approvals, id, actor, now) {
        return Err(NotPending);
      }
      approvals := approvals[id := approvals[id].(status := APPROVED, checker := Some(actor))];
      var subject := approvals[id].subject;
      if subject !in users {
        return Err(NoAccount);
      }
      promotions := promotions + [Promotion(subject, id, !OtherSuper(users, approvals[id].maker))];
      approvals := approvals[id := approvals[id].(status := EXECUTED)];
      users := users[subject := PROMOTED];
      r := Ok(subject);
    }

    /** `request` and `archive` are what the handler looks up; every condition is checked again here. */
    method PurgeTenant(actor: UserId, recent: bool, tenant: TenantId, request: ApprovalId, archive: nat, found: Blockers,
                       commits: bool, now: int)
      returns (r: Result<Archive, Refusal>)
      modifies this
      ensures View() == Apply(policy, old(View()), Purge(actor, recent, tenant, request, archive, found, commits, now))
      ensures r.Ok? <==>
              && IsSuper(old(users), actor) && recent && MayErase(policy, old(tenants), tenant, now)
              && request in old(approvals) && old(approvals)[request].action == TENANT_PURGE && old(approvals)[request].subject == tenant
              && old(approvals)[request].status == APPROVED && now < old(approvals)[request].expiresAt
              && Archived(old(tenants), old(archives), tenant, archive) && NoNumbers(found) && commits
      ensures r.Ok? ==> r.value == old(archives)[archive] && tenants == old(tenants) - {tenant} && archives == old(archives)
                        && approvals == old(approvals)[request := old(approvals)[request].(status := EXECUTED)]
                        && (forall u :: u in users <==> u in old(users) && old(users)[u].tenant != Some(tenant))
                        && forall u | u in users :: users[u] == old(users)[u]
      ensures r.Err? ==> View() == old(View())
    {
      if !ActiveSuper(users, actor) || !recent || tenant !in tenants {
        return Err(NotAllowed);
      }
      var t := tenants[tenant];
      if !GraceOver(policy, t, now) {
        return Err(NotErasable);
      }
      if !Finds(approvals, TENANT_PURGE, tenant, request, now) || !approvals[request].status.APPROVED? {
        return Err(NotApproved);
      }
      if |archives| <= archive || archives[archive].tenant != tenant || archives[archive].at < t.deletedAt.value || !Unblocked(found) {
        return Err(Blocked);
      }
      if !commits {
        return Err(Failed);
      }
      users := map u | u in users && users[u].tenant != Some(tenant) :: users[u];
      tenants := tenants - {tenant};
      approvals := approvals[request := approvals[request].(status := EXECUTED)];
      log := log + [Purged(tenant, now, request, archive, found)];
      r := Ok(archives[archive]);
    }
  }
}
