/**
 * Subscription webhooks, applied exactly once. A delivery is one transaction: the event row and its
 * effect commit together or not at all. Other services may edit organisations in between.
 */
module StripeWebhooks {
  import opened Wrappers

  type TenantId = string
  type EventId = string

  datatype Tenant = Tenant(
    id: TenantId, status: string, erasing: bool, plan: string,
    customer: Option<string>, subscription: Option<string>)

  /** The tier catalogue at the time of a delivery: the tiers' names, and the one to fall back to. */
  datatype Catalogue = Catalogue(names: set<string>, fallback: Option<string>)

  /** An event's payload. An empty customer or subscription id reads as none. */
  datatype Body =
    | Checkout(paid: bool, tenant: Option<TenantId>, customer: Option<string>, plan: string, subscription: Option<string>)
    | SubscriptionDeleted(ended: string)
    | PaymentFailed(customer: Option<string>)
    | Unused

  datatype Event = Event(id: EventId, kind: string, body: Body)

  datatype Outcome = PROCESSED | IGNORED | NEEDS_REVIEW

  /** Why an outcome was reached; the wording of each is a parameter. */
  datatype Reason =
    | KindNotUsed
    | NotPaidOrNotForATenant
    | NoSuchTenant
    | ErasurePending
    | WrongCustomer(customer: Option<string>)
    | UnknownPlan(plan: string)
    | RecordedNotReactivated(plan: string, status: string)
    | PlanChanged(before: string, after: string)
    | NobodyHolds(subscription: string)
    | NoFallback
    | SubscriptionEnded(before: string, after: string)
    | NoSuchCustomer(customer: Option<string>)
    | AlreadyInactive(status: string)
    | Suspended

  type Wording = Reason -> string

  datatype Decision = Decision(outcome: Outcome, tenantRef: Option<TenantId>, reason: Reason)

  datatype Record = Record(kind: string, outcome: Outcome, tenantRef: Option<TenantId>, detail: string,
                           receivedAt: int, review: Option<(string, int)>)

  datatype State = State(tenants: seq<Tenant>, log: map<EventId, Record>)

  // ── Deciding one event ────────────────────────────────────────────────────

  /** The first row that matches, in the order the database returns them; the number of rows if none does. */
  function FirstWith(tenants: seq<Tenant>, matches: Tenant -> bool): (i: nat)
    ensures i <= |tenants|
    ensures i < |tenants| ==> matches(tenants[i])
    ensures forall j | 0 <= j < i :: !matches(tenants[j])
  {
    if tenants == [] || matches(tenants[0]) then 0 else FirstWith(tenants[1..], matches) + 1
  }

  function CheckoutCompleted(tenants: seq<Tenant>, b: Body, c: Catalogue): (Decision, seq<Tenant>)
    requires b.Checkout?
  {
    if !b.paid || b.tenant.None? || b.tenant.value == "" then (Decision(IGNORED, b.tenant, NotPaidOrNotForATenant), tenants)
    else
      var i := FirstWith(tenants, (t: Tenant) => t.id == b.tenant.value);
      if i == |tenants| then (Decision(NEEDS_REVIEW, b.tenant, NoSuchTenant), tenants)
      else
        var t := tenants[i];
        if t.erasing then (Decision(NEEDS_REVIEW, b.tenant, ErasurePending), tenants)
        else if t.customer.None? || b.customer != t.customer
        then (Decision(NEEDS_REVIEW, b.tenant, WrongCustomer(b.customer)), tenants)
        else if b.plan == "" || b.plan !in c.names then (Decision(NEEDS_REVIEW, b.tenant, UnknownPlan(b.plan)), tenants)
        else
          (if t.status == "ACTIVE" then Decision(PROCESSED, b.tenant, PlanChanged(t.plan, b.plan))
           else Decision(NEEDS_REVIEW, b.tenant, RecordedNotReactivated(b.plan, t.status)),
           tenants[i := t.(plan := b.plan, subscription := b.subscription)])
  }

  function SubscriptionEnds(tenants: seq<Tenant>, b: Body, c: Catalogue): (Decision, seq<Tenant>)
    requires b.SubscriptionDeleted?
  {
    var i := FirstWith(tenants, (t: Tenant) => t.subscription == Some(b.ended));
    if i == |tenants| then (Decision(IGNORED, None, NobodyHolds(b.ended)), tenants)
    else
      var t := tenants[i];
      if c.fallback.None? then (Decision(NEEDS_REVIEW, Some(t.id), NoFallback), tenants)
      else (Decision(PROCESSED, Some(t.id), SubscriptionEnded(t.plan, c.fallback.value)),
            tenants[i := t.(plan := c.fallback.value, subscription := None)])
  }

  function PaymentFails(tenants: seq<Tenant>, b: Body): (Decision, seq<Tenant>)
    requires b.PaymentFailed?
  {
    var i := if b.customer.None? then |tenants| else FirstWith(tenants, (t: Tenant) => t.customer == b.customer);
    if i == |tenants| then (Decision(IGNORED, None, NoSuchCustomer(b.customer)), tenants)
    else
      var t := tenants[i];
      if t.status != "ACTIVE" then (Decision(IGNORED, Some(t.id), AlreadyInactive(t.status)), tenants)
      else (Decision(PROCESSED, Some(t.id), Suspended), tenants[i := t.(status := "SUSPENDED")])
  }

  function Decide(tenants: seq<Tenant>, b: Body, c: Catalogue): (Decision, seq<Tenant>) {
    match b
    case Checkout(_, _, _, _, _) => CheckoutCompleted(tenants, b, c)
    case SubscriptionDeleted(_) => SubscriptionEnds(tenants, b, c)
    case PaymentFailed(_) => PaymentFails(tenants, b)
    case Unused => (Decision(IGNORED, None, KindNotUsed), tenants)
  }

  // ── Runs ──────────────────────────────────────────────────────────────────

  /** `Deliver` with `commits` false is an attempt that fails after any of its statements. */
  datatype Step =
    | Deliver(event: Event, catalogue: Catalogue, at: int, commits: bool)
    | MarkReviewed(id: EventId, operator: string, reviewedAt: int)
    | Edit(edit: seq<Tenant> -> seq<Tenant>)

  const DETAIL_LIMIT: nat := 1000

  function Truncated(detail: string): string {
    if |detail| <= DETAIL_LIMIT then detail else detail[..DETAIL_LIMIT]
  }

  function Commit(say: Wording, s: State, e: Event, c: Catalogue, at: int): State {
    var (d, tenants) := Decide(s.tenants, e.body, c);
    State(tenants, s.log[e.id := Record(e.kind, d.outcome, d.tenantRef, Truncated(say(d.reason)), at, None)])
  }

  predicate AwaitsReview(s: State, id: EventId) {
    id in s.log && s.log[id].outcome == NEEDS_REVIEW && s.log[id].review.None?
  }

  function Apply(say: Wording, s: State, step: Step): State {
    match step
    case Deliver(e, c, at, commits) => if !commits || e.id in s.log then s else Commit(say, s, e, c, at)
    case MarkReviewed(id, operator, at) =>
      if AwaitsReview(s, id) then s.(log := s.log[id := s.log[id].(review := Some((operator, at)))]) else s
    case Edit(edit) => s.(tenants := edit(s.tenants))
  }

  function Run(say: Wording, s: State, steps: seq<Step>): State
    decreases |steps|
  {
    if steps == [] then s else Run(say, Apply(say, s, steps[0]), steps[1..])
  }

  /** The same steps with every attempt that failed and every repeated delivery left out. */
  function FirstCommits(steps: seq<Step>, seen: set<EventId>): seq<Step>
    decreases |steps|
  {
    if steps == [] then []
    else if !steps[0].Deliver? then [steps[0]] + FirstCommits(steps[1..], seen)
    else if !steps[0].commits || steps[0].event.id in seen then FirstCommits(steps[1..], seen)
    else [steps[0]] + FirstCommits(steps[1..], seen + {steps[0].event.id})
  }

  predicate OncePerEvent(steps: seq<Step>) {
    && (forall i | 0 <= i < |steps| && steps[i].Deliver? :: steps[i].commits)
    && forall i, j | 0 <= i < j < |steps| && steps[i].Deliver? && steps[j].Deliver? :: steps[i].event.id != steps[j].event.id
  }

  lemma {:induction false} FirstCommitsAreOnce(steps: seq<Step>, seen: set<EventId>)
    ensures OncePerEvent(FirstCommits(steps, seen))
    ensures forall st | st in FirstCommits(steps, seen) && st.Deliver? :: st.event.id !in seen
    decreases |steps|
  {
    if steps != [] {
      FirstCommitsAreOnce(steps[1..], seen);
      if steps[0].Deliver? {
        FirstCommitsAreOnce(steps[1..], seen + {steps[0].event.id});
      }
    }
  }

  lemma RunOfCons(say: Wording, s: State, first: Step, rest: seq<Step>)
    ensures Run(say, s, [first] + rest) == Run(say, Apply(say, s, first), rest)
  {
    assert ([first] + rest)[1..] == rest;
  }

  /**
   * Exactly once: any deliveries, with duplicates and failed attempts, reviews and edits mixed in,
   * leave the organisations and the event log as if each event id had been delivered once, where it
   * first committed.
   */
  lemma {:induction false} ExactlyOnce(say: Wording, s: State, steps: seq<Step>)
    ensures Run(say, s, steps) == Run(say, s, FirstCommits(steps, s.log.Keys))
    ensures OncePerEvent(FirstCommits(steps, s.log.Keys))
    decreases |steps|
  {
    FirstCommitsAreOnce(steps, s.log.Keys);
    if steps != [] {
      var next := Apply(say, s, steps[0]);
      ExactlyOnce(say, next, steps[1..]);
      if next.log.Keys != s.log.Keys {
        assert next.log.Keys == s.log.Keys + {steps[0].event.id};
      }
      RunOfCons(say, s, steps[0], FirstCommits(steps[1..], next.log.Keys));
    }
  }

  // ── What a delivery reports ───────────────────────────────────────────────

  datatype Report = Report(id: EventId, outcome: Outcome, duplicate: bool, detail: string)

  /** The answer to a delivery that did not fail; the first answer's detail is not truncated. */
  function Answer(say: Wording, s: State, e: Event, c: Catalogue): Report {
    if e.id in s.log then Report(e.id, s.log[e.id].outcome, true, s.log[e.id].detail)
    else
      var d := Decide(s.tenants, e.body, c).0;
      Report(e.id, d.outcome, false, say(d.reason))
  }

  lemma {:induction false} LogIsKept(say: Wording, s: State, steps: seq<Step>, id: EventId)
    requires id in s.log
    ensures id in Run(say, s, steps).log && Run(say, s, steps).log[id].(review := None) == s.log[id].(review := None)
    decreases |steps|
  {
    if steps != [] {
      LogIsKept(say, Apply(say, s, steps[0]), steps[1..], id);
    }
  }

  /** However much later and whatever the catalogue is by then, a redelivery reports what was recorded. */
  lemma RedeliveryReportsTheRecord(say: Wording, s: State, e: Event, c: Catalogue, at: int, between: seq<Step>,
                                   again: Event, c2: Catalogue)
    requires e.id !in s.log && again.id == e.id
    ensures var first := Answer(say, s, e, c);
            var later := Run(say, Apply(say, s, Deliver(e, c, at, true)), between);
            Answer(say, later, again, c2) == Report(e.id, first.outcome, true, Truncated(first.detail))
  {
    LogIsKept(say, Apply(say, s, Deliver(e, c, at, true)), between, e.id);
  }

  // ── What a delivery may do to an organisation ─────────────────────────────

  /** The only status edge. */
  predicate OnlySuspends(before: Tenant, after: Tenant) {
    && before.id == after.id && before.erasing == after.erasing && before.customer == after.customer
    && (after.status == before.status || (before.status == "ACTIVE" && after.status == "SUSPENDED"))
  }

  ghost predicate AllOnlySuspend(before: seq<Tenant>, after: seq<Tenant>) {
    |before| == |after| && forall i | 0 <= i < |before| :: OnlySuspends(before[i], after[i])
  }

  lemma DecideOnlySuspends(tenants: seq<Tenant>, b: Body, c: Catalogue)
    ensures AllOnlySuspend(tenants, Decide(tenants, b, c).1)
  {
    match b
    case Checkout(_, _, _, _, _) => assert AllOnlySuspend(tenants, CheckoutCompleted(tenants, b, c).1);
    case SubscriptionDeleted(_) => assert AllOnlySuspend(tenants, SubscriptionEnds(tenants, b, c).1);
    case PaymentFailed(_) => assert AllOnlySuspend(tenants, PaymentFails(tenants, b).1);
    case Unused =>
  }

  lemma DeliveryOnlySuspends(say: Wording, s: State, step: Step)
    requires !step.Edit?
    ensures AllOnlySuspend(s.tenants, Apply(say, s, step).tenants)
  {
    if step.Deliver? {
      DecideOnlySuspends(s.tenants, step.event.body, step.catalogue);
    }
  }

  /** No run of deliveries and reviews sets an organisation ACTIVE: the only status edge is ACTIVE to SUSPENDED. */
  lemma {:induction false} NeverReactivates(say: Wording, s: State, steps: seq<Step>)
    requires forall i | 0 <= i < |steps| :: !steps[i].Edit?
    ensures AllOnlySuspend(s.tenants, Run(say, s, steps).tenants)
    decreases |steps|
  {
    if steps != [] {
      DeliveryOnlySuspends(say, s, steps[0]);
      NeverReactivates(say, Apply(say, s, steps[0]), steps[1..]);
      assert "ACTIVE" != "SUSPENDED" by { assert "ACTIVE"[0] != "SUSPENDED"[0]; }
    }
  }

  /** The one organisation a paid checkout may change, and when. */
  predicate MayBuy(t: Tenant, b: Body, c: Catalogue)
    requires b.Checkout?
  {
    && b.paid && b.tenant == Some(t.id) && t.id != "" && !t.erasing
    && t.customer.Some? && t.customer == b.customer && b.plan != "" && b.plan in c.names
  }

  predicate UniqueIds(tenants: seq<Tenant>) {
    forall i, j | 0 <= i < j < |tenants| :: tenants[i].id != tenants[j].id
  }

  /**
   * A checkout changes an organisation if and only if it is paid, for that organisation, by its own
   * customer, for a catalogue plan, and no erasure is pending; then it records plan and subscription
   * and nothing else.
   */
  lemma CheckoutChangesOnlyTheBuyer(say: Wording, s: State, step: Step, i: nat)
    requires step.Deliver? && step.commits && step.event.body.Checkout? && step.event.id !in s.log
    requires UniqueIds(s.tenants) && i < |s.tenants|
    ensures var t, b := s.tenants[i], step.event.body;
            Apply(say, s, step).tenants == Decide(s.tenants, b, step.catalogue).1 && |Apply(say, s, step).tenants| == |s.tenants|
            && Apply(say, s, step).tenants[i] ==
               if MayBuy(t, b, step.catalogue) then t.(plan := b.plan, subscription := b.subscription) else t
  {
    var b := step.event.body;
    if b.tenant.Some? {
      var k := FirstWith(s.tenants, (t: Tenant) => t.id == b.tenant.value);
    }
  }

  // ── What a run of deliveries does to an organisation ──────────────────────

  /** A delivery that takes effect: committed, and the first of its event. */
  predicate Takes(s: State, step: Step) {
    step.Deliver? && step.commits && step.event.id !in s.log
  }

  predicate Buys(s: State, step: Step, i: nat)
    requires i < |s.tenants|
  {
    Takes(s, step) && step.event.body.Checkout? && MayBuy(s.tenants[i], step.event.body, step.catalogue)
  }

  /** The organisation a lookup by subscription returns loses it, if there is a tier to fall back to. */
  predicate Cancels(s: State, step: Step, i: nat)
    requires i < |s.tenants|
  {
    && Takes(s, step) && step.event.body.SubscriptionDeleted? && step.catalogue.fallback.Some?
    && s.tenants[i].subscription == Some(step.event.body.ended)
    && forall j | 0 <= j < i :: s.tenants[j].subscription != s.tenants[i].subscription
  }

  /** The organisation a lookup by customer returns could not be charged while active. */
  predicate Defaults(s: State, step: Step, i: nat)
    requires i < |s.tenants|
  {
    && Takes(s, step) && step.event.body.PaymentFailed? && s.tenants[i].status == "ACTIVE"
    && s.tenants[i].customer.Some? && s.tenants[i].customer == step.event.body.customer
    && forall j | 0 <= j < i :: s.tenants[j].customer != s.tenants[i].customer
  }

  function After(s: State, step: Step, i: nat): Tenant
    requires i < |s.tenants|
  {
    var t := s.tenants[i];
    if Buys(s, step, i) then t.(plan := step.event.body.plan, subscription := step.event.body.subscription)
    else if Cancels(s, step, i) then t.(plan := step.catalogue.fallback.value, subscription := None)
    else if Defaults(s, step, i) then t.(status := "SUSPENDED")
    else t
  }

  lemma CancellationIs(tenants: seq<Tenant>, b: Body, c: Catalogue, i: nat)
    requires b.SubscriptionDeleted? && i < |tenants|
    ensures var after := SubscriptionEnds(tenants, b, c).1;
            && |after| == |tenants|
            && after[i] ==
               if c.fallback.Some? && tenants[i].subscription == Some(b.ended)
                  && forall j | 0 <= j < i :: tenants[j].subscription != tenants[i].subscription
               then tenants[i].(plan := c.fallback.value, subscription := None) else tenants[i]
  {
    var k := FirstWith(tenants, (t: Tenant) => t.subscription == Some(b.ended));
    assert k < |tenants| ==> tenants[k].subscription == Some(b.ended);
  }

  lemma FailedPaymentIs(tenants: seq<Tenant>, b: Body, i: nat)
    requires b.PaymentFailed? && i < |tenants|
    ensures var after := PaymentFails(tenants, b).1;
            && |after| == |tenants|
            && after[i] ==
               if tenants[i].status == "ACTIVE" && tenants[i].customer.Some? && tenants[i].customer == b.customer
                  && forall j | 0 <= j < i :: tenants[j].customer != tenants[i].customer
               then tenants[i].(status := "SUSPENDED") else tenants[i]
  {
    if b.customer.Some? {
      var k := FirstWith(tenants, (t: Tenant) => t.customer == b.customer);
      assert k < |tenants| ==> tenants[k].customer == b.customer;
    }
  }

  /** Exactly what one step that is not an edit does to each organisation. */
  lemma StepEffect(say: Wording, s: State, step: Step, i: nat)
    requires !step.Edit? && UniqueIds(s.tenants) && i < |s.tenants|
    ensures |Apply(say, s, step).tenants| == |s.tenants| && Apply(say, s, step).tenants[i] == After(s, step, i)
  {
    if Takes(s, step) {
      match step.event.body
      case Checkout(_, _, _, _, _) => CheckoutChangesOnlyTheBuyer(say, s, step, i);
      case SubscriptionDeleted(_) => CancellationIs(s.tenants, step.event.body, step.catalogue, i);
      case PaymentFailed(_) => FailedPaymentIs(s.tenants, step.event.body, i);
      case Unused =>
    }
  }

  lemma {:induction false} RunOfSnoc(say: Wording, s: State, steps: seq<Step>)
    requires steps != []
    ensures Run(say, s, steps) == Apply(say, Run(say, s, steps[..|steps| - 1]), steps[|steps| - 1])
    decreases |steps|
  {
    var rest := steps[1..];
    if rest != [] {
      RunOfSnoc(say, Apply(say, s, steps[0]), rest);
      assert steps[..|steps| - 1][1..] == rest[..|rest| - 1];
    } else {
      assert steps[..|steps| - 1] == [];
    }
  }

  predicate NoEdits(steps: seq<Step>) {
    forall k | 0 <= k < |steps| :: !steps[k].Edit?
  }

  lemma RunKeepsIds(say: Wording, s: State, steps: seq<Step>)
    requires UniqueIds(s.tenants) && NoEdits(steps)
    ensures |Run(say, s, steps).tenants| == |s.tenants| && UniqueIds(Run(say, s, steps).tenants)
  {
    NeverReactivates(say, s, steps);
  }

  /** The state in which the run comes to step `k`. */
  function At(say: Wording, s: State, steps: seq<Step>, k: nat): State
    requires k <= |steps|
  {
    Run(say, s, steps[..k])
  }

  ghost predicate Settles(say: Wording, s: State, steps: seq<Step>, i: nat, k: nat)
    requires k < |steps| && i < |At(say, s, steps, k).tenants|
  {
    Buys(At(say, s, steps, k), steps[k], i) || Cancels(At(say, s, steps, k), steps[k], i)
  }

  /** Step `k` gave the organisation the plan and subscription it has in `end`. */
  ghost predicate GaveThePlan(say: Wording, s: State, steps: seq<Step>, i: nat, k: nat, end: State)
    requires k < |steps| && i < |At(say, s, steps, k).tenants| && i < |end.tenants|
  {
    && Settles(say, s, steps, i, k)
    && end.tenants[i].plan == After(At(say, s, steps, k), steps[k], i).plan
    && end.tenants[i].subscription == After(At(say, s, steps, k), steps[k], i).subscription
  }

  ghost predicate NoneSettles(say: Wording, s: State, steps: seq<Step>, i: nat, from: nat) {
    forall k | from <= k < |steps| :: i < |At(say, s, steps, k).tenants| && !Settles(say, s, steps, i, k)
  }

  /**
   * Over any run of deliveries and reviews an organisation's plan and subscription are those of its
   * last own paid checkout or own cancellation, and the ones it had if there was none.
   */
  lemma {:induction false} PlanIsTheLastSettled(say: Wording, s: State, steps: seq<Step>, i: nat)
    requires NoEdits(steps) && UniqueIds(s.tenants) && i < |s.tenants|
    ensures i < |Run(say, s, steps).tenants|
    ensures var end := Run(say, s, steps);
            || (NoneSettles(say, s, steps, i, 0) && end.tenants[i].plan == s.tenants[i].plan
                && end.tenants[i].subscription == s.tenants[i].subscription)
            || (exists k :: 0 <= k < |steps| && i < |At(say, s, steps, k).tenants|
                  && GaveThePlan(say, s, steps, i, k, end) && NoneSettles(say, s, steps, i, k + 1))
    decreases |steps|
  {
    RunKeepsIds(say, s, steps);
    if steps != [] {
      var n := |steps| - 1;
      var before, end := steps[..n], Run(say, s, steps);
      RunKeepsIds(say, s, before);
      RunOfSnoc(say, s, steps);
      StepEffect(say, Run(say, s, before), steps[n], i);
      PlanIsTheLastSettled(say, s, before, i);
      assert At(say, s, steps, n) == Run(say, s, before);
      if Settles(say, s, steps, i, n) {
        assert GaveThePlan(say, s, steps, i, n, end);
      } else {
        SettlesBefore(say, s, steps, i);
        var mid := Run(say, s, before);
        if exists k :: 0 <= k < n && i < |At(say, s, before, k).tenants|
                       && GaveThePlan(say, s, before, i, k, mid) && NoneSettles(say, s, before, i, k + 1) {
          var k :| 0 <= k < n && i < |At(say, s, before, k).tenants|
                   && GaveThePlan(say, s, before, i, k, mid) && NoneSettles(say, s, before, i, k + 1);
          assert before[k] == steps[k] && At(say, s, before, k) == At(say, s, steps, k);
          assert GaveThePlan(say, s, steps, i, k, end) && NoneSettles(say, s, steps, i, k + 1);
        }
      }
    }
  }

  /** One more step that settles nothing changes nothing about which step was the last. */
  lemma SettlesBefore(say: Wording, s: State, steps: seq<Step>, i: nat)
    requires steps != [] && i < |At(say, s, steps, |steps| - 1).tenants| && !Settles(say, s, steps, i, |steps| - 1)
    ensures forall from: nat | NoneSettles(say, s, steps[..|steps| - 1], i, from) :: NoneSettles(say, s, steps, i, from)
    ensures forall k: nat | k < |steps| - 1 :: At(say, s, steps[..|steps| - 1], k) == At(say, s, steps, k)
  {
    var n := |steps| - 1;
    forall k: nat | k < n
      ensures At(say, s, steps[..n], k) == At(say, s, steps, k)
    {
      assert steps[..n][..k] == steps[..k];
    }
    forall from: nat | NoneSettles(say, s, steps[..n], i, from)
      ensures NoneSettles(say, s, steps, i, from)
    {
      forall k: nat | from <= k < |steps|
        ensures i < |At(say, s, steps, k).tenants| && !Settles(say, s, steps, i, k)
      {
        if k < n {
          assert steps[..n][k] == steps[k] && !Settles(say, s, steps[..n], i, k);
        }
      }
    }
  }

  /** And an active organisation ends suspended exactly when one of its own payments failed on the way. */
  lemma {:induction false} SuspendedExactlyByDefault(say: Wording, s: State, steps: seq<Step>, i: nat)
    requires NoEdits(steps) && UniqueIds(s.tenants) && i < |s.tenants| && s.tenants[i].status == "ACTIVE"
    ensures i < |Run(say, s, steps).tenants|
    ensures Run(say, s, steps).tenants[i].status in {"ACTIVE", "SUSPENDED"}
    ensures Run(say, s, steps).tenants[i].status == "SUSPENDED" <==>
            exists k :: 0 <= k < |steps| && i < |At(say, s, steps, k).tenants| && Defaults(At(say, s, steps, k), steps[k], i)
    decreases |steps|
  {
    assert "ACTIVE" != "SUSPENDED" by { assert "ACTIVE"[0] != "SUSPENDED"[0]; }
    if steps != [] {
      var n := |steps| - 1;
      var before := steps[..n];
      SuspendedExactlyByDefault(say, s, before, i);
      RunKeepsIds(say, s, before);
      RunOfSnoc(say, s, steps);
      StepEffect(say, Run(say, s, before), steps[n], i);
      assert At(say, s, steps, n) == Run(say, s, before);
      forall k: nat | k < n
        ensures At(say, s, before, k) == At(say, s, steps, k) && before[k] == steps[k]
      {
        assert before[..k] == steps[..k];
      }
    }
  }

  ghost predicate ChangesOnly(before: seq<Tenant>, after: seq<Tenant>, tenantRef: Option<TenantId>, i: nat) {
    && i < |before| == |after| && tenantRef == Some(before[i].id)
    && forall j | 0 <= j < |before| && j != i :: after[j] == before[j]
  }

  /** An ignored event changed nothing, and one processed is a change someone asked for. */
  lemma OutcomeTellsTheEffect(tenants: seq<Tenant>, b: Body, c: Catalogue)
    ensures var (d, after) := Decide(tenants, b, c);
            && (d.outcome == IGNORED ==> after == tenants)
            && (d.outcome == NEEDS_REVIEW ==> after == tenants || d.reason.RecordedNotReactivated?)
            && (d.outcome == PROCESSED ==> exists i | 0 <= i < |tenants| :: ChangesOnly(tenants, after, d.tenantRef, i))
  {
    var (d, after) := Decide(tenants, b, c);
    if d.outcome == PROCESSED {
      var i := match b
        case Checkout(_, _, _, _, _) => FirstWith(tenants, (t: Tenant) => t.id == b.tenant.value)
        case SubscriptionDeleted(_) => FirstWith(tenants, (t: Tenant) => t.subscription == Some(b.ended))
        case PaymentFailed(_) => FirstWith(tenants, (t: Tenant) => t.customer == b.customer)
        case Unused => 0;
      assert ChangesOnly(tenants, after, d.tenantRef, i);
    }
  }

  // ── Which outcome, and why ────────────────────────────────────────────────

  /** The organisation a lookup returns: the first that matches. */
  predicate IsFirst(tenants: seq<Tenant>, matches: Tenant -> bool, i: nat) {
    i < |tenants| && matches(tenants[i]) && forall j | 0 <= j < i :: !matches(tenants[j])
  }

  predicate ForNobody(b: Body)
    requires b.Checkout?
  {
    !b.paid || b.tenant in {None, Some("")}
  }

  ghost predicate Held(tenants: seq<Tenant>, subscription: string) {
    exists i :: 0 <= i < |tenants| && tenants[i].subscription == Some(subscription)
  }

  /** Some organisation may buy, and is active. */
  ghost predicate ActiveBuyer(tenants: seq<Tenant>, b: Body, c: Catalogue)
    requires b.Checkout?
  {
    exists i :: 0 <= i < |tenants| && MayBuy(tenants[i], b, c) && tenants[i].status == "ACTIVE"
  }

  predicate PaysFirst(tenants: seq<Tenant>, customer: Option<string>, i: nat) {
    i < |tenants| && tenants[i].customer == customer && tenants[i].status == "ACTIVE"
    && forall j | 0 <= j < i :: tenants[j].customer != customer
  }

  /** The first organisation with the customer is active. */
  ghost predicate ActivePayer(tenants: seq<Tenant>, customer: Option<string>) {
    customer.Some? && exists i: nat :: PaysFirst(tenants, customer, i)
  }

  ghost predicate RightOutcome(tenants: seq<Tenant>, b: Body, c: Catalogue, o: Outcome) {
    match b
    case Checkout(_, _, _, _, _) => (o == PROCESSED <==> ActiveBuyer(tenants, b, c)) && (o == IGNORED <==> ForNobody(b))
    case SubscriptionDeleted(ended) =>
      && (o == PROCESSED <==> Held(tenants, ended) && c.fallback.Some?)
      && (o == NEEDS_REVIEW <==> Held(tenants, ended) && c.fallback.None?)
    case PaymentFailed(customer) => o == if ActivePayer(tenants, customer) then PROCESSED else IGNORED
    case Unused => o == IGNORED
  }

  lemma CheckoutOutcome(tenants: seq<Tenant>, b: Body, c: Catalogue)
    requires b.Checkout? && UniqueIds(tenants)
    ensures RightOutcome(tenants, b, c, Decide(tenants, b, c).0.outcome)
  {
    if !ForNobody(b) {
      var i := FirstWith(tenants, (t: Tenant) => t.id == b.tenant.value);
      assert forall k | 0 <= k < |tenants| && MayBuy(tenants[k], b, c) :: k == i;
      if Decide(tenants, b, c).0.outcome == PROCESSED {
        assert MayBuy(tenants[i], b, c);
      }
    }
  }

  lemma OtherOutcome(tenants: seq<Tenant>, b: Body, c: Catalogue)
    requires !b.Checkout?
    ensures RightOutcome(tenants, b, c, Decide(tenants, b, c).0.outcome)
  {
    if b.SubscriptionDeleted? {
      var i := FirstWith(tenants, (t: Tenant) => t.subscription == Some(b.ended));
      assert i < |tenants| ==> tenants[i].subscription == Some(b.ended);
      assert forall j | 0 <= j < i :: tenants[j].subscription != Some(b.ended);
    } else if b.PaymentFailed? && b.customer.Some? {
      var i := FirstWith(tenants, (t: Tenant) => t.customer == b.customer);
      assert forall j | 0 <= j < i :: tenants[j].customer != b.customer;
      assert forall k: nat | PaysFirst(tenants, b.customer, k) :: k == i;
      if i < |tenants| && tenants[i].status == "ACTIVE" {
        assert PaysFirst(tenants, b.customer, i);
      }
    }
  }

  /**
   * Exactly which outcome a first delivery reports and records. A checkout is processed if and only if
   * some organisation may buy and is active, and ignored if and only if it is unpaid or for nobody; a
   * cancellation goes by whether someone holds the subscription and there is a tier to fall back to; a
   * failed payment is processed if and only if the organisation it finds is active.
   */
  lemma OutcomeExactly(say: Wording, s: State, e: Event, c: Catalogue, at: int)
    requires e.id !in s.log && UniqueIds(s.tenants)
    ensures var r, log := Answer(say, s, e, c), Apply(say, s, Deliver(e, c, at, true)).log;
            && RightOutcome(s.tenants, e.body, c, r.outcome) && !r.duplicate && r.id == e.id
            && log.Keys == s.log.Keys + {e.id} && (forall id | id in s.log :: log[id] == s.log[id])
            && log[e.id].outcome == r.outcome && log[e.id].kind == e.kind && log[e.id].receivedAt == at
            && log[e.id].review.None? && log[e.id].detail <= r.detail
            && (|r.detail| <= 1000 ==> log[e.id].detail == r.detail) && (|r.detail| > 1000 ==> |log[e.id].detail| == 1000)
  {
    if e.body.Checkout? {
      CheckoutOutcome(s.tenants, e.body, c);
    } else {
      OtherOutcome(s.tenants, e.body, c);
    }
  }

  /** What a reason says of the organisations before the event, and of the one the event is recorded for. */
  predicate IsTrue(tenants: seq<Tenant>, b: Body, c: Catalogue, ref: Option<TenantId>, reason: Reason) {
    match reason
    case KindNotUsed => b.Unused? && ref.None?
    case NotPaidOrNotForATenant => b.Checkout? && ForNobody(b) && ref == b.tenant
    case NoSuchTenant => b.Checkout? && !ForNobody(b) && ref == b.tenant && forall t | t in tenants :: Some(t.id) != ref
    case ErasurePending => b.Checkout? && !ForNobody(b) && ref == b.tenant && exists t | t in tenants :: Some(t.id) == ref && t.erasing
    case WrongCustomer(customer) =>
      && b.Checkout? && !ForNobody(b) && ref == b.tenant && customer == b.customer
      && exists t | t in tenants :: Some(t.id) == ref && !t.erasing && (t.customer.None? || t.customer != customer)
    case UnknownPlan(plan) =>
      && b.Checkout? && !ForNobody(b) && ref == b.tenant && plan == b.plan && (plan == "" || plan !in c.names)
      && exists t | t in tenants :: Some(t.id) == ref && !t.erasing && t.customer.Some? && t.customer == b.customer
    case RecordedNotReactivated(plan, status) =>
      && b.Checkout? && ref == b.tenant && plan == b.plan
      && exists t | t in tenants :: MayBuy(t, b, c) && t.status == status != "ACTIVE"
    case PlanChanged(before, after) =>
      && b.Checkout? && ref == b.tenant && after == b.plan
      && exists t | t in tenants :: MayBuy(t, b, c) && t.status == "ACTIVE" && t.plan == before
    case NobodyHolds(subscription) =>
      b.SubscriptionDeleted? && ref.None? && subscription == b.ended && forall t | t in tenants :: t.subscription != Some(subscription)
    case NoFallback =>
      && b.SubscriptionDeleted? && c.fallback.None?
      && exists i | 0 <= i < |tenants| :: IsFirst(tenants, (t: Tenant) => t.subscription == Some(b.ended), i) && ref == Some(tenants[i].id)
    case SubscriptionEnded(before, after) =>
      && b.SubscriptionDeleted? && c.fallback == Some(after)
      && exists i | 0 <= i < |tenants| ::
           IsFirst(tenants, (t: Tenant) => t.subscription == Some(b.ended), i) && ref == Some(tenants[i].id) && tenants[i].plan == before
    case NoSuchCustomer(customer) =>
      && b.PaymentFailed? && ref.None? && customer == b.customer
      && (customer.Some? ==> forall t | t in tenants :: t.customer != customer)
    case AlreadyInactive(status) =>
      && b.PaymentFailed? && b.customer.Some? && status != "ACTIVE"
      && exists i | 0 <= i < |tenants| ::
           IsFirst(tenants, (t: Tenant) => t.customer == b.customer, i) && ref == Some(tenants[i].id) && tenants[i].status == status
    case Suspended =>
      && b.PaymentFailed? && b.customer.Some?
      && exists i | 0 <= i < |tenants| ::
           IsFirst(tenants, (t: Tenant) => t.customer == b.customer, i) && ref == Some(tenants[i].id) && tenants[i].status == "ACTIVE"
  }

  lemma CheckoutReason(tenants: seq<Tenant>, b: Body, c: Catalogue)
    requires b.Checkout? && UniqueIds(tenants)
    ensures var d := Decide(tenants, b, c).0; IsTrue(tenants, b, c, d.tenantRef, d.reason)
  {
    if !ForNobody(b) {
      var i := FirstWith(tenants, (t: Tenant) => t.id == b.tenant.value);
      assert i < |tenants| ==> tenants[i] in tenants;
    }
  }

  /** The reason given is true, and of the organisation the event is recorded for. */
  lemma ReasonIsTrue(tenants: seq<Tenant>, b: Body, c: Catalogue)
    requires UniqueIds(tenants)
    ensures var d := Decide(tenants, b, c).0; IsTrue(tenants, b, c, d.tenantRef, d.reason)
  {
    match b
    case Checkout(_, _, _, _, _) => CheckoutReason(tenants, b, c);
    case SubscriptionDeleted(ended) =>
      var i := FirstWith(tenants, (t: Tenant) => t.subscription == Some(b.ended));
      assert i < |tenants| ==> IsFirst(tenants, (t: Tenant) => t.subscription == Some(b.ended), i);
    case PaymentFailed(customer) =>
      if customer.Some? {
        var i := FirstWith(tenants, (t: Tenant) => t.customer == b.customer);
        assert i < |tenants| ==> IsFirst(tenants, (t: Tenant) => t.customer == b.customer, i);
      }
    case Unused =>
  }

  // ── The service ───────────────────────────────────────────────────────────

  class Webhooks {
    var tenants: seq<Tenant>
    var log: map<EventId, Record>

    ghost function View(): State
      reads this
    {
      State(tenants, log)
    }

    /** The transaction of one verified delivery. */
    method ApplyEvent(say: Wording, e: Event, c: Catalogue, at: int) returns (r: Report)
      modifies this
      ensures View() == Apply(say, old(View()), Deliver(e, c, at, true))
      ensures r == Answer(say, old(View()), e, c)
      ensures r.duplicate <==> e.id in old(log)
      ensures r.duplicate ==> View() == old(View())
    {
      if e.id in log {
        return Report(e.id, log[e.id].outcome, true, log[e.id].detail);
      }
      log := log[e.id := Record(e.kind, PROCESSED, None, "", at, None)];
      var (d, after) := Decide(tenants, e.body, c);
      tenants := after;
      log := log[e.id := log[e.id].(outcome := d.outcome, tenantRef := d.tenantRef, detail := Truncated(say(d.reason)))];
      r := Report(e.id, d.outcome, false, say(d.reason));
    }

    /** False when no event waiting for review has that id. */
    method MarkEventReviewed(say: Wording, id: EventId, operator: string, at: int) returns (found: bool)
      modifies this
      ensures View() == Apply(say, old(View()), MarkReviewed(id, operator, at))
      ensures found <==> id in old(log) && old(log)[id].outcome == NEEDS_REVIEW && old(log)[id].review.None?
      ensures tenants == old(tenants)
      ensures log == if found then old(log)[id := old(log)[id].(review := Some((operator, at)))] else old(log)
    {
      found := id in log && log[id].outcome == NEEDS_REVIEW && log[id].review.None?;
      if found {
        log := log[id := log[id].(review := Some((operator, at)))];
      }
    }
  }
}
