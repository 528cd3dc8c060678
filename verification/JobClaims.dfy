/**
 * Claims on scheduled work, shared by every instance through one table. Each call is one atomic
 * statement. `at` is the true time it executes, `clock` the reading its instance took before that;
 * an instance's clock runs a constant `off(instance)` ahead of true time.
 */
module JobClaims {
  import opened Wrappers

  type Instance = string

  datatype Key = Key(tenant: string, job: string, runKey: string)

  /** A run-once claim has no lease. */
  datatype Claim = Claim(holder: Instance, claimedAt: int, leaseUntil: Option<int>)

  type Rows = map<Key, Claim>

  datatype Event =
    | Once(inst: Instance, key: Key, at: int, clock: int)
    | Lease(inst: Instance, key: Key, ms: nat, at: int, clock: int)
    | Release(inst: Instance, key: Key, at: int)
    | Prune(tenant: string, job: string, before: int)

  // ── The statements ────────────────────────────────────────────────────────

  predicate MayLease(rows: Rows, key: Key, inst: Instance, clock: int) {
    key in rows ==> rows[key].leaseUntil.Some? && (rows[key].leaseUntil.value <= clock || rows[key].holder == inst)
  }

  predicate Deletes(c: Claim, key: Key, e: Event) {
    e.Prune? && key.tenant == e.tenant && key.job == e.job && c.leaseUntil.None? && c.claimedAt < e.before
  }

  /** What a call answers: whether the claim was taken. */
  predicate Taken(rows: Rows, e: Event) {
    match e
    case Once(_, key, _, _) => key !in rows
    case Lease(inst, key, _, _, clock) => MayLease(rows, key, inst, clock)
    case _ => false
  }

  function Effect(rows: Rows, e: Event): Rows {
    match e
    case Once(inst, key, _, clock) => if Taken(rows, e) then rows[key := Claim(inst, clock, None)] else rows
    case Lease(inst, key, ms, _, clock) =>
      if Taken(rows, e) then rows[key := Claim(inst, clock, Some(clock + ms))] else rows
    case Release(inst, key, _) =>
      if key in rows && rows[key].holder == inst && rows[key].leaseUntil.Some?
      then rows[key := rows[key].(leaseUntil := Some(0))] else rows
    case Prune(_, _, _) => map k | k in rows && !Deletes(rows[k], k, e) :: rows[k]
  }

  // ── Leases ────────────────────────────────────────────────────────────────

  /** From `at` until `end`, in true time, the instance believes it holds the lease. */
  datatype Grant = Grant(key: Key, inst: Instance, at: int, end: int)

  /** `now` is the time of the last call, `promised` the end each instance last asked a lease for. */
  datatype State = State(rows: Rows, grants: seq<Grant>, now: int, promised: map<(Key, Instance), int>)

  datatype Clocks = Clocks(off: Instance -> int, skew: nat)

  ghost predicate Synchronised(cl: Clocks) {
    forall a, b :: cl.off(a) - cl.off(b) <= cl.skew
  }

  /** A released lease is no longer believed in. */
  function GiveUp(g: Grant, e: Event): Grant {
    if e.Release? && g.key == e.key && g.inst == e.inst && e.at < g.end then g.(end := e.at) else g
  }

  function Grants(s: State, cl: Clocks, e: Event): seq<Grant> {
    match e
    case Lease(inst, key, ms, at, clock) =>
      if Taken(s.rows, e) then s.grants + [Grant(key, inst, at, clock + ms - cl.off(inst))] else s.grants
    case Release(_, _, _) => seq(|s.grants|, i requires 0 <= i < |s.grants| => GiveUp(s.grants[i], e))
    case _ => s.grants
  }

  function Apply(s: State, cl: Clocks, e: Event): State {
    State(Effect(s.rows, e), Grants(s, cl, e),
          if e.Prune? then s.now else e.at,
          if e.Lease? then s.promised[(e.key, e.inst) := e.clock + e.ms] else s.promised)
  }

  function Run(s: State, cl: Clocks, es: seq<Event>): State
    decreases |es|
  {
    if es == [] then s else Run(Apply(s, cl, es[0]), cl, es[1..])
  }

  /**
   * Time goes forward, and an instance never asks for a lease to end sooner than it asked before;
   * so it is when its calls execute in order and each key has one lease length.
   */
  predicate Timely(s: State, cl: Clocks, e: Event) {
    && (!e.Prune? ==> s.now <= e.at)
    && (e.Lease? ==> && e.clock <= e.at + cl.off(e.inst)
                     && ((e.key, e.inst) in s.promised ==> s.promised[(e.key, e.inst)] <= e.clock + e.ms))
  }

  predicate TimelyRun(s: State, cl: Clocks, es: seq<Event>)
    decreases |es|
  {
    es == [] || (Timely(s, cl, es[0]) && TimelyRun(Apply(s, cl, es[0]), cl, es[1..]))
  }

  /** The call comes no sooner than `now`, with a clock read before it, for a lease of its key's one length. */
  predicate Regular(now: int, cl: Clocks, ms: Key -> nat, e: Event) {
    && (!e.Prune? ==> now <= e.at)
    && (e.Lease? ==> e.clock <= e.at + cl.off(e.inst) && e.ms == ms(e.key))
  }

  /** `a` comes before `b`, and an instance's readings for one key come in the order of its calls. */
  predicate Ordered(a: Event, b: Event) {
    && (!a.Prune? && !b.Prune? ==> a.at <= b.at)
    && (a.Lease? && b.Lease? && a.key == b.key && a.inst == b.inst ==> a.clock <= b.clock)
  }

  ghost predicate InOrder(now: int, cl: Clocks, ms: Key -> nat, es: seq<Event>) {
    && (forall i | 0 <= i < |es| :: Regular(now, cl, ms, es[i]))
    && forall i, j | 0 <= i < j < |es| :: Ordered(es[i], es[j])
  }

  /** Nothing promised so far lies beyond what the coming calls will ask for. */
  ghost predicate PromisesMet(s: State, ms: Key -> nat, es: seq<Event>) {
    forall i | 0 <= i < |es| && es[i].Lease? && (es[i].key, es[i].inst) in s.promised ::
      s.promised[(es[i].key, es[i].inst)] <= es[i].clock + ms(es[i].key)
  }

  /** In-order calls with one lease length a key are timely, whatever was asked for before them in the same way. */
  lemma {:induction false} InOrderIsTimely(s: State, cl: Clocks, ms: Key -> nat, es: seq<Event>)
    requires InOrder(s.now, cl, ms, es) && PromisesMet(s, ms, es)
    ensures TimelyRun(s, cl, es)
    decreases |es|
  {
    if es != [] {
      var next, rest := Apply(s, cl, es[0]), es[1..];
      assert Regular(s.now, cl, ms, es[0]);
      forall i | 0 <= i < |rest|
        ensures Regular(next.now, cl, ms, rest[i])
        ensures rest[i].Lease? && (rest[i].key, rest[i].inst) in next.promised ==>
                  next.promised[(rest[i].key, rest[i].inst)] <= rest[i].clock + ms(rest[i].key)
      {
        assert Regular(s.now, cl, ms, es[i + 1]) && Ordered(es[0], es[i + 1]);
      }
      InOrderIsTimely(next, cl, ms, rest);
    }
  }

  /** How long a grant can still last, by what the table says now. */
  predicate Bounded(s: State, cl: Clocks, g: Grant) {
    && g.at <= s.now
    && (g.key, g.inst) in s.promised && g.end <= s.promised[(g.key, g.inst)] - cl.off(g.inst)
    && g.key in s.rows && s.rows[g.key].leaseUntil.Some?
    && if s.rows[g.key].holder == g.inst
       then g.end <= s.rows[g.key].leaseUntil.value - cl.off(g.inst) || g.end <= s.now
       else g.end <= s.now + cl.skew
  }

  /** Two holders of one lease: the earlier believes in it at most the skew after the later began. */
  predicate Apart(a: Grant, b: Grant, skew: nat) {
    a.key == b.key && a.inst != b.inst ==> a.end <= b.at + skew
  }

  ghost predicate Inv(s: State, cl: Clocks) {
    && (forall i {:trigger s.grants[i]} | 0 <= i < |s.grants| :: Bounded(s, cl, s.grants[i]))
    && forall i, j {:trigger s.grants[i], s.grants[j]} | 0 <= i < j < |s.grants| :: Apart(s.grants[i], s.grants[j], cl.skew)
  }

  lemma LeaseIsApart(s: State, cl: Clocks, e: Event, g: Grant)
    requires Synchronised(cl) && Bounded(s, cl, g)
    requires e.Lease? && Timely(s, cl, e) && Taken(s.rows, e)
    ensures Apart(g, Grant(e.key, e.inst, e.at, e.clock + e.ms - cl.off(e.inst)), cl.skew)
    ensures Bounded(Apply(s, cl, e), cl, g)
  {
    assert cl.off(e.inst) - cl.off(g.inst) <= cl.skew;
  }

  lemma OtherBounded(s: State, cl: Clocks, e: Event, g: Grant)
    requires Bounded(s, cl, g) && Timely(s, cl, e)
    requires !(e.Lease? && Taken(s.rows, e))
    ensures Bounded(Apply(s, cl, e), cl, GiveUp(g, e))
  {
  }

  lemma StepKeepsInv(s: State, cl: Clocks, e: Event)
    requires Synchronised(cl) && Inv(s, cl) && Timely(s, cl, e)
    ensures Inv(Apply(s, cl, e), cl)
  {
    var t := Apply(s, cl, e);
    forall i | 0 <= i < |s.grants|
      ensures Bounded(t, cl, t.grants[i])
      ensures e.Lease? && Taken(s.rows, e) ==> Apart(t.grants[i], t.grants[|s.grants|], cl.skew)
    {
      if e.Lease? && Taken(s.rows, e) {
        LeaseIsApart(s, cl, e, s.grants[i]);
      } else {
        OtherBounded(s, cl, e, s.grants[i]);
      }
    }
    forall i, j | 0 <= i < j < |s.grants|
      ensures Apart(t.grants[i], t.grants[j], cl.skew)
    {
      assert Apart(s.grants[i], s.grants[j], cl.skew);
    }
  }

  lemma {:induction false} RunKeepsInv(s: State, cl: Clocks, es: seq<Event>)
    requires Synchronised(cl) && Inv(s, cl) && TimelyRun(s, cl, es)
    ensures Inv(Run(s, cl, es), cl)
    decreases |es|
  {
    if es != [] {
      StepKeepsInv(s, cl, es[0]);
      RunKeepsInv(Apply(s, cl, es[0]), cl, es[1..]);
    }
  }

  function Min(a: int, b: int): int {
    if a < b then a else b
  }

  /** How long two grants' beliefs run side by side; negative when they do not meet. */
  function Overlap(a: Grant, b: Grant): int {
    Min(a.end, b.end) - (if a.at < b.at then b.at else a.at)
  }

  /**
   * Mutual exclusion with a bound: over any timely run, two different instances believe they hold
   * one lease at the same true time for at most the clock skew, whatever the table held before.
   */
  lemma LeasesOverlapAtMostSkew(s: State, cl: Clocks, es: seq<Event>, i: nat, j: nat)
    requires Synchronised(cl) && s.grants == [] && TimelyRun(s, cl, es)
    requires var gs := Run(s, cl, es).grants;
             i < |gs| && j < |gs| && gs[i].key == gs[j].key && gs[i].inst != gs[j].inst
    ensures var gs := Run(s, cl, es).grants; Overlap(gs[i], gs[j]) <= cl.skew
  {
    RunKeepsInv(s, cl, es);
    var gs := Run(s, cl, es).grants;
    assert if i < j then Apart(gs[i], gs[j], cl.skew) else Apart(gs[j], gs[i], cl.skew);
  }

  /** So the bound holds of every run of in-order calls on a table no lease was asked of before. */
  lemma InOrderLeasesOverlapAtMostSkew(s: State, cl: Clocks, ms: Key -> nat, es: seq<Event>, i: nat, j: nat)
    requires Synchronised(cl) && s.grants == [] && s.promised == map[] && InOrder(s.now, cl, ms, es)
    requires var gs := Run(s, cl, es).grants;
             i < |gs| && j < |gs| && gs[i].key == gs[j].key && gs[i].inst != gs[j].inst
    ensures var gs := Run(s, cl, es).grants; Overlap(gs[i], gs[j]) <= cl.skew
  {
    InOrderIsTimely(s, cl, ms, es);
    LeasesOverlapAtMostSkew(s, cl, es, i, j);
  }

  predicate Believes(g: Grant, key: Key, inst: Instance, t: int) {
    g.key == key && g.inst == inst && g.at <= t < g.end
  }

  /** With clocks that agree, at any time at most one instance believes it holds a lease. */
  lemma OneHolderAtATime(s: State, cl: Clocks, es: seq<Event>, key: Key, a: Instance, b: Instance, t: int)
    requires Synchronised(cl) && cl.skew == 0 && s.grants == [] && TimelyRun(s, cl, es)
    requires exists g | g in Run(s, cl, es).grants :: Believes(g, key, a, t)
    requires exists g | g in Run(s, cl, es).grants :: Believes(g, key, b, t)
    ensures a == b
  {
    var gs := Run(s, cl, es).grants;
    var i :| 0 <= i < |gs| && Believes(gs[i], key, a, t);
    var j :| 0 <= j < |gs| && Believes(gs[j], key, b, t);
    if a != b {
      LeasesOverlapAtMostSkew(s, cl, es, i, j);
      assert false;
    }
  }

  /** The bound is reached: an instance whose clock runs ahead takes over while the other still believes. */
  lemma SkewIsReached(skew: nat)
    requires 0 < skew
    ensures exists cl, es: seq<Event> :: Synchronised(cl) && cl.skew == skew
              && TimelyRun(State(map[], [], 0, map[]), cl, es)
              && |Run(State(map[], [], 0, map[]), cl, es).grants| == 2
              && var gs := Run(State(map[], [], 0, map[]), cl, es).grants;
                 gs[0].key == gs[1].key && gs[0].inst != gs[1].inst && Overlap(gs[0], gs[1]) == skew
  {
    var cl := Clocks(i => if i == "b" then skew else 0, skew);
    var key := Key("t", "job", "leader");
    var first, second := Lease("a", key, skew, 0, 0), Lease("b", key, skew, 0, skew);
    var s0 := State(map[], [], 0, map[]);
    var s1 := Apply(s0, cl, first);
    assert [first, second][1..] == [second];
    assert Run(s0, cl, [first, second]) == Run(s1, cl, [second]);
    assert [second][1..] == [];
    assert Run(s1, cl, [second]) == Apply(s1, cl, second);
    assert "a" != "b" by { assert "a"[0] != "b"[0]; }
    assert TimelyRun(s1, cl, [second]);
    assert TimelyRun(s0, cl, [first, second]);
  }

  /**
   * When an instance believes in a lease: from the call that took it until the end it asked for, by its
   * own clock, or its own release of that key if that comes sooner; no other call ends it.
   */
  lemma BeliefsExactly(s: State, cl: Clocks, e: Event, i: nat)
    ensures var gs := Apply(s, cl, e).grants;
            && |s.grants| <= |gs| <= |s.grants| + 1
            && (i < |s.grants| ==>
                  gs[i] == if e.Release? && e.key == s.grants[i].key && e.inst == s.grants[i].inst
                           then s.grants[i].(end := Min(s.grants[i].end, e.at)) else s.grants[i])
            && (|gs| > |s.grants| <==> e.Lease? && MayLease(s.rows, e.key, e.inst, e.clock))
            && (|gs| > |s.grants| ==> gs[|s.grants|] == Grant(e.key, e.inst, e.at, e.clock + e.ms - cl.off(e.inst)))
  {
  }

  // ── When a lease can be had ───────────────────────────────────────────────

  function Effects(rows: Rows, es: seq<Event>): Rows
    decreases |es|
  {
    if es == [] then rows else Effects(Effect(rows, es[0]), es[1..])
  }

  /** Calls that leave `a`'s lease until `end` as it is: none of `a`'s own on the key, and others' only before its end. */
  predicate Waits(e: Event, key: Key, a: Instance, end: int) {
    match e
    case Lease(inst, k, _, _, clock) => k == key ==> inst != a && clock < end
    case Release(inst, k, _) => k == key ==> inst != a
    case _ => true
  }

  lemma {:induction false} LeaseStands(rows: Rows, es: seq<Event>, key: Key)
    requires key in rows && rows[key].leaseUntil.Some?
    requires forall e | e in es :: Waits(e, key, rows[key].holder, rows[key].leaseUntil.value)
    ensures key in Effects(rows, es) && Effects(rows, es)[key] == rows[key]
    decreases |es|
  {
    if es != [] {
      assert Waits(es[0], key, rows[key].holder, rows[key].leaseUntil.value);
      LeaseStands(Effect(rows, es[0]), es[1..], key);
    }
  }

  /**
   * A lease once taken is had by another holder exactly when its time has run out by that holder's
   * clock, however many have asked in vain; its own holder may renew it at any time.
   */
  lemma LeaseEndsExactly(rows: Rows, first: Event, between: seq<Event>, e: Event)
    requires first.Lease? && e.Lease? && e.key == first.key
    requires first.key in rows ==> rows[first.key].leaseUntil.Some? &&
                                   (rows[first.key].leaseUntil.value <= first.clock || rows[first.key].holder == first.inst)
    requires forall w | w in between :: Waits(w, first.key, first.inst, first.clock + first.ms)
    ensures Taken(Effects(Effect(rows, first), between), e) <==> e.inst == first.inst || first.clock + first.ms <= e.clock
  {
    LeaseStands(Effect(rows, first), between, first.key);
  }

  /** A lease given up by its holder can be taken at once by anybody, at any clock that has reached the epoch. */
  lemma ReleasedIsFree(rows: Rows, first: Event, between: seq<Event>, at: int, idle: seq<Event>, e: Event)
    requires first.Lease? && e.Lease? && e.key == first.key && e.clock >= 0 && Taken(rows, first)
    requires forall w | w in between :: Waits(w, first.key, first.inst, first.clock + first.ms)
    requires forall w | w in idle :: (w.Lease? || w.Release?) ==> w.key != first.key
    ensures var given := Effect(Effects(Effect(rows, first), between), Release(first.inst, first.key, at));
            Taken(Effects(given, idle), e) && Effect(Effects(given, idle), e)[e.key] == Claim(e.inst, e.clock, Some(e.clock + e.ms))
  {
    LeaseStands(Effect(rows, first), between, first.key);
    LeaseStands(Effect(Effects(Effect(rows, first), between), Release(first.inst, first.key, at)), idle, first.key);
  }

  // ── Run-once claims ───────────────────────────────────────────────────────

  /** How many callers were told they took the run-once claim. */
  function Winners(rows: Rows, es: seq<Event>, key: Key): nat
    decreases |es|
  {
    if es == [] then 0
    else (if es[0].Once? && es[0].key == key && Taken(rows, es[0]) then 1 else 0) + Winners(Effect(rows, es[0]), es[1..], key)
  }

  /** No prune reaches a claim of this key made at `since` or later. */
  predicate NotPruned(es: seq<Event>, key: Key, since: int) {
    forall i | 0 <= i < |es| ::
      es[i].Prune? && es[i].tenant == key.tenant && es[i].job == key.job ==> es[i].before <= since
  }

  predicate CalledSince(es: seq<Event>, key: Key, since: int) {
    forall i | 0 <= i < |es| :: es[i].Once? && es[i].key == key ==> since <= es[i].clock
  }

  /** A run-once claim is never taken over: not by a lease, a release or another caller. */
  lemma {:induction false} RunOnceIsKept(rows: Rows, es: seq<Event>, key: Key)
    requires key in rows && rows[key].leaseUntil.None? && NotPruned(es, key, rows[key].claimedAt)
    ensures key in Effects(rows, es) && Effects(rows, es)[key] == rows[key]
    ensures Winners(rows, es, key) == 0
    decreases |es|
  {
    if es != [] {
      RunOnceIsKept(Effect(rows, es[0]), es[1..], key);
    }
  }

  lemma {:induction false} LeaseStaysLease(rows: Rows, es: seq<Event>, key: Key)
    requires key in rows && rows[key].leaseUntil.Some?
    ensures Winners(rows, es, key) == 0
    decreases |es|
  {
    if es != [] {
      LeaseStaysLease(Effect(rows, es[0]), es[1..], key);
    }
  }

  /**
   * Between prunes that reach it, a run-once claim is won at most once, by exactly the first caller:
   * nobody wins a key already claimed, and the first call on a free key wins.
   */
  lemma {:induction false} OnceIsWonOnce(rows: Rows, es: seq<Event>, key: Key, since: int)
    requires NotPruned(es, key, since) && CalledSince(es, key, since)
    requires key in rows && rows[key].leaseUntil.None? ==> since <= rows[key].claimedAt
    ensures Winners(rows, es, key) <= 1
    ensures key in rows ==> Winners(rows, es, key) == 0
    ensures key !in rows && es != [] && es[0].Once? && es[0].key == key ==> Winners(rows, es, key) == 1
    decreases |es|
  {
    if key in rows && rows[key].leaseUntil.Some? {
      LeaseStaysLease(rows, es, key);
    } else if es != [] {
      OnceIsWonOnce(Effect(rows, es[0]), es[1..], key, since);
    }
  }

  // ── The service ───────────────────────────────────────────────────────────

  class ClaimTable {
    var rows: Rows

    method ClaimOnce(holder: Instance, key: Key, ghost at: int, now: int) returns (taken: bool)
      modifies this
      ensures taken == Taken(old(rows), Once(holder, key, at, now))
      ensures rows == Effect(old(rows), Once(holder, key, at, now))
      ensures taken <==> key !in old(rows)
      ensures rows == if taken then old(rows)[key := Claim(holder, now, None)] else old(rows)
    {
      taken := key !in rows;
      if taken {
        rows := rows[key := Claim(holder, now, None)];
      }
    }

    method TakeLease(holder: Instance, key: Key, ms: nat, ghost at: int, now: int) returns (held: bool)
      modifies this
      ensures held == Taken(old(rows), Lease(holder, key, ms, at, now))
      ensures rows == Effect(old(rows), Lease(holder, key, ms, at, now))
      ensures !held <==> key in old(rows) && (old(rows)[key].leaseUntil.None?
                                              || (old(rows)[key].holder != holder && now < old(rows)[key].leaseUntil.value))
      ensures rows == if held then old(rows)[key := Claim(holder, now, Some(now + ms))] else old(rows)
    {
      held := true;
      if key in rows {
        var c := rows[key];
        held := c.leaseUntil.Some? && (c.leaseUntil.value <= now || c.holder == holder);
      }
      if held {
        rows := rows[key := Claim(holder, now, Some(now + ms))];
      }
    }

    method ReleaseLease(holder: Instance, key: Key, ghost at: int)
      modifies this
      ensures rows == Effect(old(rows), Release(holder, key, at))
      ensures rows == if key in old(rows) && old(rows)[key].holder == holder && old(rows)[key].leaseUntil.Some?
                      then old(rows)[key := old(rows)[key].(leaseUntil := Some(0))] else old(rows)
    {
      if key in rows && rows[key].holder == holder && rows[key].leaseUntil.Some? {
        rows := rows[key := rows[key].(leaseUntil := Some(0))];
      }
    }

    method PruneRuns(tenant: string, job: string, before: int) returns (count: nat)
      modifies this
      ensures rows == Effect(old(rows), Prune(tenant, job, before))
      ensures count == |old(rows)| - |rows|
      ensures forall k | k in old(rows) ::
                k !in rows <==> k.tenant == tenant && k.job == job && old(rows)[k].leaseUntil.None? && old(rows)[k].claimedAt < before
      ensures forall k | k in rows :: k in old(rows) && rows[k] == old(rows)[k]
    {
      var kept := map k | k in rows && !Deletes(rows[k], k, Prune(tenant, job, before)) :: rows[k];
      assert kept.Keys <= rows.Keys;
      assert |rows.Keys - kept.Keys| == |rows.Keys| - |kept.Keys|;
      count := |rows| - |kept|;
      rows := kept;
    }
  }
}
