/**
 * The account lock that sign-in, the second factor and step-up share: how many credentials an
 * account can be made to compare in any stretch of time, and what concurrency leaves of that.
 */
module Lockout {
  import opened Wrappers
  import opened Cardinality

  datatype Account = Account(attempts: nat, lockedUntil: Option<int>)

  datatype Policy = Policy(maxFailed: nat, lockFor: nat)

  predicate Locked(a: Account, now: int) {
    a.lockedUntil.Some? && now < a.lockedUntil.value
  }

  predicate LockRanOut(a: Account, now: int) {
    a.lockedUntil.Some? && a.lockedUntil.value <= now
  }

  /** UPDATE ... SET loginAttempts = 0, lockedUntil = NULL WHERE lockedUntil <= now */
  function ResetExpired(a: Account, now: int): Account {
    if LockRanOut(a, now) then Account(0, None) else a
  }

  function LockIfReached(a: Account, p: Policy, now: int): Account {
    if a.attempts >= p.maxFailed then a.(lockedUntil := Some(now + p.lockFor)) else a
  }

  /** The three statements that count a failed attempt, with the two times they read. */
  function Record(a: Account, p: Policy, reset: int, lock: int): Account {
    var open := ResetExpired(a, reset);
    LockIfReached(open.(attempts := open.attempts + 1), p, lock)
  }

  // ── One handler at a time ─────────────────────────────────────────────────

  /** A wrong credential: when its handler checks the lock, resets an expired one, and sets a new one. */
  datatype Guess = Guess(check: int, reset: int, lock: int)

  predicate InOrder(from: int, gs: seq<Guess>)
    decreases |gs|
  {
    gs == [] || (from <= gs[0].check <= gs[0].reset <= gs[0].lock && InOrder(gs[0].lock, gs[1..]))
  }

  /** `checks` are the times a credential was really compared, `since` how many of them since the last reset. */
  datatype Trace = Trace(account: Account, checks: seq<int>, since: nat)

  function Try(t: Trace, p: Policy, g: Guess): Trace {
    if Locked(t.account, g.check) then t
    else Trace(Record(t.account, p, g.reset, g.lock), t.checks + [g.check],
               (if LockRanOut(t.account, g.reset) then 0 else t.since) + 1)
  }

  function TryAll(t: Trace, p: Policy, gs: seq<Guess>): Trace
    decreases |gs|
  {
    if gs == [] then t else TryAll(Try(t, p, gs[0]), p, gs[1..])
  }

  ghost predicate Sorted(checks: seq<int>) {
    forall i, j | 0 <= i <= j < |checks| :: checks[i] <= checks[j]
  }

  /** `n` comparisons further on, the whole lock period has gone by. */
  ghost predicate Spaced(checks: seq<int>, n: nat, period: nat) {
    forall i, j | 0 <= i && i + n <= j < |checks| :: checks[i] + period <= checks[j]
  }

  /** Everything compared before the last reset is a whole lock period before everything after it. */
  ghost predicate Separated(checks: seq<int>, since: nat, period: nat) {
    forall i, j | 0 <= i < |checks| - since <= j < |checks| :: checks[i] + period <= checks[j]
  }

  /** What the account's own columns say of the failures counted. */
  ghost predicate AccountFits(a: Account, since: nat, checks: seq<int>, p: Policy) {
    && since <= a.attempts
    && (a.lockedUntil.None? ==> since == 0 || a.attempts < p.maxFailed)
    && (a.lockedUntil.Some? ==> forall i | 0 <= i < |checks| :: checks[i] + p.lockFor <= a.lockedUntil.value)
  }

  /** All of it at least `period` before `now`. */
  ghost predicate AllBefore(checks: seq<int>, period: nat, now: int) {
    forall i | 0 <= i < |checks| :: checks[i] + period <= now
  }

  /** What the comparisons so far say of the rate. */
  ghost predicate Paced(checks: seq<int>, since: nat, p: Policy) {
    && Sorted(checks) && Spaced(checks, p.maxFailed, p.lockFor) && Separated(checks, since, p.lockFor)
    && since <= |checks| && (since == 0 ==> checks == [])
  }

  ghost predicate Inv(t: Trace, p: Policy, now: int) {
    && Paced(t.checks, t.since, p) && AllBefore(t.checks, 0, now)
    && AccountFits(t.account, t.since, t.checks, p)
  }

  /** One more comparison since the same reset: everything before that reset is a lock period in the past. */
  lemma PacedNext(checks: seq<int>, since: nat, p: Policy, c: int)
    requires Paced(checks, since, p) && AllBefore(checks, 0, c) && since < p.maxFailed
    ensures Paced(checks + [c], since + 1, p)
  {
    forall i | 0 <= i < |checks| - since
      ensures checks[i] + p.lockFor <= c
    {
      assert checks[i] + p.lockFor <= checks[|checks| - since];
    }
  }

  /** The first comparison after a reset, when everything before it is a lock period in the past. */
  lemma PacedAfterReset(checks: seq<int>, since: nat, p: Policy, c: int)
    requires Paced(checks, since, p) && AllBefore(checks, p.lockFor, c) && p.maxFailed >= 1
    ensures Paced(checks + [c], 1, p)
  {
  }

  lemma RecordFits(a: Account, since: nat, checks: seq<int>, p: Policy, g: Guess)
    requires p.maxFailed >= 1 && AccountFits(a, since, checks, p) && !Locked(a, g.check)
    requires g.check <= g.reset <= g.lock && AllBefore(checks, 0, g.check)
    ensures var next := if LockRanOut(a, g.reset) then 1 else since + 1;
            AccountFits(Record(a, p, g.reset, g.lock), next, checks + [g.check], p)
  {
  }

  lemma TryKeepsInv(t: Trace, p: Policy, g: Guess, now: int)
    requires p.maxFailed >= 1 && Inv(t, p, now) && now <= g.check <= g.reset <= g.lock
    ensures Inv(Try(t, p, g), p, g.lock)
  {
    if !Locked(t.account, g.check) {
      RecordFits(t.account, t.since, t.checks, p, g);
      if LockRanOut(t.account, g.reset) {
        PacedAfterReset(t.checks, t.since, p, g.check);
      } else {
        PacedNext(t.checks, t.since, p, g.check);
      }
    }
  }

  lemma {:induction false} TryAllKeepsInv(t: Trace, p: Policy, gs: seq<Guess>, now: int) returns (end: int)
    requires p.maxFailed >= 1 && Inv(t, p, now) && InOrder(now, gs)
    ensures Inv(TryAll(t, p, gs), p, end)
    decreases |gs|
  {
    if gs == [] {
      end := now;
    } else {
      TryKeepsInv(t, p, gs[0], now);
      end := TryAllKeepsInv(Try(t, p, gs[0]), p, gs[1..], gs[0].lock);
    }
  }

  function InWindow(checks: seq<int>, from: int, period: nat): set<nat> {
    set i: nat | i < |checks| && from <= checks[i] < from + period
  }

  /**
   * With no success in between, any half-open stretch of the lock period compares at most
   * `maxFailed` wrong credentials, across any number of locks running out, from any starting state.
   */
  lemma RateBound(start: Account, p: Policy, gs: seq<Guess>, now: int, from: int)
    requires p.maxFailed >= 1 && InOrder(now, gs)
    ensures |InWindow(TryAll(Trace(start, [], 0), p, gs).checks, from, p.lockFor)| <= p.maxFailed
  {
    var end := TryAllKeepsInv(Trace(start, [], 0), p, gs, now);
    var checks := TryAll(Trace(start, [], 0), p, gs).checks;
    CloseTogether(InWindow(checks, from, p.lockFor), 0, |checks|, p.maxFailed);
  }

  // ── Any interleaving ──────────────────────────────────────────────────────

  type RequestId = string

  /** What a request whose credential was wrong still has to do. */
  datatype Stage = Resetting | Counting | Setting

  /** What the statements did to the counter, in order. */
  datatype Mark = Added | Cleared

  datatype State = State(account: Account, requests: map<RequestId, Stage>, marks: seq<Mark>)

  datatype Event =
    | CheckFails(request: RequestId, now: int)
    | Reset(request: RequestId, now: int)
    | Count(request: RequestId)
    | Lock(request: RequestId, now: int)
    | Success

  function Apply(s: State, p: Policy, e: Event): State {
    match e
    case CheckFails(r, now) =>
      if r in s.requests || Locked(s.account, now) then s else s.(requests := s.requests[r := Resetting])
    case Reset(r, now) =>
      if r !in s.requests || !s.requests[r].Resetting? then s
      else State(ResetExpired(s.account, now), s.requests[r := Counting],
                 if LockRanOut(s.account, now) then s.marks + [Cleared] else s.marks)
    case Count(r) =>
      if r !in s.requests || !s.requests[r].Counting? then s
      else
        var counted := s.account.(attempts := s.account.attempts + 1);
        State(counted, if counted.attempts >= p.maxFailed then s.requests[r := Setting] else s.requests - {r},
              s.marks + [Added])
    case Lock(r, now) =>
      if r !in s.requests || !s.requests[r].Setting? then s
      else State(s.account.(lockedUntil := Some(now + p.lockFor)), s.requests - {r}, s.marks)
    case Success => State(Account(0, None), s.requests, s.marks + [Cleared])
  }

  function Run(s: State, p: Policy, es: seq<Event>): State
    decreases |es|
  {
    if es == [] then s else Run(Apply(s, p, es[0]), p, es[1..])
  }

  /** Additions after the last clearing. */
  function SinceCleared(marks: seq<Mark>): nat {
    if marks == [] || marks[|marks| - 1].Cleared? then 0 else SinceCleared(marks[..|marks| - 1]) + 1
  }

  lemma OneMark(marks: seq<Mark>, m: Mark)
    ensures SinceCleared(marks + [m]) == if m.Added? then SinceCleared(marks) + 1 else 0
  {
    assert (marks + [m])[..|marks|] == marks;
  }

  /** Under every interleaving no failed attempt's increment is lost. */
  lemma {:induction false} NoIncrementLost(s: State, p: Policy, es: seq<Event>)
    requires s.account.attempts == SinceCleared(s.marks)
    ensures var end := Run(s, p, es); end.account.attempts == SinceCleared(end.marks)
    decreases |es|
  {
    if es != [] {
      OneMark(s.marks, Added);
      OneMark(s.marks, Cleared);
      NoIncrementLost(Apply(s, p, es[0]), p, es[1..]);
    }
  }

  // ── How far requests in flight stretch the bound ──────────────────────────

  /** The event makes an account's credential be compared. */
  predicate Compares(s: State, e: Event) {
    e.CheckFails? && e.request !in s.requests && !Locked(s.account, e.now)
  }

  /** When credentials were compared in a run. */
  function Comparisons(s: State, p: Policy, es: seq<Event>): seq<int>
    decreases |es|
  {
    if es == [] then []
    else (if Compares(s, es[0]) then [es[0].now] else []) + Comparisons(Apply(s, p, es[0]), p, es[1..])
  }

  predicate InFlightAtMost(s: State, p: Policy, es: seq<Event>, c: nat)
    decreases |es|
  {
    |s.requests.Keys| <= c && (es != [] ==> InFlightAtMost(Apply(s, p, es[0]), p, es[1..], c))
  }

  function TimeOf(e: Event, clock: int): int {
    if e.Count? || e.Success? then clock else e.now
  }

  /** The statements run in the order of the times they read. */
  predicate InTime(clock: int, es: seq<Event>)
    decreases |es|
  {
    es == [] || (clock <= TimeOf(es[0], clock) && InTime(TimeOf(es[0], clock), es[1..]))
  }

  /** How many credentials were right. */
  function Successes(es: seq<Event>): nat
    decreases |es|
  {
    if es == [] then 0 else (if es[0].Success? then 1 else 0) + Successes(es[1..])
  }

  /** A comparison, and how many locks were set before it. */
  datatype Check = Check(at: int, epoch: nat)

  /**
   * A run as it goes: the comparisons so far, those from `start` on made since the last lock was set,
   * and `dropped`, the requests counted without reaching the limit since the counter was cleared.
   */
  datatype Watch = Watch(state: State, checks: seq<Check>, epoch: nat, start: nat, dropped: nat, clock: int)

  predicate Sets(s: State, e: Event) {
    e.Lock? && e.request in s.requests && s.requests[e.request].Setting?
  }

  predicate Clears(s: State, e: Event) {
    e.Reset? && e.request in s.requests && s.requests[e.request].Resetting? && LockRanOut(s.account, e.now)
  }

  predicate Drops(s: State, p: Policy, e: Event) {
    e.Count? && e.request in s.requests && s.requests[e.request].Counting? && s.account.attempts + 1 < p.maxFailed
  }

  function Follow(w: Watch, p: Policy, e: Event): Watch {
    var s := w.state;
    var checks := if Compares(s, e) then w.checks + [Check(e.now, w.epoch)] else w.checks;
    Watch(Apply(s, p, e), checks,
          if Sets(s, e) then w.epoch + 1 else w.epoch, if Sets(s, e) then |checks| else w.start,
          if Sets(s, e) || Clears(s, e) then 0 else if Drops(s, p, e) && s.account.lockedUntil.None? then w.dropped + 1 else w.dropped,
          TimeOf(e, w.clock))
  }

  function Resetters(requests: map<RequestId, Stage>): set<RequestId> {
    set r | r in requests && requests[r].Resetting?
  }

  /** Comparisons made before the last lock was set are a lock period away from `t`. */
  ghost predicate EarlierBefore(w: Watch, period: nat, t: int) {
    forall i | 0 <= i < w.start <= |w.checks| :: w.checks[i].at + period <= t
  }

  /**
   * Before the counter is cleared, nobody compared since the last lock has come any further; after
   * that, each was dropped, at most `maxFailed - 1` of them, or is still in flight.
   */
  ghost predicate Fits(w: Watch, p: Policy) {
    var since := |w.checks| - w.start;
    match w.state.account.lockedUntil
    case Some(until) =>
      && w.dropped == 0 && since <= |Resetters(w.state.requests)| && (since > 0 ==> until <= w.clock)
      && EarlierBefore(w, p.lockFor, until)
    case None =>
      && w.dropped <= w.state.account.attempts && w.dropped <= p.maxFailed - 1 && since <= w.dropped + |w.state.requests.Keys|
      && EarlierBefore(w, p.lockFor, w.clock)
  }

  /** Comparisons with a lock between them are a lock period apart; no more than `n` have none. */
  ghost predicate Epochs(w: Watch, p: Policy, n: nat) {
    && w.start <= |w.checks|
    && (forall i | 0 <= i < |w.checks| :: w.checks[i].at <= w.clock && (if i < w.start then w.checks[i].epoch < w.epoch else w.checks[i].epoch == w.epoch))
    && forall i, j | 0 <= i < j < |w.checks| ::
         if w.checks[i].epoch == w.checks[j].epoch then j - i < n else w.checks[i].at + p.lockFor <= w.checks[j].at
  }

  lemma CheckFits(w: Watch, p: Policy, e: Event)
    requires p.maxFailed >= 1 && w.start <= |w.checks| && Fits(w, p)
    requires forall i | 0 <= i < |w.checks| :: w.checks[i].at <= w.clock
    requires !e.Success? && w.clock <= TimeOf(e, w.clock)
    requires e.CheckFails?
    ensures Fits(Follow(w, p, e), p)
  {
    var s, t := w.state.requests, Apply(w.state, p, e).requests;
    if Compares(w.state, e) {
      assert Resetters(t) == Resetters(s) + {e.request} && t.Keys == s.Keys + {e.request};
    }
  }

  lemma ResetFits(w: Watch, p: Policy, e: Event)
    requires p.maxFailed >= 1 && w.start <= |w.checks| && Fits(w, p)
    requires forall i | 0 <= i < |w.checks| :: w.checks[i].at <= w.clock
    requires !e.Success? && w.clock <= TimeOf(e, w.clock)
    requires e.Reset?
    ensures Fits(Follow(w, p, e), p)
  {
    var s, t := w.state.requests, Apply(w.state, p, e).requests;
    assert t.Keys == s.Keys;
    Fewer(Resetters(s), s.Keys);
    if w.state.account.lockedUntil.Some? && !LockRanOut(w.state.account, e.now) {
      assert |w.checks| == w.start;
    }
  }

  lemma CountFits(w: Watch, p: Policy, e: Event)
    requires p.maxFailed >= 1 && w.start <= |w.checks| && Fits(w, p)
    requires forall i | 0 <= i < |w.checks| :: w.checks[i].at <= w.clock
    requires !e.Success? && w.clock <= TimeOf(e, w.clock)
    requires e.Count?
    ensures Fits(Follow(w, p, e), p)
  {
    var s, t := w.state.requests, Apply(w.state, p, e).requests;
    assert Resetters(t) == Resetters(s);
    assert t.Keys == if Drops(w.state, p, e) then s.Keys - {e.request} else s.Keys;
  }

  lemma LockFits(w: Watch, p: Policy, e: Event)
    requires p.maxFailed >= 1 && w.start <= |w.checks| && Fits(w, p)
    requires forall i | 0 <= i < |w.checks| :: w.checks[i].at <= w.clock
    requires !e.Success? && w.clock <= TimeOf(e, w.clock)
    requires e.Lock?
    ensures Fits(Follow(w, p, e), p)
  {
  }

  lemma FollowFits(w: Watch, p: Policy, e: Event)
    requires p.maxFailed >= 1 && w.start <= |w.checks| && Fits(w, p)
    requires forall i | 0 <= i < |w.checks| :: w.checks[i].at <= w.clock
    requires !e.Success? && w.clock <= TimeOf(e, w.clock)
    ensures Fits(Follow(w, p, e), p)
  {
    match e
    case CheckFails(_, _) => CheckFits(w, p, e);
    case Reset(_, _) => ResetFits(w, p, e);
    case Count(_) => CountFits(w, p, e);
    case Lock(_, _) => LockFits(w, p, e);
  }

  lemma FollowEpochs(w: Watch, p: Policy, e: Event, c: nat)
    requires p.maxFailed >= 1 && Fits(w, p) && Epochs(w, p, p.maxFailed - 1 + c)
    requires Fits(Follow(w, p, e), p) && |Apply(w.state, p, e).requests.Keys| <= c
    requires !e.Success? && w.clock <= TimeOf(e, w.clock)
    ensures Epochs(Follow(w, p, e), p, p.maxFailed - 1 + c)
  {
    var v := Follow(w, p, e);
    if Compares(w.state, e) {
      Fewer(Resetters(v.state.requests), v.state.requests.Keys);
      assert |v.checks| - v.start <= p.maxFailed - 1 + c;
    }
  }

  lemma {:induction false} WatchRun(w: Watch, p: Policy, es: seq<Event>, c: nat) returns (end: Watch)
    requires p.maxFailed >= 1 && Fits(w, p) && Epochs(w, p, p.maxFailed - 1 + c)
    requires InTime(w.clock, es) && Successes(es) == 0 && InFlightAtMost(w.state, p, es, c)
    ensures Epochs(end, p, p.maxFailed - 1 + c)
    ensures |end.checks| == |w.checks| + |Comparisons(w.state, p, es)| && w.checks <= end.checks
    ensures forall i | 0 <= i < |Comparisons(w.state, p, es)| :: end.checks[|w.checks| + i].at == Comparisons(w.state, p, es)[i]
    decreases |es|
  {
    if es == [] {
      end := w;
    } else {
      FollowFits(w, p, es[0]);
      FollowEpochs(w, p, es[0], c);
      end := WatchRun(Follow(w, p, es[0]), p, es[1..], c);
    }
  }

  /**
   * However the statements of requests interleave, with at most `c` requests in flight at a time and
   * no success in between, any half-open stretch of the lock period compares at most
   * `maxFailed - 1 + c` wrong credentials, from any starting state.
   */
  lemma ConcurrentRateBound(s: State, p: Policy, es: seq<Event>, now: int, c: nat, from: int)
    requires p.maxFailed >= 1 && InTime(now, es) && Successes(es) == 0 && InFlightAtMost(s, p, es, c)
    ensures |InWindow(Comparisons(s, p, es), from, p.lockFor)| <= p.maxFailed - 1 + c
  {
    var end := WatchRun(Watch(s, [], 0, 0, 0, now), p, es, c);
    var times := Comparisons(s, p, es);
    var inside := InWindow(times, from, p.lockFor);
    forall i, j | i in inside && j in inside
      ensures j - i < p.maxFailed - 1 + c
    {
      if i < j {
        assert end.checks[i].at == times[i] && end.checks[j].at == times[j];
      } else {
        AtLeastOneInFlight(s, p, es, c, i);
      }
    }
    CloseTogether(inside, 0, |times|, p.maxFailed - 1 + c);
  }

  /** A run that compares anything has a request in flight. */
  lemma {:induction false} AtLeastOneInFlight(s: State, p: Policy, es: seq<Event>, c: nat, i: nat)
    requires InFlightAtMost(s, p, es, c) && i < |Comparisons(s, p, es)|
    ensures c >= 1
    decreases |es|
  {
    var next := Apply(s, p, es[0]);
    if Compares(s, es[0]) {
      assert es[0].request in next.requests.Keys;
    } else {
      AtLeastOneInFlight(next, p, es[1..], c, i);
    }
  }

  // ── Exactly when the limit holds ──────────────────────────────────────────

  /** Wrong credentials handled one at a time, at one instant. */
  function Failures(n: nat): seq<Event> {
    if n == 0 then [] else [CheckFails("a", 0), Reset("a", 0), Count("a")] + Failures(n - 1)
  }

  const TOGETHER: seq<Event> := [CheckFails("a", 0), CheckFails("b", 0)]

  /** All of a run happens at one instant, with at most `c` requests in flight, and compares `n` credentials. */
  ghost predicate AtOnce(s: State, p: Policy, es: seq<Event>, c: nat, n: nat) {
    && InTime(0, es) && InFlightAtMost(s, p, es, c)
    && |Comparisons(s, p, es)| == n && forall i | 0 <= i < n :: Comparisons(s, p, es)[i] == 0
  }

  lemma OneMoreStep(s: State, p: Policy, e: Event, es: seq<Event>, c: nat, n: nat)
    requires AtOnce(Apply(s, p, e), p, es, c, n) && |s.requests.Keys| <= c && TimeOf(e, 0) == 0
    ensures AtOnce(s, p, [e] + es, c, if Compares(s, e) then n + 1 else n)
  {
    assert ([e] + es)[1..] == es;
  }

  /** One wrong credential below the limit, handled on its own, and whatever comes after it. */
  lemma OneFailureThen(s: State, p: Policy, es: seq<Event>, c: nat, n: nat)
    requires c >= 1 && s.requests == map[] && s.account.lockedUntil.None? && s.account.attempts + 1 < p.maxFailed
    requires AtOnce(State(Account(s.account.attempts + 1, None), map[], s.marks + [Added]), p, es, c, n)
    ensures AtOnce(s, p, [CheckFails("a", 0), Reset("a", 0), Count("a")] + es, c, n + 1)
  {
    var checked := Apply(s, p, CheckFails("a", 0));
    var reset := Apply(checked, p, Reset("a", 0));
    assert checked.requests == map["a" := Resetting] && reset.requests == map["a" := Counting];
    assert reset.requests - {"a"} == map[] && checked.requests.Keys == reset.requests.Keys == {"a"};
    OneMoreStep(reset, p, Count("a"), es, c, n);
    OneMoreStep(checked, p, Reset("a", 0), [Count("a")] + es, c, n);
    OneMoreStep(s, p, CheckFails("a", 0), [Reset("a", 0)] + ([Count("a")] + es), c, n);
    assert [CheckFails("a", 0)] + ([Reset("a", 0)] + ([Count("a")] + es)) == [CheckFails("a", 0), Reset("a", 0), Count("a")] + es;
  }

  lemma BothChecked(s: State, p: Policy)
    requires s.requests == map[] && s.account.lockedUntil.None?
    ensures AtOnce(s, p, TOGETHER, 2, 2)
  {
    var one := Apply(s, p, TOGETHER[0]);
    var two := Apply(one, p, TOGETHER[1]);
    assert "a" != "b" by { assert "a"[0] != "b"[0]; }
    assert one.requests == map["a" := Resetting] && two.requests.Keys == {"a", "b"};
    assert AtOnce(two, p, [], 2, 0);
    OneMoreStep(one, p, TOGETHER[1], [], 2, 0);
    OneMoreStep(s, p, TOGETHER[0], [TOGETHER[1]], 2, 1);
    assert [TOGETHER[0]] + [TOGETHER[1]] == TOGETHER && [TOGETHER[1]] + [] == [TOGETHER[1]];
  }

  lemma {:induction false} FailuresThenBoth(s: State, p: Policy, n: nat)
    requires s.requests == map[] && s.account.lockedUntil.None? && s.account.attempts + n + 1 == p.maxFailed
    ensures AtOnce(s, p, Failures(n) + TOGETHER, 2, n + 2)
    decreases n
  {
    if n == 0 {
      assert Failures(0) + TOGETHER == TOGETHER;
      BothChecked(s, p);
    } else {
      var rest := Failures(n - 1) + TOGETHER;
      FailuresThenBoth(State(Account(s.account.attempts + 1, None), map[], s.marks + [Added]), p, n - 1);
      OneFailureThen(s, p, rest, 2, n + 1);
      assert [CheckFails("a", 0), Reset("a", 0), Count("a")] + rest == Failures(n) + TOGETHER;
    }
  }

  lemma {:induction false} NoSuccesses(n: nat)
    ensures Successes(Failures(n) + TOGETHER) == 0
  {
    if n == 0 {
      var es := Failures(0) + TOGETHER;
      assert es == [CheckFails("a", 0), CheckFails("b", 0)];
      assert es[1..] == [CheckFails("b", 0)] && es[1..][1..] == [];
      assert Successes(es[1..]) == 0;
    } else {
      NoSuccesses(n - 1);
      var rest := Failures(n - 1) + TOGETHER;
      var es := Failures(n) + TOGETHER;
      assert es == [CheckFails("a", 0), Reset("a", 0), Count("a")] + rest;
      var two := es[1..];
      var three := two[1..];
      assert two == [Reset("a", 0), Count("a")] + rest && three == [Count("a")] + rest && three[1..] == rest;
      assert Successes(es) == Successes(two) == Successes(three) == Successes(rest);
    }
  }

  lemma {:induction false} MoreInFlight(s: State, p: Policy, es: seq<Event>, c: nat, d: nat)
    requires InFlightAtMost(s, p, es, c) && c <= d
    ensures InFlightAtMost(s, p, es, d)
    decreases |es|
  {
    if es != [] {
      MoreInFlight(Apply(s, p, es[0]), p, es[1..], c, d);
    }
  }

  /** For every policy, two requests in flight are enough for one comparison too many. */
  lemma ConcurrentChecksExceedTheBound(p: Policy) returns (es: seq<Event>)
    requires p.maxFailed >= 1 && p.lockFor > 0
    ensures InTime(0, es) && Successes(es) == 0 && InFlightAtMost(State(Account(0, None), map[], []), p, es, 2)
    ensures |InWindow(Comparisons(State(Account(0, None), map[], []), p, es), 0, p.lockFor)| == p.maxFailed + 1
  {
    var s := State(Account(0, None), map[], []);
    es := Failures(p.maxFailed - 1) + TOGETHER;
    FailuresThenBoth(s, p, p.maxFailed - 1);
    NoSuccesses(p.maxFailed - 1);
    AllBelow(InWindow(Comparisons(s, p, es), 0, p.lockFor), p.maxFailed + 1);
  }

  /** The run is one of at most `c` requests in flight without a success, and keeps to the limit. */
  ghost predicate KeepsTo(p: Policy, c: nat, s: State, es: seq<Event>, now: int, from: int) {
    InTime(now, es) && Successes(es) == 0 && InFlightAtMost(s, p, es, c) ==>
      |InWindow(Comparisons(s, p, es), from, p.lockFor)| <= p.maxFailed
  }

  /**
   * Exactly when the limit holds: every run with at most `c` requests in flight compares at most
   * `maxFailed` wrong credentials in any lock period if and only if requests are handled one at a time.
   */
  lemma LimitHoldsExactlyWhenSerial(p: Policy, c: nat)
    requires p.maxFailed >= 1 && p.lockFor > 0
    ensures (forall s, es, now, from :: KeepsTo(p, c, s, es, now, from)) <==> c <= 1
  {
    if c <= 1 {
      forall s, es, now, from
        ensures KeepsTo(p, c, s, es, now, from)
      {
        if InTime(now, es) && Successes(es) == 0 && InFlightAtMost(s, p, es, c) {
          ConcurrentRateBound(s, p, es, now, c, from);
        }
      }
    } else {
      var es := ConcurrentChecksExceedTheBound(p);
      var s := State(Account(0, None), map[], []);
      MoreInFlight(s, p, es, 2, c);
      assert !KeepsTo(p, c, s, es, 0, 0);
    }
  }

  // ── What a right password does to the limit ───────────────────────────────

  lemma {:induction false} ComparisonsOfParts(s: State, p: Policy, a: seq<Event>, b: seq<Event>)
    ensures Comparisons(s, p, a + b) == Comparisons(s, p, a) + Comparisons(Run(s, p, a), p, b)
    decreases |a|
  {
    if a == [] {
      assert a + b == b;
    } else {
      assert (a + b)[1..] == a[1..] + b;
      ComparisonsOfParts(Apply(s, p, a[0]), p, a[1..], b);
    }
  }

  lemma {:induction false} PartsAreInTime(clock: int, s: State, p: Policy, a: seq<Event>, b: seq<Event>, c: nat) returns (later: int)
    requires InTime(clock, a + b) && InFlightAtMost(s, p, a + b, c)
    ensures InTime(clock, a) && InFlightAtMost(s, p, a, c) && InTime(later, b) && InFlightAtMost(Run(s, p, a), p, b, c)
    ensures Successes(a + b) == Successes(a) + Successes(b)
    decreases |a|
  {
    if a == [] {
      assert a + b == b;
      later := clock;
    } else {
      assert (a + b)[1..] == a[1..] + b;
      later := PartsAreInTime(TimeOf(a[0], clock), Apply(s, p, a[0]), p, a[1..], b, c);
    }
  }

  lemma WindowOfParts(a: seq<int>, b: seq<int>, from: int, period: nat)
    ensures |InWindow(a + b, from, period)| <= |InWindow(a, from, period)| + |InWindow(b, from, period)|
  {
    var all, first := InWindow(a + b, from, period), InWindow(a, from, period);
    var second := set i | i in all && i >= |a|;
    assert all == first + second;
    Shifted(InWindow(b, from, period), second, |a|);
  }

  lemma {:induction false} BeforeTheFirstSuccess(es: seq<Event>) returns (a: seq<Event>, b: seq<Event>)
    requires Successes(es) > 0
    ensures es == a + ([Success] + b) && Successes(a) == 0 && Successes(b) + 1 == Successes(es)
    decreases |es|
  {
    if es[0].Success? {
      a, b := [], es[1..];
      assert es == [Success] + b;
    } else {
      var before;
      before, b := BeforeTheFirstSuccess(es[1..]);
      a := [es[0]] + before;
      assert a[1..] == before && es == [es[0]] + es[1..];
    }
  }

  /**
   * Each right password starts the count afresh: with `k` of them on the way, a lock period compares
   * at most `maxFailed - 1 + c` wrong credentials for each and for the stretch before the first.
   */
  lemma {:induction false} RateBoundPerSuccess(s: State, p: Policy, es: seq<Event>, now: int, c: nat, from: int)
    requires p.maxFailed >= 1 && InTime(now, es) && InFlightAtMost(s, p, es, c)
    ensures |InWindow(Comparisons(s, p, es), from, p.lockFor)| <= (Successes(es) + 1) * (p.maxFailed - 1 + c)
    decreases Successes(es)
  {
    if Successes(es) == 0 {
      ConcurrentRateBound(s, p, es, now, c, from);
    } else {
      var a, b := BeforeTheFirstSuccess(es);
      var after := Apply(Run(s, p, a), p, Success);
      var later := PartsAreInTime(now, s, p, a, [Success] + b, c);
      ConcurrentRateBound(s, p, a, now, c, from);
      assert ([Success] + b)[1..] == b;
      RateBoundPerSuccess(after, p, b, later, c, from);
      ComparisonsOfParts(s, p, a, [Success] + b);
      assert Comparisons(Run(s, p, a), p, [Success] + b) == Comparisons(after, p, b);
      WindowOfParts(Comparisons(s, p, a), Comparisons(after, p, b), from, p.lockFor);
      Distribute(Successes(b), p.maxFailed - 1 + c);
    }
  }

  lemma Distribute(k: nat, n: nat)
    ensures (k + 2) * n == n + (k + 1) * n
  {
  }

  /** Sign-ins, each with a right password and then wrong codes, one short of the limit. */
  function SignIns(p: Policy, k: nat): seq<Event>
    requires p.maxFailed >= 1
  {
    if k == 0 then [] else [Success] + (Failures(p.maxFailed - 1) + SignIns(p, k - 1))
  }

  lemma {:induction false} FailuresThenSignIns(s: State, p: Policy, n: nat, k: nat)
    requires s.requests == map[] && s.account.lockedUntil.None? && p.maxFailed >= 1 && s.account.attempts + n + 1 <= p.maxFailed
    ensures AtOnce(s, p, Failures(n) + SignIns(p, k), 1, n + k * (p.maxFailed - 1))
    ensures Run(s, p, Failures(n) + SignIns(p, k)).account.lockedUntil.None?
    decreases k, n
  {
    if n > 0 {
      var rest := Failures(n - 1) + SignIns(p, k);
      var next := State(Account(s.account.attempts + 1, None), map[], s.marks + [Added]);
      FailuresThenSignIns(next, p, n - 1, k);
      OneFailureThen(s, p, rest, 1, n - 1 + k * (p.maxFailed - 1));
      assert [CheckFails("a", 0), Reset("a", 0), Count("a")] + rest == Failures(n) + SignIns(p, k);
      OneFailureRuns(s, p, rest);
    } else if k > 0 {
      var rest := Failures(p.maxFailed - 1) + SignIns(p, k - 1);
      assert Failures(0) + SignIns(p, k) == [Success] + rest;
      FailuresThenSignIns(Apply(s, p, Success), p, p.maxFailed - 1, k - 1);
      Distribute1(k - 1, p.maxFailed - 1);
      OneMoreStep(s, p, Success, rest, 1, k * (p.maxFailed - 1));
      assert ([Success] + rest)[1..] == rest;
    } else {
      assert Failures(0) + SignIns(p, 0) == [];
    }
  }

  lemma Distribute1(k: nat, n: nat)
    ensures (k + 1) * n == n + k * n
  {
  }

  lemma RunOne(s: State, p: Policy, e: Event, es: seq<Event>)
    ensures Run(s, p, [e] + es) == Run(Apply(s, p, e), p, es)
  {
    assert ([e] + es)[1..] == es;
  }

  lemma OneFailure(s: State, p: Policy)
    requires s.requests == map[] && s.account.lockedUntil.None? && s.account.attempts + 1 < p.maxFailed
    ensures Apply(Apply(Apply(s, p, CheckFails("a", 0)), p, Reset("a", 0)), p, Count("a"))
            == State(Account(s.account.attempts + 1, None), map[], s.marks + [Added])
  {
    var reset := Apply(Apply(s, p, CheckFails("a", 0)), p, Reset("a", 0));
    assert reset.requests - {"a"} == map[];
  }

  lemma OneFailureRuns(s: State, p: Policy, es: seq<Event>)
    requires s.requests == map[] && s.account.lockedUntil.None? && s.account.attempts + 1 < p.maxFailed
    ensures Run(s, p, [CheckFails("a", 0), Reset("a", 0), Count("a")] + es)
            == Run(State(Account(s.account.attempts + 1, None), map[], s.marks + [Added]), p, es)
  {
    var checked := Apply(s, p, CheckFails("a", 0));
    var reset := Apply(checked, p, Reset("a", 0));
    OneFailure(s, p);
    RunOne(reset, p, Count("a"), es);
    RunOne(checked, p, Reset("a", 0), [Count("a")] + es);
    RunOne(s, p, CheckFails("a", 0), [Reset("a", 0)] + ([Count("a")] + es));
    assert [CheckFails("a", 0)] + ([Reset("a", 0)] + ([Count("a")] + es)) == [CheckFails("a", 0), Reset("a", 0), Count("a")] + es;
  }

  /**
   * The password is checked, and its success clears the counter, before the second factor is asked
   * for. So whoever has the password may have any number of codes compared, one request at a time and
   * in one instant, and the account is never locked.
   */
  lemma RightPasswordsDefeatTheLock(p: Policy, k: nat)
    requires p.maxFailed >= 1
    ensures var s := State(Account(0, None), map[], []);
            && AtOnce(s, p, SignIns(p, k), 1, k * (p.maxFailed - 1))
            && Run(s, p, SignIns(p, k)).account.lockedUntil.None?
  {
    FailuresThenSignIns(State(Account(0, None), map[], []), p, 0, k);
    assert Failures(0) + SignIns(p, k) == SignIns(p, k);
  }

  // ── A lock ends ───────────────────────────────────────────────────────────

  /** Wrong credentials short of the limit only count. */
  lemma {:induction false} CountsUp(t: Trace, p: Policy, gs: seq<Guess>)
    requires t.account.lockedUntil.None? && t.account.attempts + |gs| < p.maxFailed
    ensures TryAll(t, p, gs).account == Account(t.account.attempts + |gs|, None)
    decreases |gs|
  {
    if gs != [] {
      CountsUp(Try(t, p, gs[0]), p, gs[1..]);
    }
  }

  lemma {:induction false} TryAllOfParts(t: Trace, p: Policy, a: seq<Guess>, b: seq<Guess>)
    ensures TryAll(t, p, a + b) == TryAll(TryAll(t, p, a), p, b)
    decreases |a|
  {
    if a == [] {
      assert a + b == b;
    } else {
      assert (a + b)[0] == a[0] && (a + b)[1..] == a[1..] + b;
      TryAllOfParts(Try(t, p, a[0]), p, a[1..], b);
    }
  }

  /** What is tried before the lock runs out leaves it as it is. */
  lemma {:induction false} LockStands(t: Trace, p: Policy, late: seq<Guess>)
    requires t.account.lockedUntil.Some? && forall g | g in late :: g.check < t.account.lockedUntil.value
    ensures TryAll(t, p, late) == t
    decreases |late|
  {
    if late != [] {
      LockStands(Try(t, p, late[0]), p, late[1..]);
    }
  }

  /**
   * The limit locks, and for no longer than the lock period: after exactly `maxFailed` wrong
   * credentials on an open account, and any more that come while it is locked, it is locked at a time
   * if and only if that is before the last one's lock has run out; one fewer does not lock.
   */
  lemma LocksExactly(p: Policy, gs: seq<Guess>, late: seq<Guess>, now: int)
    requires p.maxFailed == |gs| >= 1
    requires forall g | g in late :: g.check < gs[|gs| - 1].lock + p.lockFor
    ensures var open := Trace(Account(0, None), [], 0);
            && !Locked(TryAll(open, p, gs[..|gs| - 1]).account, now)
            && (Locked(TryAll(open, p, gs + late).account, now) <==> now < gs[|gs| - 1].lock + p.lockFor)
            && |TryAll(open, p, gs + late).checks| == p.maxFailed
  {
    var open, n := Trace(Account(0, None), [], 0), |gs| - 1;
    CountsUp(open, p, gs[..n]);
    ChecksCount(open, p, gs[..n]);
    TryAllOfParts(open, p, gs[..n], [gs[n]]);
    assert gs == gs[..n] + [gs[n]] && [gs[n]][1..] == [];
    var almost := TryAll(open, p, gs[..n]);
    assert TryAll(almost, p, [gs[n]]) == TryAll(Try(almost, p, gs[n]), p, []);
    TryAllOfParts(open, p, gs, late);
    LockStands(TryAll(open, p, gs), p, late);
  }

  lemma {:induction false} ChecksCount(t: Trace, p: Policy, gs: seq<Guess>)
    requires t.account.lockedUntil.None? && t.account.attempts + |gs| < p.maxFailed
    ensures |TryAll(t, p, gs).checks| == |t.checks| + |gs|
    decreases |gs|
  {
    if gs != [] {
      ChecksCount(Try(t, p, gs[0]), p, gs[1..]);
    }
  }

  /** Once the lock has run out the count starts afresh: one wrong credential is one attempt and locks nothing but at a limit of one. */
  lemma LockRunsOut(t: Trace, p: Policy, g: Guess)
    requires t.account.lockedUntil.Some? && t.account.lockedUntil.value <= g.check <= g.reset
    ensures Try(t, p, g).checks == t.checks + [g.check]
    ensures Try(t, p, g).account == Account(1, if p.maxFailed <= 1 then Some(g.lock + p.lockFor) else None)
  {
  }

  /** A handler run on its own is the serial step: its three statements with nothing in between. */
  lemma HandlerIsTry(s: State, p: Policy, r: RequestId, g: Guess, checks: seq<int>, since: nat)
    requires r !in s.requests
    ensures var alone := Run(s, p, [CheckFails(r, g.check), Reset(r, g.reset), Count(r), Lock(r, g.lock)]);
            alone.account == Try(Trace(s.account, checks, since), p, g).account && alone.requests == s.requests
  {
    var es := [CheckFails(r, g.check), Reset(r, g.reset), Count(r), Lock(r, g.lock)];
    var s1 := Apply(s, p, es[0]);
    var s2 := Apply(s1, p, es[1]);
    var s3 := Apply(s2, p, es[2]);
    assert Run(s, p, es) == Run(s1, p, es[1..]);
    assert es[1..][1..] == es[2..] && es[2..][1..] == [es[3]];
    assert Run(s1, p, es[1..]) == Run(s2, p, es[2..]);
    assert Run(s2, p, es[2..]) == Run(s3, p, [es[3]]);
    assert Run(s3, p, [es[3]]) == Run(Apply(s3, p, es[3]), p, [es[3]][1..]);
  }

  // ── The account row ───────────────────────────────────────────────────────

  class AccountRow {
    var loginAttempts: nat
    var lockedUntil: Option<int>

    ghost function View(): Account
      reads this
    {
      Account(loginAttempts, lockedUntil)
    }

    method RecordFailedAttempt(p: Policy, resetAt: int, lockAt: int) returns (newAttempts: nat, shouldLock: bool)
      modifies this
      ensures View() == Record(old(View()), p, resetAt, lockAt)
      ensures var ranOut := old(lockedUntil).Some? && old(lockedUntil).value <= resetAt;
              && newAttempts == loginAttempts == (if ranOut then 1 else old(loginAttempts) + 1)
              && (shouldLock <==> newAttempts >= p.maxFailed)
              && lockedUntil == if shouldLock then Some(lockAt + p.lockFor) else if ranOut then None else old(lockedUntil)
    {
      if lockedUntil.Some? && lockedUntil.value <= resetAt {
        loginAttempts, lockedUntil := 0, None;
      }
      loginAttempts := loginAttempts + 1;
      newAttempts := loginAttempts;
      shouldLock := newAttempts >= p.maxFailed;
      if shouldLock {
        lockedUntil := Some(lockAt + p.lockFor);
      }
    }

    /** A locked account compares nothing, so neither a right nor a wrong credential changes it. */
    method TryCredential(p: Policy, g: Guess, matches: bool) returns (ok: bool)
      modifies this
      ensures ok <==> matches && (old(lockedUntil).Some? ==> old(lockedUntil).value <= g.check)
      ensures ok ==> loginAttempts == 0 && lockedUntil.None?
      ensures !ok ==> View() == if matches then old(View()) else Try(Trace(old(View()), [], 0), p, g).account
    {
      if lockedUntil.Some? && g.check < lockedUntil.value {
        return false;
      }
      if !matches {
        var _, _ := RecordFailedAttempt(p, g.reset, g.lock);
        return false;
      }
      loginAttempts, lockedUntil := 0, None;
      ok := true;
    }
  }
}
