/**
 * One-time codes for the borrower portal: how many a phone is sent, how often each is tried, and how
 * often each signs in. Handlers run one at a time, or their statements interleave freely.
 */
module BorrowerOtp {
  import opened Wrappers
  import opened Cardinality

  type Phone = string
  type RequestId = string

  datatype Policy = Policy(maxAttempts: nat, maxPerWindow: nat, window: nat)

  /**
   * A code's row. `compared`, `unpaid` and `signIns` are history: how often it was compared with a
   * guess, how often without an attempt being counted for it, and how often it signed someone in.
   */
  datatype Code = Code(
    phone: Phone, borrower: string, hash: string, createdAt: int, expiresAt: int, attempts: nat, consumed: bool,
    compared: nat, unpaid: nat, signIns: nat)

  datatype Draft = Draft(borrower: string, hash: string, createdAt: int, expiresAt: int)

  /** What a redemption still has to do, with the codes it read as live. */
  datatype Stage = Guessing(phone: Phone, hash: string, live: set<nat>) | Consuming(phone: Phone, code: nat)

  datatype State = State(codes: seq<Code>, requests: map<RequestId, Stage>)

  datatype Event =
    | Issue(phone: Phone, now: int, drafts: seq<Draft>)
    | Look(request: RequestId, phone: Phone, hash: string, now: int)
    | Guess(request: RequestId)
    | Consume(request: RequestId, available: bool)

  // ── Issuing ───────────────────────────────────────────────────────────────

  const MAX_BORROWERS: nat := 5

  /** Codes of the phone created after the window that ends now began. */
  function Recent(codes: seq<Code>, phone: Phone, now: int, window: nat): set<nat> {
    set i: nat | i < |codes| && codes[i].phone == phone && codes[i].createdAt > now - window
  }

  function FirstFive(drafts: seq<Draft>): (r: seq<Draft>)
    ensures |r| <= MAX_BORROWERS && r <= drafts
  {
    if |drafts| <= MAX_BORROWERS then drafts else drafts[..MAX_BORROWERS]
  }

  function NewCode(phone: Phone, d: Draft): Code {
    Code(phone, d.borrower, d.hash, d.createdAt, d.expiresAt, 0, false, 0, 0, 0)
  }

  function NewCodes(phone: Phone, drafts: seq<Draft>): seq<Code> {
    seq(|drafts|, i requires 0 <= i < |drafts| => NewCode(phone, drafts[i]))
  }

  function IssueCodes(p: Policy, codes: seq<Code>, phone: Phone, now: int, drafts: seq<Draft>): seq<Code> {
    if |Recent(codes, phone, now, p.window)| >= p.maxPerWindow then codes else codes + NewCodes(phone, FirstFive(drafts))
  }

  // ── Redeeming ─────────────────────────────────────────────────────────────

  predicate IsLive(p: Policy, c: Code, phone: Phone, now: int) {
    c.phone == phone && !c.consumed && c.expiresAt > now && c.attempts < p.maxAttempts
  }

  function Live(p: Policy, codes: seq<Code>, phone: Phone, now: int): set<nat> {
    set i: nat | i < |codes| && IsLive(p, codes[i], phone, now)
  }

  /** The codes of the snapshot an attempt can still be counted for. */
  function Paid(p: Policy, codes: seq<Code>, live: set<nat>): set<nat> {
    set i | i in live && i < |codes| && codes[i].attempts < p.maxAttempts
  }

  /** One guess: an attempt is counted where one is left, and every code of the snapshot is compared. */
  function Guessed(p: Policy, codes: seq<Code>, live: set<nat>): seq<Code> {
    seq(|codes|, i requires 0 <= i < |codes| =>
      if i !in live then codes[i]
      else if codes[i].attempts < p.maxAttempts
      then codes[i].(attempts := codes[i].attempts + 1, compared := codes[i].compared + 1)
      else codes[i].(unpaid := codes[i].unpaid + 1, compared := codes[i].compared + 1))
  }

  /** The first code of the snapshot with this hash; the number of codes if there is none. */
  function Match(codes: seq<Code>, live: set<nat>, hash: string, from: nat): (i: nat)
    requires from <= |codes|
    ensures from <= i <= |codes|
    ensures i < |codes| ==> i in live && codes[i].hash == hash
    ensures forall j | from <= j < i :: !(j in live && codes[j].hash == hash)
    decreases |codes| - from
  {
    if from == |codes| || (from in live && codes[from].hash == hash) then from else Match(codes, live, hash, from + 1)
  }

  /** The code and every other outstanding one of the phone are used up. */
  function Consumed(codes: seq<Code>, phone: Phone, code: nat, available: bool): seq<Code> {
    seq(|codes|, i requires 0 <= i < |codes| =>
      codes[i].(consumed := codes[i].consumed || codes[i].phone == phone,
                signIns := codes[i].signIns + (if available && i == code then 1 else 0)))
  }

  function Apply(p: Policy, s: State, e: Event): State {
    match e
    case Issue(phone, now, drafts) => s.(codes := IssueCodes(p, s.codes, phone, now, drafts))
    case Look(r, phone, hash, now) =>
      var live := Live(p, s.codes, phone, now);
      if r in s.requests || live == {} then s else s.(requests := s.requests[r := Guessing(phone, hash, live)])
    case Guess(r) =>
      if r !in s.requests || !s.requests[r].Guessing? then s
      else
        var g := s.requests[r];
        if Paid(p, s.codes, g.live) == {} then s.(requests := s.requests - {r})
        else
          var i := Match(s.codes, g.live, g.hash, 0);
          State(Guessed(p, s.codes, g.live),
                if i == |s.codes| then s.requests - {r} else s.requests[r := Consuming(g.phone, i)])
    case Consume(r, available) =>
      if r !in s.requests || !s.requests[r].Consuming? then s
      else State(Consumed(s.codes, s.requests[r].phone, s.requests[r].code, available), s.requests - {r})
  }

  function Run(p: Policy, s: State, es: seq<Event>): State
    decreases |es|
  {
    if es == [] then s else Run(p, Apply(p, s, es[0]), es[1..])
  }

  // ── How many codes a phone is sent ────────────────────────────────────────

  function InWindow(codes: seq<Code>, phone: Phone, from: int, window: nat): set<nat> {
    set i: nat | i < |codes| && codes[i].phone == phone && from <= codes[i].createdAt < from + window
  }

  /** Codes are created after the handler has counted. */
  predicate CreatedAfter(e: Event) {
    e.Issue? ==> forall i | 0 <= i < |e.drafts| :: e.now <= e.drafts[i].createdAt
  }

  predicate SameIssue(a: Code, b: Code) {
    a.phone == b.phone && a.createdAt == b.createdAt
  }

  lemma StepKeepsIssues(p: Policy, s: State, e: Event)
    requires !e.Issue?
    ensures |Apply(p, s, e).codes| == |s.codes|
    ensures forall i | 0 <= i < |s.codes| :: SameIssue(Apply(p, s, e).codes[i], s.codes[i])
  {
  }

  predicate NoneInWindow(codes: seq<Code>, phone: Phone, from: int, window: nat) {
    forall i | 0 <= i < |codes| :: !(codes[i].phone == phone && from <= codes[i].createdAt < from + window)
  }

  lemma WindowAfterAppend(codes: seq<Code>, more: seq<Code>, phone: Phone, from: int, window: nat)
    ensures |InWindow(codes + more, phone, from, window)| <= |InWindow(codes, phone, from, window)| + |more|
    ensures NoneInWindow(more, phone, from, window) ==> InWindow(codes + more, phone, from, window) == InWindow(codes, phone, from, window)
  {
    var before := InWindow(codes, phone, from, window);
    var all := InWindow(codes + more, phone, from, window);
    var added := set i | i in all && i >= |codes|;
    assert all == before + added;
    FitsRange(added, |codes|, |more|);
  }

  lemma IssueKeepsBound(p: Policy, s: State, e: Event, phone: Phone, from: int)
    requires p.maxPerWindow >= 1 && e.Issue? && CreatedAfter(e)
    requires |InWindow(s.codes, phone, from, p.window)| <= p.maxPerWindow - 1 + MAX_BORROWERS
    ensures |InWindow(Apply(p, s, e).codes, phone, from, p.window)| <= p.maxPerWindow - 1 + MAX_BORROWERS
  {
    var more := NewCodes(e.phone, FirstFive(e.drafts));
    WindowAfterAppend(s.codes, more, phone, from, p.window);
    if |Recent(s.codes, e.phone, e.now, p.window)| < p.maxPerWindow && !NoneInWindow(more, phone, from, p.window) {
      var i :| 0 <= i < |more| && more[i].phone == phone && from <= more[i].createdAt < from + p.window;
      assert more[i] == NewCode(e.phone, e.drafts[i]);
      Fewer(InWindow(s.codes, phone, from, p.window), Recent(s.codes, e.phone, e.now, p.window));
    }
  }

  /**
   * However requests and redemptions interleave, as long as each request counts and creates in one go,
   * any half-open stretch of the window sends a phone at most maxPerWindow - 1 + 5 codes.
   */
  lemma {:induction false} IssueBound(p: Policy, s: State, es: seq<Event>, phone: Phone, from: int)
    requires p.maxPerWindow >= 1 && forall i | 0 <= i < |es| :: CreatedAfter(es[i])
    requires |InWindow(s.codes, phone, from, p.window)| <= p.maxPerWindow - 1 + MAX_BORROWERS
    ensures |InWindow(Run(p, s, es).codes, phone, from, p.window)| <= p.maxPerWindow - 1 + MAX_BORROWERS
    decreases |es|
  {
    if es != [] {
      var next := Apply(p, s, es[0]);
      if es[0].Issue? {
        IssueKeepsBound(p, s, es[0], phone, from);
      } else {
        StepKeepsIssues(p, s, es[0]);
        assert InWindow(next.codes, phone, from, p.window) == InWindow(s.codes, phone, from, p.window);
      }
      IssueBound(p, next, es[1..], phone, from);
    }
  }

  // ── How often a code is tried ─────────────────────────────────────────────

  /** Every comparison is paid for by an attempt or recorded as unpaid, and attempts are limited. */
  predicate Accounted(p: Policy, c: Code) {
    c.compared == c.attempts + c.unpaid && c.attempts <= p.maxAttempts
  }

  ghost predicate AllAccounted(p: Policy, codes: seq<Code>) {
    forall i | 0 <= i < |codes| :: Accounted(p, codes[i])
  }

  lemma StepKeepsAccounts(p: Policy, s: State, e: Event)
    requires AllAccounted(p, s.codes)
    ensures AllAccounted(p, Apply(p, s, e).codes)
  {
  }

  /** Under every interleaving: comparisons of a code beyond maxAttempts are exactly the unpaid ones. */
  lemma {:induction false} RunKeepsAccounts(p: Policy, s: State, es: seq<Event>)
    requires AllAccounted(p, s.codes)
    ensures AllAccounted(p, Run(p, s, es).codes)
    decreases |es|
  {
    if es != [] {
      StepKeepsAccounts(p, s, es[0]);
      RunKeepsAccounts(p, Apply(p, s, es[0]), es[1..]);
    }
  }

  /** Every snapshot taken that has the code has no other: its phone has a single live code. */
  predicate AloneInRun(p: Policy, s: State, es: seq<Event>, code: nat)
    decreases |es|
  {
    es == [] || (AloneNow(p, s, es[0], code) && AloneInRun(p, Apply(p, s, es[0]), es[1..], code))
  }

  predicate AloneNow(p: Policy, s: State, e: Event, code: nat) {
    e.Look? ==> var live := Live(p, s.codes, e.phone, e.now); code in live ==> live == {code}
  }

  ghost predicate AloneInFlight(s: State, code: nat) {
    forall r | r in s.requests && s.requests[r].Guessing? :: code in s.requests[r].live ==> s.requests[r].live == {code}
  }

  lemma StepPaysWhenAlone(p: Policy, s: State, e: Event, code: nat)
    requires AloneInFlight(s, code) && AloneNow(p, s, e, code) && (code < |s.codes| ==> s.codes[code].unpaid == 0)
    ensures var t := Apply(p, s, e); AloneInFlight(t, code) && (code < |t.codes| ==> t.codes[code].unpaid == 0)
  {
    if e.Guess? && e.request in s.requests && s.requests[e.request].Guessing? {
      var live := s.requests[e.request].live;
      if code in live && code < |s.codes| && s.codes[code].attempts >= p.maxAttempts {
        assert Paid(p, s.codes, live) == {};
      }
    }
  }

  lemma {:induction false} RunPaysWhenAlone(p: Policy, s: State, es: seq<Event>, code: nat)
    requires AloneInFlight(s, code) && AloneInRun(p, s, es, code) && (code < |s.codes| ==> s.codes[code].unpaid == 0)
    ensures var end := Run(p, s, es); code < |end.codes| ==> end.codes[code].unpaid == 0
    decreases |es|
  {
    if es != [] {
      StepPaysWhenAlone(p, s, es[0], code);
      RunPaysWhenAlone(p, Apply(p, s, es[0]), es[1..], code);
    }
  }

  /** With a single live code the guess bound survives every interleaving. */
  lemma GuessBoundWhenAlone(p: Policy, s: State, es: seq<Event>, code: nat)
    requires AllAccounted(p, s.codes) && s.requests == map[] && (code < |s.codes| ==> s.codes[code].unpaid == 0)
    requires AloneInRun(p, s, es, code) && code < |Run(p, s, es).codes|
    ensures Run(p, s, es).codes[code].compared <= p.maxAttempts
  {
    RunKeepsAccounts(p, s, es);
    RunPaysWhenAlone(p, s, es, code);
  }

  // ── How far requests in flight stretch the bounds ─────────────────────────

  /** Redemptions that may still compare the code. */
  function Guessers(requests: map<RequestId, Stage>, code: nat): set<RequestId> {
    set r | r in requests && requests[r].Guessing? && code in requests[r].live
  }

  /** And those that may still sign in with it. */
  function Users(requests: map<RequestId, Stage>, code: nat): set<RequestId> {
    set r | r in requests && if requests[r].Guessing? then code in requests[r].live else requests[r].code == code
  }

  predicate UsersAtMost(p: Policy, s: State, es: seq<Event>, code: nat, c: nat)
    decreases |es|
  {
    |Users(s.requests, code)| <= c && (es != [] ==> UsersAtMost(p, Apply(p, s, es[0]), es[1..], code, c))
  }

  /** Once its attempts are spent, or once it is used up, nobody new gets hold of a code. */
  ghost predicate Closing(p: Policy, codes: seq<Code>, requests: map<RequestId, Stage>, code: nat, c: nat) {
    if code >= |codes| then Users(requests, code) == {}
    else
      && (forall r | r in Users(requests, code) :: requests[r].phone == codes[code].phone)
      && (if codes[code].attempts < p.maxAttempts then codes[code].unpaid == 0
          else codes[code].unpaid + |Guessers(requests, code)| < c)
      && (if codes[code].consumed then codes[code].signIns + |Users(requests, code)| <= c else codes[code].signIns == 0)
  }

  lemma GuessersAreUsers(requests: map<RequestId, Stage>, code: nat)
    ensures |Guessers(requests, code)| <= |Users(requests, code)|
  {
    Fewer(Guessers(requests, code), Users(requests, code));
  }

  lemma LookKeepsClosing(p: Policy, s: State, e: Event, code: nat, c: nat)
    requires e.Look? && Closing(p, s.codes, s.requests, code, c)
    ensures Closing(p, Apply(p, s, e).codes, Apply(p, s, e).requests, code, c)
  {
    var t := Apply(p, s, e);
    if code !in Live(p, s.codes, e.phone, e.now) {
      assert Users(t.requests, code) == Users(s.requests, code) && Guessers(t.requests, code) == Guessers(s.requests, code);
    }
  }

  lemma GuessKeepsClosing(p: Policy, s: State, e: Event, code: nat, c: nat)
    requires e.Guess? && Closing(p, s.codes, s.requests, code, c) && |Users(s.requests, code)| <= c
    ensures Closing(p, Apply(p, s, e).codes, Apply(p, s, e).requests, code, c)
  {
    var t := Apply(p, s, e);
    if e.request in s.requests && s.requests[e.request].Guessing? {
      assert Guessers(t.requests, code) == Guessers(s.requests, code) - {e.request};
      assert Users(t.requests, code) <= Users(s.requests, code) by {
        assert Users(t.requests, code) - {e.request} <= Users(s.requests, code);
      }
      Fewer(Users(t.requests, code), Users(s.requests, code));
      GuessersAreUsers(s.requests, code);
    }
  }

  lemma ConsumeKeepsClosing(p: Policy, s: State, e: Event, code: nat, c: nat)
    requires e.Consume? && Closing(p, s.codes, s.requests, code, c) && |Users(s.requests, code)| <= c
    ensures Closing(p, Apply(p, s, e).codes, Apply(p, s, e).requests, code, c)
  {
    var t := Apply(p, s, e);
    if e.request in s.requests && s.requests[e.request].Consuming? {
      assert Guessers(t.requests, code) == Guessers(s.requests, code);
      assert Users(t.requests, code) == Users(s.requests, code) - {e.request};
      assert s.requests[e.request].code == code ==> e.request in Users(s.requests, code);
    }
  }

  lemma {:induction false} RunKeepsClosing(p: Policy, s: State, es: seq<Event>, code: nat, c: nat)
    requires c >= 1 && Closing(p, s.codes, s.requests, code, c) && UsersAtMost(p, s, es, code, c)
    ensures Closing(p, Run(p, s, es).codes, Run(p, s, es).requests, code, c)
    decreases |es|
  {
    if es != [] {
      match es[0] {
        case Issue(_, _, _) => GuessersAreUsers(s.requests, code);
        case Look(_, _, _, _) => LookKeepsClosing(p, s, es[0], code, c);
        case Guess(_) => GuessKeepsClosing(p, s, es[0], code, c);
        case Consume(_, _) => ConsumeKeepsClosing(p, s, es[0], code, c);
      }
      RunKeepsClosing(p, Apply(p, s, es[0]), es[1..], code, c);
    }
  }

  /**
   * Under every interleaving, a code that at most `c` redemptions ever hold at a time is compared
   * with at most `maxAttempts + c - 1` guesses and signs in at most `c` times.
   */
  lemma InterleavedBounds(p: Policy, s: State, es: seq<Event>, code: nat, c: nat)
    requires s.codes == [] && s.requests == map[] && c >= 1 && UsersAtMost(p, s, es, code, c)
    requires code < |Run(p, s, es).codes|
    ensures Run(p, s, es).codes[code].compared <= p.maxAttempts + c - 1
    ensures Run(p, s, es).codes[code].signIns <= c
  {
    RunKeepsAccounts(p, s, es);
    RunKeepsClosing(p, s, es, code, c);
    assert Accounted(p, Run(p, s, es).codes[code]);
  }

  // ── One handler at a time ─────────────────────────────────────────────────

  datatype Call =
    | Ask(phone: Phone, now: int, drafts: seq<Draft>)
    | Enter(phone: Phone, hash: string, now: int, available: bool)

  /** A redemption run on its own: its statements with nothing in between. */
  function Redeem(p: Policy, codes: seq<Code>, phone: Phone, hash: string, now: int, available: bool): seq<Code> {
    var live := Live(p, codes, phone, now);
    if live == {} then codes
    else
      var guessed := Guessed(p, codes, live);
      var i := Match(codes, live, hash, 0);
      if i == |codes| then guessed else Consumed(guessed, phone, i, available)
  }

  function Serve(p: Policy, codes: seq<Code>, call: Call): seq<Code> {
    match call
    case Ask(phone, now, drafts) => IssueCodes(p, codes, phone, now, drafts)
    case Enter(phone, hash, now, available) => Redeem(p, codes, phone, hash, now, available)
  }

  function ServeAll(p: Policy, codes: seq<Code>, calls: seq<Call>): seq<Code>
    decreases |calls|
  {
    if calls == [] then codes else ServeAll(p, Serve(p, codes, calls[0]), calls[1..])
  }

  predicate Serial(p: Policy, c: Code) {
    && Accounted(p, c) && c.unpaid == 0
    && c.signIns <= 1 && (c.signIns == 1 ==> c.consumed)
  }

  ghost predicate AllSerial(p: Policy, codes: seq<Code>) {
    forall i | 0 <= i < |codes| :: Serial(p, codes[i])
  }

  lemma GuessKeepsSerial(p: Policy, codes: seq<Code>, phone: Phone, now: int)
    requires AllSerial(p, codes)
    ensures var live := Live(p, codes, phone, now);
            AllSerial(p, Guessed(p, codes, live))
            && forall i | i in live :: Guessed(p, codes, live)[i].signIns == 0 && Guessed(p, codes, live)[i].phone == phone
  {
  }

  lemma ConsumeKeepsSerial(p: Policy, codes: seq<Code>, phone: Phone, code: nat, available: bool)
    requires AllSerial(p, codes) && code < |codes| && codes[code].signIns == 0 && codes[code].phone == phone
    ensures AllSerial(p, Consumed(codes, phone, code, available))
  {
  }

  lemma RedeemKeepsSerial(p: Policy, codes: seq<Code>, phone: Phone, hash: string, now: int, available: bool)
    requires AllSerial(p, codes)
    ensures AllSerial(p, Redeem(p, codes, phone, hash, now, available))
  {
    var live := Live(p, codes, phone, now);
    GuessKeepsSerial(p, codes, phone, now);
    var i := Match(codes, live, hash, 0);
    if i < |codes| {
      ConsumeKeepsSerial(p, Guessed(p, codes, live), phone, i, available);
    }
  }

  /** Handled one at a time, every code is compared with at most maxAttempts guesses and signs in at most once. */
  lemma {:induction false} SerialBounds(p: Policy, codes: seq<Code>, calls: seq<Call>)
    requires AllSerial(p, codes)
    ensures AllSerial(p, ServeAll(p, codes, calls))
    ensures forall i | 0 <= i < |ServeAll(p, codes, calls)| ::
              ServeAll(p, codes, calls)[i].compared <= p.maxAttempts && ServeAll(p, codes, calls)[i].signIns <= 1
    decreases |calls|
  {
    if calls != [] {
      if calls[0].Enter? {
        RedeemKeepsSerial(p, codes, calls[0].phone, calls[0].hash, calls[0].now, calls[0].available);
      }
      SerialBounds(p, Serve(p, codes, calls[0]), calls[1..]);
    }
  }

  lemma RunOfThree(p: Policy, s: State, a: Event, b: Event, c: Event)
    ensures Run(p, s, [a, b, c]) == Apply(p, Apply(p, Apply(p, s, a), b), c)
  {
    var s1 := Apply(p, s, a);
    var s2 := Apply(p, s1, b);
    assert [a, b, c][1..] == [b, c] && [b, c][1..] == [c] && [c][1..] == [];
    assert Run(p, s1, [b, c]) == Run(p, s2, [c]);
    assert Run(p, s2, [c]) == Run(p, Apply(p, s2, c), []);
  }

  /** The serial handler is the interleaved one with nothing in between. */
  lemma RedeemIsItsStatements(p: Policy, codes: seq<Code>, r: RequestId, phone: Phone, hash: string, now: int, available: bool)
    ensures Run(p, State(codes, map[]), [Look(r, phone, hash, now), Guess(r), Consume(r, available)])
            == State(Redeem(p, codes, phone, hash, now, available), map[])
  {
    RunOfThree(p, State(codes, map[]), Look(r, phone, hash, now), Guess(r), Consume(r, available));
    var live := Live(p, codes, phone, now);
    if live != {} {
      assert Paid(p, codes, live) == live;
    }
  }

  /** One redemption counts an attempt for every code that was live when it looked, and touches no other phone. */
  lemma RedeemCountsEveryLiveCode(p: Policy, codes: seq<Code>, phone: Phone, hash: string, now: int, available: bool)
    ensures var after := Redeem(p, codes, phone, hash, now, available);
            && |after| == |codes|
            && (forall i | 0 <= i < |codes| ::
                  after[i].attempts == codes[i].attempts + (if IsLive(p, codes[i], phone, now) then 1 else 0))
            && (forall i | 0 <= i < |codes| && codes[i].phone != phone :: after[i] == codes[i])
  {
    var live := Live(p, codes, phone, now);
    assert forall i | 0 <= i < |codes| :: IsLive(p, codes[i], phone, now) <==> i in live;
  }

  /** The guess is right: some live code of the phone has this hash. */
  predicate Right(p: Policy, codes: seq<Code>, phone: Phone, hash: string, now: int) {
    exists i | 0 <= i < |codes| :: IsLive(p, codes[i], phone, now) && codes[i].hash == hash
  }

  /** A right guess leaves no code of the phone live at any time; a wrong one uses up and signs in nothing. */
  lemma RightGuessUsesUpEveryCode(p: Policy, codes: seq<Code>, phone: Phone, hash: string, now: int, available: bool, later: int)
    ensures var after := Redeem(p, codes, phone, hash, now, available);
            && |after| == |codes|
            && if Right(p, codes, phone, hash, now) then Live(p, after, phone, later) == {}
               else forall i | 0 <= i < |codes| :: after[i].consumed == codes[i].consumed && after[i].signIns == codes[i].signIns
  {
    var live := Live(p, codes, phone, now);
    var k := Match(codes, live, hash, 0);
    if Right(p, codes, phone, hash, now) {
      var i :| 0 <= i < |codes| && IsLive(p, codes[i], phone, now) && codes[i].hash == hash;
      assert i in live && k < |codes|;
    } else {
      assert live == {} || k == |codes|;
    }
  }

  // ── Exactly when the limits hold ──────────────────────────────────────────

  function Sent(hash: string): Code {
    NewCode("p", Draft("b", hash, 0, 100))
  }

  /** One code sent, and compared with `k` wrong guesses. */
  function Tried(k: nat): State {
    State([Sent("a").(attempts := k, compared := k)], map[])
  }

  /** The run ends there, and at most two redemptions ever hold the first code. */
  ghost predicate Ends(p: Policy, s: State, es: seq<Event>, end: State) {
    Run(p, s, es) == end && UsersAtMost(p, s, es, 0, 2)
  }

  lemma OneMore(p: Policy, s: State, e: Event, es: seq<Event>, end: State)
    requires Ends(p, Apply(p, s, e), es, end) && |s.requests.Keys| <= 2
    ensures Ends(p, s, [e] + es, end)
  {
    assert ([e] + es)[1..] == es;
    Fewer(Users(s.requests, 0), s.requests.Keys);
  }

  lemma NoMore(p: Policy, s: State)
    requires |s.requests.Keys| <= 2
    ensures Ends(p, s, [], s)
  {
    Fewer(Users(s.requests, 0), s.requests.Keys);
  }

  const SEND: Event := Issue("p", 0, [Draft("b", "a", 0, 100)])

  lemma SendRuns(p: Policy)
    requires p.maxPerWindow >= 1
    ensures Apply(p, State([], map[]), SEND) == Tried(0)
  {
    assert Recent([], "p", 0, p.window) == {};
    assert NewCodes("p", [Draft("b", "a", 0, 100)]) == [Sent("a")];
  }

  lemma LookRuns(p: Policy, k: nat, hash: string)
    requires k < p.maxAttempts
    ensures Apply(p, Tried(k), Look("r", "p", hash, 1)) == State(Tried(k).codes, map["r" := Guessing("p", hash, {0})])
  {
    assert Live(p, Tried(k).codes, "p", 1) == {0};
  }

  lemma WrongGuessRuns(p: Policy, k: nat)
    requires k < p.maxAttempts
    ensures Apply(p, State(Tried(k).codes, map["r" := Guessing("p", "x", {0})]), Guess("r")) == Tried(k + 1)
  {
    var s := State(Tried(k).codes, map["r" := Guessing("p", "x", {0})]);
    assert "a" != "x" by { assert "a"[0] != "x"[0]; }
    assert 0 in Paid(p, s.codes, {0});
    assert s.requests - {"r"} == map[];
  }

  function WrongGuesses(n: nat): seq<Event> {
    if n == 0 then [] else [Look("r", "p", "x", 1), Guess("r")] + WrongGuesses(n - 1)
  }

  /** Wrong guesses handled one at a time, and whatever comes after them. */
  lemma {:induction false} WrongGuessesThen(p: Policy, k: nat, n: nat, es: seq<Event>, end: State)
    requires k + n <= p.maxAttempts && Ends(p, Tried(k + n), es, end)
    ensures Ends(p, Tried(k), WrongGuesses(n) + es, end)
    decreases n
  {
    if n == 0 {
      assert WrongGuesses(0) + es == es;
    } else {
      var rest := WrongGuesses(n - 1) + es;
      WrongGuessesThen(p, k + 1, n - 1, es, end);
      OneGuessThen(p, k, rest, end);
      assert [Look("r", "p", "x", 1), Guess("r")] + rest == WrongGuesses(n) + es;
    }
  }

  lemma OneGuessThen(p: Policy, k: nat, es: seq<Event>, end: State)
    requires k < p.maxAttempts && Ends(p, Tried(k + 1), es, end)
    ensures Ends(p, Tried(k), [Look("r", "p", "x", 1), Guess("r")] + es, end)
  {
    var looked := State(Tried(k).codes, map["r" := Guessing("p", "x", {0})]);
    LookRuns(p, k, "x");
    WrongGuessRuns(p, k);
    assert looked.requests.Keys == {"r"} && Tried(k).requests.Keys == {};
    OneMore(p, looked, Guess("r"), es, end);
    OneMore(p, Tried(k), Look("r", "p", "x", 1), [Guess("r")] + es, end);
    assert [Look("r", "p", "x", 1)] + ([Guess("r")] + es) == [Look("r", "p", "x", 1), Guess("r")] + es;
  }

  // Two live codes: a guess that looked before the second one was sent spends the first one's last
  // attempt; a guess that looked after it is paid for by the second code alone, and compares both.

  const SEND_AGAIN: Event := Issue("p", 1, [Draft("b", "b", 0, 100)])
  const LAST_LOOK: Event := Look("r", "p", "x", 1)
  const LATE_LOOK: Event := Look("q", "p", "y", 2)

  function TwoCodes(k: nat, requests: map<RequestId, Stage>): State {
    State(Tried(k).codes + [Sent("b")], requests)
  }

  lemma SendAgainRuns(p: Policy, k: nat)
    requires p.maxPerWindow >= 2
    ensures var waiting := map["r" := Guessing("p", "x", {0})];
            Apply(p, State(Tried(k).codes, waiting), SEND_AGAIN) == TwoCodes(k, waiting)
  {
    var codes := Tried(k).codes;
    Fewer(Recent(codes, "p", 1, p.window), {0});
    assert NewCodes("p", [Draft("b", "b", 0, 100)]) == [Sent("b")];
  }

  lemma LateLookRuns(p: Policy, k: nat)
    requires k < p.maxAttempts
    ensures Apply(p, TwoCodes(k, map["r" := Guessing("p", "x", {0})]), LATE_LOOK)
            == TwoCodes(k, map["r" := Guessing("p", "x", {0}), "q" := Guessing("p", "y", {0, 1})])
  {
    assert "q" != "r" by { assert "q"[0] != "r"[0]; }
    assert Live(p, TwoCodes(k, map[]).codes, "p", 2) == {0, 1};
  }

  lemma LastAttemptRuns(p: Policy, k: nat)
    requires k < p.maxAttempts
    ensures Apply(p, TwoCodes(k, map["r" := Guessing("p", "x", {0}), "q" := Guessing("p", "y", {0, 1})]), Guess("r"))
            == TwoCodes(k + 1, map["q" := Guessing("p", "y", {0, 1})])
  {
    var s := TwoCodes(k, map["r" := Guessing("p", "x", {0}), "q" := Guessing("p", "y", {0, 1})]);
    assert "q" != "r" && "a" != "x" by { assert "q"[0] != "r"[0] && "a"[0] != "x"[0]; }
    assert 0 in Paid(p, s.codes, {0});
    assert s.requests - {"r"} == map["q" := Guessing("p", "y", {0, 1})];
  }

  lemma UnpaidGuessRuns(p: Policy)
    requires p.maxAttempts >= 1
    ensures var end := Apply(p, TwoCodes(p.maxAttempts, map["q" := Guessing("p", "y", {0, 1})]), Guess("q"));
            |end.codes| == 2 && end.codes[0].compared == p.maxAttempts + 1 && end.requests == map[]
  {
    var s := TwoCodes(p.maxAttempts, map["q" := Guessing("p", "y", {0, 1})]);
    assert "a" != "y" && "b" != "y" by { assert "a"[0] != "y"[0] && "b"[0] != "y"[0]; }
    assert 1 in Paid(p, s.codes, {0, 1});
  }

  /** For every policy that lets a second code be sent, two redemptions are enough for one guess too many. */
  lemma TwoLiveCodesExceedTheBound(p: Policy) returns (es: seq<Event>)
    requires p.maxAttempts >= 1 && p.maxPerWindow >= 2
    ensures UsersAtMost(p, State([], map[]), es, 0, 2)
    ensures var end := Run(p, State([], map[]), es); |end.codes| == 2 && end.codes[0].compared == p.maxAttempts + 1
  {
    var k := p.maxAttempts - 1;
    var end := TailRuns(p, k);
    WrongGuessesThen(p, 0, k, TAIL, end);
    es := [SEND] + (WrongGuesses(k) + TAIL);
    SendRuns(p);
    OneMore(p, State([], map[]), SEND, WrongGuesses(k) + TAIL, end);
  }

  const TAIL: seq<Event> := [LAST_LOOK, SEND_AGAIN, LATE_LOOK, Guess("r"), Guess("q")]

  /** Statements one after another, each with at most two requests in flight before it. */
  lemma TwoEnd(p: Policy, a: State, e: Event, b: State, f: Event, c: State, es: seq<Event>, end: State)
    requires Apply(p, a, e) == b && Apply(p, b, f) == c && Ends(p, c, es, end)
    requires |a.requests.Keys| <= 2 && |b.requests.Keys| <= 2
    ensures Ends(p, a, [e, f] + es, end)
  {
    OneMore(p, b, f, es, end);
    OneMore(p, a, e, [f] + es, end);
    assert [e] + ([f] + es) == [e, f] + es;
  }

  lemma LastTwo(p: Policy, k: nat) returns (end: State)
    requires k + 1 == p.maxAttempts
    ensures Ends(p, TwoCodes(k, map["r" := Guessing("p", "x", {0}), "q" := Guessing("p", "y", {0, 1})]), [Guess("r"), Guess("q")], end)
    ensures |end.codes| == 2 && end.codes[0].compared == p.maxAttempts + 1
  {
    var r, q := Guessing("p", "x", {0}), Guessing("p", "y", {0, 1});
    var both, one := TwoCodes(k, map["r" := r, "q" := q]), TwoCodes(k + 1, map["q" := q]);
    end := Apply(p, one, Guess("q"));
    LastAttemptRuns(p, k);
    UnpaidGuessRuns(p);
    assert one.requests.Keys == {"q"} && both.requests.Keys == {"r", "q"};
    NoMore(p, end);
    TwoEnd(p, both, Guess("r"), one, Guess("q"), end, [], end);
    assert [Guess("r"), Guess("q")] + [] == [Guess("r"), Guess("q")];
  }

  lemma TailRuns(p: Policy, k: nat) returns (end: State)
    requires k + 1 == p.maxAttempts && p.maxPerWindow >= 2
    ensures Ends(p, Tried(k), TAIL, end) && |end.codes| == 2 && end.codes[0].compared == p.maxAttempts + 1
  {
    var waiting := map["r" := Guessing("p", "x", {0})];
    end := LastTwo(p, k);
    LateLookRuns(p, k);
    assert waiting.Keys == {"r"};
    OneMore(p, TwoCodes(k, waiting), LATE_LOOK, [Guess("r"), Guess("q")], end);
    LookRuns(p, k, "x");
    SendAgainRuns(p, k);
    TwoEnd(p, Tried(k), LAST_LOOK, State(Tried(k).codes, waiting), SEND_AGAIN, TwoCodes(k, waiting),
           [LATE_LOOK] + [Guess("r"), Guess("q")], end);
    assert [LAST_LOOK, SEND_AGAIN] + ([LATE_LOOK] + [Guess("r"), Guess("q")]) == TAIL;
  }

  lemma {:induction false} MoreUsers(p: Policy, s: State, es: seq<Event>, code: nat, c: nat, d: nat)
    requires UsersAtMost(p, s, es, code, c) && c <= d
    ensures UsersAtMost(p, s, es, code, d)
    decreases |es|
  {
    if es != [] {
      MoreUsers(p, Apply(p, s, es[0]), es[1..], code, c, d);
    }
  }

  /** The run is one in which at most `c` redemptions ever hold the code, and compares it no more often than allowed. */
  ghost predicate KeepsAttempts(p: Policy, c: nat, es: seq<Event>, code: nat) {
    var end := Run(p, State([], map[]), es);
    UsersAtMost(p, State([], map[]), es, code, c) && code < |end.codes| ==> end.codes[code].compared <= p.maxAttempts
  }

  /**
   * Exactly when the attempts are a limit: in every run in which at most `c` redemptions ever hold a
   * code it is compared with at most `maxAttempts` guesses, if and only if they hold it one at a time.
   */
  lemma AttemptsHoldExactlyWhenSerial(p: Policy, c: nat)
    requires p.maxAttempts >= 1 && p.maxPerWindow >= 2
    ensures (forall es, code: nat :: KeepsAttempts(p, c, es, code)) <==> c <= 1
  {
    if c <= 1 {
      forall es, code: nat
        ensures KeepsAttempts(p, c, es, code)
      {
        if UsersAtMost(p, State([], map[]), es, code, c) && code < |Run(p, State([], map[]), es).codes| {
          MoreUsers(p, State([], map[]), es, code, c, 1);
          InterleavedBounds(p, State([], map[]), es, code, 1);
        }
      }
    } else {
      var es := TwoLiveCodesExceedTheBound(p);
      MoreUsers(p, State([], map[]), es, 0, 2, c);
      assert !KeepsAttempts(p, c, es, 0);
    }
  }

  // Two redemptions that both compare one code before either consumes it.

  function Redeeming(k: nat, signIns: nat, requests: map<RequestId, Stage>): State {
    State([Sent("a").(attempts := k, compared := k, consumed := signIns > 0, signIns := signIns)], requests)
  }

  lemma BothLook(p: Policy)
    requires p.maxAttempts >= 2
    ensures var g := Guessing("p", "a", {0});
            && Apply(p, Redeeming(0, 0, map[]), Look("r", "p", "a", 1)) == Redeeming(0, 0, map["r" := g])
            && Apply(p, Redeeming(0, 0, map["r" := g]), Look("q", "p", "a", 1)) == Redeeming(0, 0, map["r" := g, "q" := g])
  {
    assert "q" != "r" by { assert "q"[0] != "r"[0]; }
    assert Live(p, Redeeming(0, 0, map[]).codes, "p", 1) == {0};
  }

  lemma BothGuess(p: Policy)
    requires p.maxAttempts >= 2
    ensures var g, c := Guessing("p", "a", {0}), Consuming("p", 0);
            && Apply(p, Redeeming(0, 0, map["r" := g, "q" := g]), Guess("r")) == Redeeming(1, 0, map["r" := c, "q" := g])
            && Apply(p, Redeeming(1, 0, map["r" := c, "q" := g]), Guess("q")) == Redeeming(2, 0, map["r" := c, "q" := c])
  {
    assert "q" != "r" by { assert "q"[0] != "r"[0]; }
    assert 0 in Paid(p, Redeeming(0, 0, map[]).codes, {0}) && 0 in Paid(p, Redeeming(1, 0, map[]).codes, {0});
  }

  lemma BothConsume(p: Policy)
    ensures var c := Consuming("p", 0);
            && Apply(p, Redeeming(2, 0, map["r" := c, "q" := c]), Consume("r", true)) == Redeeming(2, 1, map["q" := c])
            && Apply(p, Redeeming(2, 1, map["q" := c]), Consume("q", true)) == Redeeming(2, 2, map[])
  {
    var c := Consuming("p", 0);
    assert "q" != "r" by { assert "q"[0] != "r"[0]; }
    assert map["r" := c, "q" := c] - {"r"} == map["q" := c] && map["q" := c] - {"q"} == map[];
  }

  const BOTH_REDEEM: seq<Event> := [Guess("r"), Guess("q"), Consume("r", true), Consume("q", true)]

  lemma BothRedeem(p: Policy)
    requires p.maxAttempts >= 2
    ensures var g := Guessing("p", "a", {0});
            Ends(p, Redeeming(0, 0, map["r" := g, "q" := g]), BOTH_REDEEM, Redeeming(2, 2, map[]))
  {
    var g, c, end := Guessing("p", "a", {0}), Consuming("p", 0), Redeeming(2, 2, map[]);
    BothGuess(p);
    BothConsume(p);
    assert map["q" := c].Keys == {"q"} && map["r" := c, "q" := c].Keys == {"r", "q"};
    assert map["r" := c, "q" := g].Keys == {"r", "q"} && map["r" := g, "q" := g].Keys == {"r", "q"};
    NoMore(p, end);
    OneMore(p, Redeeming(2, 1, map["q" := c]), Consume("q", true), [], end);
    OneMore(p, Redeeming(2, 0, map["r" := c, "q" := c]), Consume("r", true), [Consume("q", true)] + [], end);
    OneMore(p, Redeeming(1, 0, map["r" := c, "q" := g]), Guess("q"), [Consume("r", true)] + ([Consume("q", true)] + []), end);
    OneMore(p, Redeeming(0, 0, map["r" := g, "q" := g]), Guess("r"),
            [Guess("q")] + ([Consume("r", true)] + ([Consume("q", true)] + [])), end);
    assert [Guess("r")] + ([Guess("q")] + ([Consume("r", true)] + ([Consume("q", true)] + []))) == BOTH_REDEEM;
  }

  /** For every policy with a second attempt, two redemptions of one code may both sign in. */
  lemma OneCodeSignsInTwice(p: Policy) returns (es: seq<Event>)
    requires p.maxAttempts >= 2 && p.maxPerWindow >= 1
    ensures UsersAtMost(p, State([], map[]), es, 0, 2)
    ensures var end := Run(p, State([], map[]), es); |end.codes| == 1 && end.codes[0].signIns == 2
  {
    var g, end := Guessing("p", "a", {0}), Redeeming(2, 2, map[]);
    SendRuns(p);
    BothLook(p);
    BothRedeem(p);
    assert Tried(0) == Redeeming(0, 0, map[]) && map["r" := g].Keys == {"r"};
    OneMore(p, Redeeming(0, 0, map["r" := g]), Look("q", "p", "a", 1), BOTH_REDEEM, end);
    OneMore(p, Tried(0), Look("r", "p", "a", 1), [Look("q", "p", "a", 1)] + BOTH_REDEEM, end);
    es := [SEND] + ([Look("r", "p", "a", 1)] + ([Look("q", "p", "a", 1)] + BOTH_REDEEM));
    OneMore(p, State([], map[]), SEND, [Look("r", "p", "a", 1)] + ([Look("q", "p", "a", 1)] + BOTH_REDEEM), end);
  }

  ghost predicate KeepsToOneSignIn(p: Policy, c: nat, es: seq<Event>, code: nat) {
    var end := Run(p, State([], map[]), es);
    UsersAtMost(p, State([], map[]), es, code, c) && code < |end.codes| ==> end.codes[code].signIns <= 1
  }

  /** Likewise for signing in at most once with a code. */
  lemma OneSignInExactlyWhenSerial(p: Policy, c: nat)
    requires p.maxAttempts >= 2 && p.maxPerWindow >= 1
    ensures (forall es, code: nat :: KeepsToOneSignIn(p, c, es, code)) <==> c <= 1
  {
    if c <= 1 {
      forall es, code: nat
        ensures KeepsToOneSignIn(p, c, es, code)
      {
        if UsersAtMost(p, State([], map[]), es, code, c) && code < |Run(p, State([], map[]), es).codes| {
          MoreUsers(p, State([], map[]), es, code, c, 1);
          InterleavedBounds(p, State([], map[]), es, code, 1);
        }
      }
    } else {
      var es := OneCodeSignsInTwice(p);
      MoreUsers(p, State([], map[]), es, 0, 2, c);
      assert !KeepsToOneSignIn(p, c, es, 0);
    }
  }

  // ── What each call does to every row ──────────────────────────────────────

  /**
   * A phone with fewer than `maxPerWindow` codes created in the window up to now gets one for each of
   * its first five borrowers, unused and untried; any other phone gets none. No earlier row changes.
   */
  ghost predicate AsksExactly(p: Policy, before: seq<Code>, after: seq<Code>, phone: Phone, now: int, drafts: seq<Draft>) {
    var recent := set i: nat | i < |before| && before[i].phone == phone && now - p.window < before[i].createdAt;
    && before <= after
    && |after| - |before| == (if |recent| >= p.maxPerWindow then 0 else if |drafts| > 5 then 5 else |drafts|)
    && forall k | |before| <= k < |after| ::
         var d := drafts[k - |before|];
         after[k] == Code(phone, d.borrower, d.hash, d.createdAt, d.expiresAt, 0, false, 0, 0, 0)
  }

  lemma AskedExactly(p: Policy, codes: seq<Code>, phone: Phone, now: int, drafts: seq<Draft>)
    ensures AsksExactly(p, codes, Serve(p, codes, Ask(phone, now, drafts)), phone, now, drafts)
  {
    var recent := set i: nat | i < |codes| && codes[i].phone == phone && now - p.window < codes[i].createdAt;
    assert recent == Recent(codes, phone, now, p.window);
  }

  /** Row `i` is the phone's, unused, unexpired, with attempts left. */
  predicate Redeemable(p: Policy, codes: seq<Code>, phone: Phone, now: int, i: int) {
    && 0 <= i < |codes| && codes[i].phone == phone && !codes[i].consumed
    && now < codes[i].expiresAt && codes[i].attempts + 1 <= p.maxAttempts
  }

  /** Row `i` is the first redeemable one with the guessed code. */
  predicate SignsIn(p: Policy, codes: seq<Code>, phone: Phone, hash: string, now: int, i: int) {
    && Redeemable(p, codes, phone, now, i) && codes[i].hash == hash
    && forall j | 0 <= j < i && Redeemable(p, codes, phone, now, j) :: codes[j].hash != hash
  }

  /**
   * A guess costs each redeemable row one attempt and no other row any; a right one uses up every row
   * of the phone. Nothing else about any row changes but its history.
   */
  ghost predicate EntersExactly(p: Policy, before: seq<Code>, after: seq<Code>, phone: Phone, hash: string, now: int) {
    && |after| == |before|
    && forall i | 0 <= i < |before| ::
         && after[i].attempts == before[i].attempts + (if Redeemable(p, before, phone, now, i) then 1 else 0)
         && (after[i].consumed <==> before[i].consumed
                                    || (before[i].phone == phone && exists k :: SignsIn(p, before, phone, hash, now, k)))
         && after[i].(attempts := before[i].attempts, consumed := before[i].consumed, compared := before[i].compared,
                      unpaid := before[i].unpaid, signIns := before[i].signIns) == before[i]
  }

  lemma EnteredExactly(p: Policy, codes: seq<Code>, phone: Phone, hash: string, now: int, available: bool)
    ensures EntersExactly(p, codes, Serve(p, codes, Enter(phone, hash, now, available)), phone, hash, now)
  {
    var live := Live(p, codes, phone, now);
    assert forall i | 0 <= i < |codes| :: Redeemable(p, codes, phone, now, i) <==> i in live;
    if live != {} {
      var i := Match(codes, live, hash, 0);
      if i < |codes| {
        assert SignsIn(p, codes, phone, hash, now, i);
      }
    }
  }

  // ── The service over the table ────────────────────────────────────────────

  class Portal {
    const policy: Policy
    var codes: seq<Code>

    /** One code for each of the phone's first five borrowers, unless the phone has had enough. */
    method RequestOtp(phone: Phone, now: int, borrowers: seq<Draft>)
      modifies this
      ensures codes == Serve(policy, old(codes), Ask(phone, now, borrowers))
      ensures AsksExactly(policy, old(codes), codes, phone, now, borrowers)
    {
      AskedExactly(policy, codes, phone, now, borrowers);
      if |Recent(codes, phone, now, policy.window)| >= policy.maxPerWindow {
        return;
      }
      var taken := FirstFive(borrowers);
      ghost var all := NewCodes(phone, taken);
      var i := 0;
      while i < |taken|
        invariant i <= |taken| && codes == old(codes) + all[..i]
      {
        codes := codes + [NewCode(phone, taken[i])];
        assert all[..i + 1] == all[..i] + [NewCode(phone, taken[i])];
        i := i + 1;
      }
      assert all[..i] == all;
    }

    /** The code's borrower when it signs in. */
    method VerifyOtp(phone: Phone, hash: string, now: int, available: bool) returns (borrower: Option<string>)
      modifies this
      ensures codes == Serve(policy, old(codes), Enter(phone, hash, now, available))
      ensures EntersExactly(policy, old(codes), codes, phone, hash, now)
      ensures borrower.Some? <==> available && exists i :: SignsIn(policy, old(codes), phone, hash, now, i)
      ensures forall i | SignsIn(policy, old(codes), phone, hash, now, i) && available :: borrower == Some(old(codes)[i].borrower)
    {
      EnteredExactly(policy, codes, phone, hash, now, available);
      var live := Live(policy, codes, phone, now);
      if live == {} {
        assert forall i | 0 <= i < |codes| :: IsLive(policy, codes[i], phone, now) ==> i in live;
        return None;
      }
      var i := Match(codes, live, hash, 0);
      codes := Guessed(policy, codes, live);
      if i == |codes| {
        assert forall j | 0 <= j < |old(codes)| :: IsLive(policy, old(codes)[j], phone, now) ==> j in live;
        return None;
      }
      assert SignsIn(policy, old(codes), phone, hash, now, i);
      codes := Consumed(codes, phone, i, available);
      borrower := if available then Some(codes[i].borrower) else None;
    }
  }
}
