/**
 * The second factor (section 5.2 of RFC 6238): single-use time steps, single-use challenges, and
 * where a session's `mfaAt` comes from. Every database statement is one step, and requests on any
 * number of API instances interleave freely. `at` is true time, `clock` what an instance reads.
 */
module SecondFactor {
  import opened Wrappers
  import S = Sessions

  type UserId = S.UserId
  type TokenId = S.TokenId
  type RequestId = S.RequestId
  type ChallengeId = string

  datatype Challenge = Challenge(user: UserId, consumed: bool, expiresAt: int)

  datatype Purpose = SignInWith(challenge: ChallengeId) | Enrol | StepUp

  /** What a request still has to do. `code` numbers the accepted code it holds. */
  datatype Stage =
    | Reading(purpose: Purpose, user: UserId)
    | Claiming(purpose: Purpose, user: UserId, step: int)
    | Redeeming(challenge: ChallengeId, user: UserId, code: nat)
    | Issuing(user: UserId, code: nat)

  datatype Accepted = Accepted(user: UserId, step: int, at: int)

  datatype Grant = Grant(code: nat, at: int, clock: int)

  /** The tables, and three histories: codes accepted, challenges redeemed, sessions opened by a code. */
  datatype State = State(
    lastStep: map<UserId, int>, challenges: map<ChallengeId, Challenge>, requests: map<RequestId, Stage>,
    accepted: seq<Accepted>, redeemed: seq<ChallengeId>, grants: map<TokenId, Grant>, sessions: S.State)

  datatype Event =
    | IssueChallenge(id: ChallengeId, user: UserId, expiresAt: int)
    | Submit(request: RequestId, purpose: Purpose, user: UserId, clock: int)
    | ReadUser(request: RequestId, matched: Option<int>, permitted: bool)
    | Claim(request: RequestId, at: int)
    | Redeem(request: RequestId)
    | Issue(request: RequestId, token: TokenId, at: int, clock: int, expiresAt: int)
    | Abandon(request: RequestId)
    | Session(event: S.Event)

  /** Whole seconds since the epoch, of a time in milliseconds. */
  function Seconds(ms: int): int {
    ms / 1000
  }

  predicate MfaIsFresh(amr: S.Amr, mfaAt: Option<int>, now: int, window: int) {
    amr.Mfa? && mfaAt.Some? && mfaAt.value * 1000 <= now + 60_000 && now - mfaAt.value * 1000 <= window
  }

  predicate Open(challenges: map<ChallengeId, Challenge>, id: ChallengeId, user: UserId, now: int) {
    && id in challenges && challenges[id].user == user
    && !challenges[id].consumed && challenges[id].expiresAt > now
  }

  predicate Later(lastStep: map<UserId, int>, user: UserId, step: int) {
    user in lastStep ==> lastStep[user] < step
  }

  function Drop(s: State, request: RequestId): State {
    s.(requests := s.requests - {request})
  }

  /** UPDATE user SET totpLastStep = step WHERE totpLastStep IS NULL OR totpLastStep < step */
  function ClaimStep(s: State, request: RequestId, at: int): State
    requires request in s.requests && s.requests[request].Claiming?
  {
    var r := s.requests[request];
    if Later(s.lastStep, r.user, r.step) then
      var code := |s.accepted|;
      s.(lastStep := s.lastStep[r.user := r.step],
         accepted := s.accepted + [Accepted(r.user, r.step, at)],
         requests := s.requests[request :=
           if r.purpose.SignInWith? then Redeeming(r.purpose.challenge, r.user, code) else Issuing(r.user, code)])
    else Drop(s, request)
  }

  /** UPDATE mfaChallenge SET consumedAt WHERE id AND consumedAt IS NULL */
  function RedeemChallenge(s: State, request: RequestId): State
    requires request in s.requests && s.requests[request].Redeeming?
  {
    var r := s.requests[request];
    if r.challenge in s.challenges && !s.challenges[r.challenge].consumed then
      s.(challenges := s.challenges[r.challenge := s.challenges[r.challenge].(consumed := true)],
         redeemed := s.redeemed + [r.challenge],
         requests := s.requests[request := Issuing(r.user, r.code)])
    else Drop(s, request)
  }

  function OpenSession(s: State, e: Event): State
    requires e.Issue? && e.request in s.requests && s.requests[e.request].Issuing?
  {
    var r := s.requests[e.request];
    if e.token in s.sessions.tokens then s
    else
      Drop(s, e.request).(
        grants := s.grants[e.token := Grant(r.code, e.at, e.clock)],
        sessions := S.Apply(s.sessions, S.SignIn(e.token, r.user, S.Mfa, Some(Seconds(e.clock)), e.expiresAt)))
  }

  function Apply(s: State, e: Event): State {
    match e
    case IssueChallenge(id, user, expiresAt) =>
      if id in s.challenges then s else s.(challenges := s.challenges[id := Challenge(user, false, expiresAt)])
    case Submit(request, purpose, user, clock) =>
      if request in s.requests || (purpose.SignInWith? && !Open(s.challenges, purpose.challenge, user, clock)) then s
      else s.(requests := s.requests[request := Reading(purpose, user)])
    case ReadUser(request, matched, permitted) =>
      if request !in s.requests || !s.requests[request].Reading? then s
      else
        var r := s.requests[request];
        if permitted && matched.Some? && Later(s.lastStep, r.user, matched.value)
        then s.(requests := s.requests[request := Claiming(r.purpose, r.user, matched.value)])
        else Drop(s, request)
    case Claim(request, at) =>
      if request in s.requests && s.requests[request].Claiming? then ClaimStep(s, request, at) else s
    case Redeem(request) =>
      if request in s.requests && s.requests[request].Redeeming? then RedeemChallenge(s, request) else s
    case Issue(request, _, _, _, _) =>
      if request in s.requests && s.requests[request].Issuing? then OpenSession(s, e) else s
    case Abandon(request) => Drop(s, request)
    case Session(event) =>
      if event.SignIn? && event.amr.Mfa? then s else s.(sessions := S.Apply(s.sessions, event))
  }

  function Run(s: State, es: seq<Event>): State
    decreases |es|
  {
    if es == [] then s else Run(Apply(s, es[0]), es[1..])
  }

  // ── The invariant ─────────────────────────────────────────────────────────

  /** A user's accepted steps grow: no step of theirs is accepted twice. */
  ghost predicate StepsGrow(lastStep: map<UserId, int>, accepted: seq<Accepted>) {
    && (forall i, j | 0 <= i < j < |accepted| ::
          accepted[i].user == accepted[j].user ==> accepted[i].step < accepted[j].step)
    && forall i | 0 <= i < |accepted| ::
         accepted[i].user in lastStep && accepted[i].step <= lastStep[accepted[i].user]
  }

  ghost predicate RedeemedOnce(challenges: map<ChallengeId, Challenge>, redeemed: seq<ChallengeId>) {
    && (forall i, j | 0 <= i < j < |redeemed| :: redeemed[i] != redeemed[j])
    && forall i | 0 <= i < |redeemed| :: redeemed[i] in challenges && challenges[redeemed[i]].consumed
  }

  /** The request holds an accepted code and may still turn it into a session. */
  predicate Holds(requests: map<RequestId, Stage>, r: RequestId) {
    r in requests && (requests[r].Redeeming? || requests[r].Issuing?)
  }

  /** Every accepted code is in at most one place: held by one request, or spent on one session. */
  ghost predicate CodesSpentOnce(requests: map<RequestId, Stage>, accepted: seq<Accepted>, grants: map<TokenId, Grant>) {
    && (forall r | Holds(requests, r) :: requests[r].code < |accepted| && accepted[requests[r].code].user == requests[r].user)
    && (forall r, q | Holds(requests, r) && Holds(requests, q) :: requests[r].code == requests[q].code ==> r == q)
    && (forall r, t | Holds(requests, r) && t in grants :: grants[t].code != requests[r].code)
    && (forall t | t in grants :: grants[t].code < |accepted|)
    && forall t, w | t in grants && w in grants :: grants[t].code == grants[w].code ==> t == w
  }

  /** The session a grant opened carries the grant's user and time. */
  predicate Opened(accepted: seq<Accepted>, grants: map<TokenId, Grant>, tokens: map<TokenId, S.Token>, t: TokenId)
    requires t in grants
  {
    var g := grants[t];
    && g.code < |accepted| && t in tokens
    && tokens[t].user == accepted[g.code].user && tokens[t].mfaAt == Some(Seconds(g.clock))
  }

  /** Only a grant opens a second-factor session. */
  predicate FromGrant(grants: map<TokenId, Grant>, tokens: map<TokenId, S.Token>, c: TokenId)
    requires c in tokens
  {
    tokens[c].amr.Mfa? ==> tokens[c].root in grants
  }

  ghost predicate Provenance(accepted: seq<Accepted>, grants: map<TokenId, Grant>, tokens: map<TokenId, S.Token>) {
    && (forall t {:trigger Opened(accepted, grants, tokens, t)} :: t in grants ==> Opened(accepted, grants, tokens, t))
    && forall c {:trigger FromGrant(grants, tokens, c)} :: c in tokens ==> FromGrant(grants, tokens, c)
  }

  ghost predicate Inv(s: State) {
    && StepsGrow(s.lastStep, s.accepted)
    && RedeemedOnce(s.challenges, s.redeemed)
    && CodesSpentOnce(s.requests, s.accepted, s.grants)
    && Provenance(s.accepted, s.grants, s.sessions.tokens)
    && S.Inv(s.sessions)
  }

  /** Before any code is accepted; passwords may have opened sessions already. */
  ghost predicate Initial(s: State) {
    && s.requests == map[] && s.accepted == [] && s.redeemed == [] && s.grants == map[]
    && S.Inv(s.sessions) && forall c | c in s.sessions.tokens :: !s.sessions.tokens[c].amr.Mfa?
  }

  lemma InitialInv(s: State)
    requires Initial(s)
    ensures Inv(s)
  {
  }

  lemma MoreAccepted(accepted: seq<Accepted>, more: seq<Accepted>, grants: map<TokenId, Grant>, tokens: map<TokenId, S.Token>)
    requires Provenance(accepted, grants, tokens)
    ensures Provenance(accepted + more, grants, tokens)
  {
    forall t | t in grants
      ensures Opened(accepted + more, grants, tokens, t)
    {
      assert Opened(accepted, grants, tokens, t);
    }
    forall c | c in tokens
      ensures FromGrant(grants, tokens, c)
    {
    }
  }

  lemma ClaimKeepsSteps(lastStep: map<UserId, int>, accepted: seq<Accepted>, user: UserId, step: int, at: int)
    requires StepsGrow(lastStep, accepted) && Later(lastStep, user, step)
    ensures StepsGrow(lastStep[user := step], accepted + [Accepted(user, step, at)])
  {
  }

  /** A newly accepted code is held by the request that claimed it. */
  lemma HolderAdded(before: map<RequestId, Stage>, after: map<RequestId, Stage>, accepted: seq<Accepted>, code: Accepted,
                    grants: map<TokenId, Grant>, request: RequestId)
    requires CodesSpentOnce(before, accepted, grants) && !Holds(before, request)
    requires Holds(after, request) && after[request].code == |accepted| && after[request].user == code.user
    requires forall r | Holds(after, r) && r != request :: Holds(before, r) && after[r] == before[r]
    ensures CodesSpentOnce(after, accepted + [code], grants)
  {
  }

  /** A held code moves from its request to the session it opens. */
  lemma HolderSpends(before: map<RequestId, Stage>, accepted: seq<Accepted>, grants: map<TokenId, Grant>, request: RequestId,
                     token: TokenId, at: int, clock: int)
    requires CodesSpentOnce(before, accepted, grants) && Holds(before, request) && token !in grants
    ensures CodesSpentOnce(before - {request}, accepted, grants[token := Grant(before[request].code, at, clock)])
  {
  }

  lemma ClaimKeepsInv(s: State, e: Event)
    requires Inv(s) && e.Claim? && e.request in s.requests && s.requests[e.request].Claiming?
    ensures Inv(Apply(s, e))
  {
    var r := s.requests[e.request];
    MoreAccepted(s.accepted, [Accepted(r.user, r.step, e.at)], s.grants, s.sessions.tokens);
    if Later(s.lastStep, r.user, r.step) {
      ClaimKeepsSteps(s.lastStep, s.accepted, r.user, r.step, e.at);
      HolderAdded(s.requests, Apply(s, e).requests, s.accepted, Accepted(r.user, r.step, e.at), s.grants, e.request);
    } else {
      HoldersShrink(s.requests, Apply(s, e).requests, s.accepted, s.grants);
    }
  }

  lemma GrantKeepsProvenance(s: State, e: Event)
    requires Inv(s) && e.Issue? && e.request in s.requests && s.requests[e.request].Issuing?
    requires e.token !in s.sessions.tokens
    ensures var t := Apply(s, e); Provenance(t.accepted, t.grants, t.sessions.tokens)
  {
    var t := Apply(s, e);
    var tokens := t.sessions.tokens;
    assert Holds(s.requests, e.request);
    forall g | g in t.grants
      ensures Opened(t.accepted, t.grants, tokens, g)
    {
      if g != e.token {
        assert Opened(s.accepted, s.grants, s.sessions.tokens, g);
      }
    }
    forall c | c in tokens
      ensures FromGrant(t.grants, tokens, c)
    {
      if c != e.token {
        assert FromGrant(s.grants, s.sessions.tokens, c);
      }
    }
  }

  lemma IssueKeepsInv(s: State, e: Event)
    requires Inv(s) && e.Issue? && e.request in s.requests && s.requests[e.request].Issuing?
    requires e.token !in s.sessions.tokens
    ensures Inv(Apply(s, e))
  {
    var held := s.requests[e.request];
    GrantKeepsProvenance(s, e);
    S.StepKeepsInv(s.sessions, S.SignIn(e.token, held.user, S.Mfa, Some(Seconds(e.clock)), e.expiresAt));
    assert Holds(s.requests, e.request);
    assert e.token !in s.grants by {
      assert e.token in s.grants ==> Opened(s.accepted, s.grants, s.sessions.tokens, e.token);
    }
    HolderSpends(s.requests, s.accepted, s.grants, e.request, e.token, e.at, e.clock);
  }

  /** What a session event does to the tokens: revoke, and add at most one with its root's claims. */
  lemma SessionFrame(s: S.State, event: S.Event)
    requires !(event.SignIn? && event.amr.Mfa?)
    ensures var after := S.Apply(s, event).tokens;
            && (forall c | c in s.tokens :: c in after && after[c].(revoked := false) == s.tokens[c].(revoked := false))
            && forall c | c in after && c !in s.tokens :: after[c].amr.Pwd? || (S.Mints(s, event)
                 && var p := s.tokens[s.requests[event.request].token]; after[c].amr == p.amr && after[c].root == p.root)
  {
  }

  lemma SessionKeepsProvenance(accepted: seq<Accepted>, grants: map<TokenId, Grant>, s: S.State, event: S.Event)
    requires Provenance(accepted, grants, s.tokens)
    requires !(event.SignIn? && event.amr.Mfa?)
    ensures Provenance(accepted, grants, S.Apply(s, event).tokens)
  {
    SessionFrame(s, event);
    var after := S.Apply(s, event).tokens;
    forall t | t in grants
      ensures Opened(accepted, grants, after, t)
    {
      assert Opened(accepted, grants, s.tokens, t);
    }
    forall c | c in after
      ensures FromGrant(grants, after, c)
    {
      if c in s.tokens {
        assert FromGrant(grants, s.tokens, c);
      } else if S.Mints(s, event) {
        assert FromGrant(grants, s.tokens, s.requests[event.request].token);
      }
    }
  }

  lemma StepKeepsInv(s: State, e: Event)
    requires Inv(s)
    ensures Inv(Apply(s, e))
  {
    if e.Claim? && e.request in s.requests && s.requests[e.request].Claiming? {
      ClaimKeepsInv(s, e);
    } else if e.Issue? && e.request in s.requests && s.requests[e.request].Issuing? && e.token !in s.sessions.tokens {
      IssueKeepsInv(s, e);
    } else if e.Session? && !(e.event.SignIn? && e.event.amr.Mfa?) {
      SessionKeepsProvenance(s.accepted, s.grants, s.sessions, e.event);
      S.StepKeepsInv(s.sessions, e.event);
    } else {
      OtherStepsKeepInv(s, e);
    }
  }

  lemma OtherStepsKeepInv(s: State, e: Event)
    requires Inv(s)
    requires !(e.Claim? && e.request in s.requests && s.requests[e.request].Claiming?)
    requires !(e.Issue? && e.request in s.requests && s.requests[e.request].Issuing? && e.token !in s.sessions.tokens)
    requires !(e.Session? && !(e.event.SignIn? && e.event.amr.Mfa?))
    ensures Inv(Apply(s, e))
  {
    var t := Apply(s, e);
    if e.Redeem? && e.request in s.requests && s.requests[e.request].Redeeming? {
      RedeemKeepsInv(s, e);
    } else {
      NothingGained(s, e);
      HoldersShrink(s.requests, t.requests, s.accepted, s.grants);
    }
  }

  /** Nothing but a claim, a redemption, an issue or a session event touches more than requests and new challenges. */
  lemma NothingGained(s: State, e: Event)
    requires !(e.Claim? && e.request in s.requests && s.requests[e.request].Claiming?)
    requires !(e.Redeem? && e.request in s.requests && s.requests[e.request].Redeeming?)
    requires !(e.Issue? && e.request in s.requests && s.requests[e.request].Issuing? && e.token !in s.sessions.tokens)
    requires !(e.Session? && !(e.event.SignIn? && e.event.amr.Mfa?))
    ensures var t := Apply(s, e);
            && t.lastStep == s.lastStep && t.accepted == s.accepted && t.redeemed == s.redeemed
            && t.grants == s.grants && t.sessions == s.sessions
            && (forall c | c in s.challenges :: c in t.challenges && t.challenges[c] == s.challenges[c])
            && forall r | Holds(t.requests, r) :: Holds(s.requests, r) && t.requests[r] == s.requests[r]
  {
  }

  lemma HoldersShrink(before: map<RequestId, Stage>, after: map<RequestId, Stage>, accepted: seq<Accepted>,
                      grants: map<TokenId, Grant>)
    requires CodesSpentOnce(before, accepted, grants)
    requires forall r | Holds(after, r) :: Holds(before, r) && after[r].code == before[r].code && after[r].user == before[r].user
    ensures CodesSpentOnce(after, accepted, grants)
  {
  }

  lemma RedeemKeepsInv(s: State, e: Event)
    requires Inv(s) && e.Redeem? && e.request in s.requests && s.requests[e.request].Redeeming?
    ensures Inv(Apply(s, e))
  {
    HoldersShrink(s.requests, Apply(s, e).requests, s.accepted, s.grants);
    var id := s.requests[e.request].challenge;
    if id in s.challenges && !s.challenges[id].consumed {
      RedeemKeepsOnce(s.challenges, s.redeemed, id);
    }
  }

  lemma RedeemKeepsOnce(challenges: map<ChallengeId, Challenge>, redeemed: seq<ChallengeId>, id: ChallengeId)
    requires RedeemedOnce(challenges, redeemed) && id in challenges && !challenges[id].consumed
    ensures RedeemedOnce(challenges[id := challenges[id].(consumed := true)], redeemed + [id])
  {
  }

  /**
   * Under every interleaving across instances: no user and time step is accepted twice, no challenge
   * is redeemed twice, and the sessions a second factor opened map injectively to accepted codes.
   */
  lemma {:induction false} RunKeepsInv(s: State, es: seq<Event>)
    requires Inv(s)
    ensures Inv(Run(s, es))
    decreases |es|
  {
    if es != [] {
      StepKeepsInv(s, es[0]);
      RunKeepsInv(Apply(s, es[0]), es[1..]);
    }
  }

  /**
   * Read off a whole run: accepting the same step of the same user twice, redeeming one challenge
   * twice, or opening two sessions with one code does not happen, and every session that carries the
   * second factor descends from one opened with a code of its own user.
   */
  lemma CodesAndChallengesOnce(s: State, es: seq<Event>)
    requires Initial(s)
    ensures var end := Run(s, es);
            && (forall i, j | 0 <= i < j < |end.accepted| :: end.accepted[i].user == end.accepted[j].user ==> end.accepted[i].step != end.accepted[j].step)
            && (forall i, j | 0 <= i < j < |end.redeemed| :: end.redeemed[i] != end.redeemed[j])
            && (forall t, w | t in end.grants && w in end.grants :: end.grants[t].code == end.grants[w].code ==> t == w)
    ensures forall c | c in Run(s, es).sessions.tokens && Run(s, es).sessions.tokens[c].amr.Mfa? ::
              DescendsFromCode(Run(s, es), c)
  {
    InitialInv(s);
    RunKeepsInv(s, es);
    var end := Run(s, es);
    forall c | c in end.sessions.tokens && end.sessions.tokens[c].amr.Mfa?
      ensures DescendsFromCode(end, c)
    {
      assert S.Rooted(end.sessions.tokens, c);
      assert FromGrant(end.grants, end.sessions.tokens, c);
      assert Opened(end.accepted, end.grants, end.sessions.tokens, end.sessions.tokens[c].root);
    }
  }

  /** The token's sign-in was opened with an accepted code of the token's user, and its `mfaAt` is from then. */
  predicate DescendsFromCode(s: State, c: TokenId)
    requires c in s.sessions.tokens
  {
    var t := s.sessions.tokens[c];
    && t.root in s.grants && s.grants[t.root].code < |s.accepted|
    && s.accepted[s.grants[t.root].code].user == t.user
    && t.mfaAt == Some(Seconds(s.grants[t.root].clock))
  }

  // ── Freshness ─────────────────────────────────────────────────────────────

  predicate Near(a: int, b: int, skew: nat) {
    a - b <= skew && b - a <= skew
  }

  /** Every issuing instance's clock is within `skew` of true time. */
  ghost predicate ClocksWithin(es: seq<Event>, skew: nat) {
    forall i | 0 <= i < |es| :: es[i].Issue? ==> Near(es[i].clock, es[i].at, skew)
  }

  ghost predicate GrantsWithin(s: State, skew: nat) {
    forall t | t in s.grants :: Near(s.grants[t].clock, s.grants[t].at, skew)
  }

  lemma StepGrantsWithin(s: State, e: Event, skew: nat)
    requires GrantsWithin(s, skew) && (e.Issue? ==> Near(e.clock, e.at, skew))
    ensures GrantsWithin(Apply(s, e), skew)
  {
  }

  lemma {:induction false} RunGrantsWithin(s: State, es: seq<Event>, skew: nat)
    requires GrantsWithin(s, skew) && ClocksWithin(es, skew)
    ensures GrantsWithin(Run(s, es), skew)
    decreases |es|
  {
    if es != [] {
      StepGrantsWithin(s, es[0], skew);
      RunGrantsWithin(Apply(s, es[0]), es[1..], skew);
    }
  }

  /**
   * A session that passes the freshness check, however often it was refreshed, goes back to one code
   * of its own user, and that code was accepted within the window, stretched only by the time its
   * request took from accepting the code to opening the session and by twice the clock skew.
   */
  lemma FreshMeansRecentCode(s: State, es: seq<Event>, token: TokenId, now: int, clock: int, window: int, skew: nat)
    requires Initial(s) && ClocksWithin(es, skew) && Near(clock, now, skew)
    requires var t := Run(s, es).sessions.tokens;
             token in t && MfaIsFresh(t[token].amr, t[token].mfaAt, clock, window)
    ensures var end := Run(s, es);
            var root := end.sessions.tokens[token].root;
            && root in end.grants && end.grants[root].code < |end.accepted|
            && end.accepted[end.grants[root].code].user == end.sessions.tokens[token].user
            && var code := end.accepted[end.grants[root].code].at;
               now - code <= window + (end.grants[root].at - code) + 2 * skew
  {
    InitialInv(s);
    RunKeepsInv(s, es);
    RunGrantsWithin(s, es, skew);
    var end := Run(s, es);
    assert S.Rooted(end.sessions.tokens, token);
    assert FromGrant(end.grants, end.sessions.tokens, token);
    assert Opened(end.accepted, end.grants, end.sessions.tokens, end.sessions.tokens[token].root);
  }

  /** When the code behind a session was accepted. */
  function CodeTime(s: State, c: TokenId): int
    requires c in s.sessions.tokens && DescendsFromCode(s, c)
  {
    s.accepted[s.grants[s.sessions.tokens[c].root].code].at
  }

  /** The session passes the freshness check only within the window of its code. */
  ghost predicate FreshWithin(s: State, c: TokenId, window: nat)
    requires c in s.sessions.tokens && DescendsFromCode(s, c)
  {
    var t := s.sessions.tokens[c];
    forall now: int | MfaIsFresh(t.amr, t.mfaAt, now, window) :: now - CodeTime(s, c) <= window
  }

  /** Its `mfaAt`, in whole seconds, is not later than its code. */
  predicate NotAfterItsCode(s: State, c: TokenId)
    requires c in s.sessions.tokens && DescendsFromCode(s, c)
  {
    Seconds(s.grants[s.sessions.tokens[c].root].clock) * 1000 <= CodeTime(s, c)
  }

  /**
   * Exactly when freshness keeps its promise without the stretch: for clocks that agree, no session
   * of a run outlives the window of its code if and only if each session's grant read its clock, in
   * whole seconds, no later than its code was accepted.
   */
  lemma WindowIsExactWithoutDelay(s: State, es: seq<Event>, window: nat)
    requires Initial(s)
    ensures var end := Run(s, es);
            && (forall c | c in end.sessions.tokens && end.sessions.tokens[c].amr.Mfa? :: DescendsFromCode(end, c))
            && ((forall c | c in end.sessions.tokens && end.sessions.tokens[c].amr.Mfa? :: FreshWithin(end, c, window)) <==>
                (forall c | c in end.sessions.tokens && end.sessions.tokens[c].amr.Mfa? :: NotAfterItsCode(end, c)))
  {
    CodesAndChallengesOnce(s, es);
    var end := Run(s, es);
    forall c | c in end.sessions.tokens && end.sessions.tokens[c].amr.Mfa?
      ensures FreshWithin(end, c, window) <==> NotAfterItsCode(end, c)
    {
      var t := end.sessions.tokens[c];
      assert MfaIsFresh(t.amr, t.mfaAt, t.mfaAt.value * 1000 + window, window);
    }
  }

  /** A request that waits between its code and its session opens one that is fresh for too long. */
  lemma SlowRequestOutlivesTheWindow()
    ensures var es := [Submit("r", StepUp, "ana", 0), ReadUser("r", Some(7), true), Claim("r", 0),
                       Issue("r", "t", 30_000, 30_000, 900_000)];
            var end := Run(State(map[], map[], map[], [], [], map[], S.State(map[], map[])), es);
            && end.accepted == [Accepted("ana", 7, 0)] && "t" in end.sessions.tokens
            && MfaIsFresh(end.sessions.tokens["t"].amr, end.sessions.tokens["t"].mfaAt, 330_000, 300_000)
  {
    var s0 := State(map[], map[], map[], [], [], map[], S.State(map[], map[]));
    var es := [Submit("r", StepUp, "ana", 0), ReadUser("r", Some(7), true), Claim("r", 0),
               Issue("r", "t", 30_000, 30_000, 900_000)];
    RunOfFour(s0, es);
    assert Apply(s0, es[0]).requests == map["r" := Reading(StepUp, "ana")];
  }

  lemma RunOfFour(s: State, es: seq<Event>)
    requires |es| == 4
    ensures Run(s, es) == Apply(Apply(Apply(Apply(s, es[0]), es[1]), es[2]), es[3])
  {
    var s1 := Apply(s, es[0]);
    var s2 := Apply(s1, es[1]);
    assert Run(s, es) == Run(s1, es[1..]);
    assert Run(s1, es[1..]) == Run(s2, es[1..][1..]);
    assert es[1..][1..] == es[2..];
    assert Run(s2, es[2..]) == Run(Apply(s2, es[2]), es[2..][1..]);
    assert es[2..][1..] == [es[3]];
    assert Run(Apply(s2, es[2]), [es[3]]) == Run(Apply(Apply(s2, es[2]), es[3]), [es[3]][1..]);
  }

  // ── Handlers over the shared tables ───────────────────────────────────────

  /**
   * A session opened with a code at `clock` (in milliseconds) is fresh from the start, and for the
   * window less the second its `mfaAt` is rounded down by; it is never fresh once the window is over.
   */
  lemma FreshForTheWindow(clock: int, now: int, window: int)
    ensures clock - 60_000 <= now <= clock + window - 999 ==> MfaIsFresh(S.Mfa, Some(clock / 1000), now, window)
    ensures MfaIsFresh(S.Mfa, Some(clock / 1000), now, window) ==> clock - 60_999 <= now <= clock + window
    ensures !MfaIsFresh(S.Pwd, Some(clock / 1000), now, window) && !MfaIsFresh(S.Mfa, None, now, window)
  {
  }

  // ── Sessions and challenges over a run ────────────────────────────────────

  /**
   * What a step does to the sessions, in their own terms: a request that holds an accepted code signs
   * its user in with a second factor, and nothing else does; every other event of theirs passes.
   */
  function Seen(s: State, e: Event): seq<S.Event> {
    match e
    case Session(event) => if event.SignIn? && event.amr == S.Mfa then [] else [event]
    case Issue(request, token, _, clock, expiresAt) =>
      if request in s.requests && s.requests[request].Issuing?
      then [S.SignIn(token, s.requests[request].user, S.Mfa, Some(clock / 1000), expiresAt)] else []
    case _ => []
  }

  function AllSeen(s: State, es: seq<Event>): seq<S.Event>
    decreases |es|
  {
    if es == [] then [] else Seen(s, es[0]) + AllSeen(Apply(s, es[0]), es[1..])
  }

  lemma SeenIsApplied(s: State, e: Event)
    ensures Apply(s, e).sessions == S.Run(s.sessions, Seen(s, e))
  {
    var seen := Seen(s, e);
    if seen != [] {
      assert seen[1..] == [];
      assert S.Run(s.sessions, seen) == S.Run(S.Apply(s.sessions, seen[0]), []);
    }
  }

  /** The sessions of any run are those of a run of `Sessions`, so that all that holds there holds here. */
  lemma {:induction false} SessionsAreARun(s: State, es: seq<Event>)
    ensures Run(s, es).sessions == S.Run(s.sessions, AllSeen(s, es))
    decreases |es|
  {
    if es != [] {
      SeenIsApplied(s, es[0]);
      SessionsAreARun(Apply(s, es[0]), es[1..]);
      S.RunOfParts(s.sessions, Seen(s, es[0]), AllSeen(Apply(s, es[0]), es[1..]));
    }
  }

  lemma StepKeepsChallenge(s: State, e: Event, id: ChallengeId)
    requires id in s.challenges && (s.challenges[id].consumed <==> id in s.redeemed)
    ensures var t := Apply(s, e);
            && id in t.challenges && t.challenges[id].(consumed := false) == s.challenges[id].(consumed := false)
            && (t.challenges[id].consumed <==> id in t.redeemed)
  {
  }

  lemma {:induction false} ChallengeStays(s: State, es: seq<Event>, id: ChallengeId)
    requires id in s.challenges && (s.challenges[id].consumed <==> id in s.redeemed)
    ensures var t := Run(s, es);
            && id in t.challenges && t.challenges[id].(consumed := false) == s.challenges[id].(consumed := false)
            && (t.challenges[id].consumed <==> id in t.redeemed)
    decreases |es|
  {
    if es != [] {
      StepKeepsChallenge(s, es[0], id);
      ChallengeStays(Apply(s, es[0]), es[1..], id);
    }
  }

  /** A challenge issued keeps its user and its expiry, and is used up exactly when it has been redeemed. */
  lemma ChallengeOpenUntilRedeemed(s: State, id: ChallengeId, user: UserId, expiresAt: int, es: seq<Event>)
    requires id !in s.challenges && id !in s.redeemed
    ensures var t := Run(Apply(s, IssueChallenge(id, user, expiresAt)), es);
            id in t.challenges && t.challenges[id] == Challenge(user, id in t.redeemed, expiresAt)
  {
    ChallengeStays(Apply(s, IssueChallenge(id, user, expiresAt)), es, id);
  }

  datatype Outcome = OK | INVALID | REPLAY

  /** A step the code matches, after the last one the handler knows of. */
  predicate Usable(matched: Option<int>, last: Option<int>) {
    matched.Some? && (last.Some? ==> last.value < matched.value)
  }

  /** The statements of the challenge handler, in order. */
  function VerifyStatements(request: RequestId, challenge: ChallengeId, user: UserId, clock: int, permitted: bool,
                            matched: Option<int>, token: TokenId, at: int, expiresAt: int): seq<Event>
  {
    [Submit(request, SignInWith(challenge), user, clock), ReadUser(request, matched, permitted), Claim(request, at),
     Redeem(request), Issue(request, token, at, clock, expiresAt)]
  }

  class Tables {
    var lastStep: map<UserId, int>
    var challenges: map<ChallengeId, Challenge>
    var sessions: S.State
    ghost var requests: map<RequestId, Stage>
    ghost var accepted: seq<Accepted>
    ghost var redeemed: seq<ChallengeId>
    ghost var grants: map<TokenId, Grant>

    ghost function View(): State
      reads this
    {
      State(lastStep, challenges, requests, accepted, redeemed, grants, sessions)
    }

    /**
     * Check a code against the snapshot `last`, then claim its step with one conditional update.
     * `lastStep` may have moved on since the snapshot was read. `matched` and `plain` are the steps
     * the code belongs to, with and without the replay cut-off.
     */
    method AcceptTotp(user: UserId, last: Option<int>, matched: Option<int>, plain: Option<int>, ghost at: int)
      returns (outcome: Outcome)
      modifies this`lastStep, this`accepted
      ensures outcome.OK? <==>
              && matched.Some? && (last.Some? ==> last.value < matched.value)
              && (user in old(lastStep) ==> old(lastStep)[user] < matched.value)
      ensures outcome.OK? ==> lastStep == old(lastStep)[user := matched.value]
                              && accepted == old(accepted) + [Accepted(user, matched.value, at)]
      ensures !outcome.OK? ==> lastStep == old(lastStep) && accepted == old(accepted)
      ensures outcome.INVALID? <==>
              && (matched.None? || (last.Some? && matched.value <= last.value)) && (last.None? || plain.None?)
    {
      if !Usable(matched, last) {
        return if last.Some? && plain.Some? then REPLAY else INVALID;
      }
      if Later(lastStep, user, matched.value) {
        lastStep := lastStep[user := matched.value];
        accepted := accepted + [Accepted(user, matched.value, at)];
        return OK;
      }
      return REPLAY;
    }

    /** The challenge handler run on its own: the same statements, with nothing in between. */
    method VerifyMfa(ghost request: RequestId, challenge: ChallengeId, user: UserId, clock: int, permitted: bool,
                     matched: Option<int>, plain: Option<int>, token: TokenId, ghost at: int, expiresAt: int)
      returns (ok: bool)
      requires request !in requests && token !in sessions.tokens
      modifies this
      ensures View() == Run(old(View()), VerifyStatements(request, challenge, user, clock, permitted, matched, token, at, expiresAt))
      ensures ok <==>
              && challenge in old(challenges) && old(challenges)[challenge].user == user
              && !old(challenges)[challenge].consumed && clock < old(challenges)[challenge].expiresAt
              && permitted && matched.Some? && (user in old(lastStep) ==> old(lastStep)[user] < matched.value)
      ensures ok ==> challenges == old(challenges)[challenge := old(challenges)[challenge].(consumed := true)]
                     && lastStep == old(lastStep)[user := matched.value]
                     && sessions == S.State(
                          old(sessions).tokens[token := S.Token(user, false, expiresAt, S.Mfa, Some(clock / 1000), token, None)],
                          old(sessions).requests)
      ensures !ok ==> View() == old(View())
    {
      VerifyRun(View(), VerifyStatements(request, challenge, user, clock, permitted, matched, token, at, expiresAt));
      OpensAs(sessions, token, user, clock, expiresAt);
      if !Open(challenges, challenge, user, clock) || !permitted {
        return false;
      }
      var last := if user in lastStep then Some(lastStep[user]) else None;
      var outcome := AcceptTotp(user, last, matched, plain, at);
      if !outcome.OK? {
        return false;
      }
      challenges := challenges[challenge := challenges[challenge].(consumed := true)];
      redeemed := redeemed + [challenge];
      grants := grants[token := Grant(|accepted| - 1, at, clock)];
      sessions := S.Apply(sessions, S.SignIn(token, user, S.Mfa, Some(Seconds(clock)), expiresAt));
      ok := true;
    }
  }

  lemma OpensAs(s: S.State, token: TokenId, user: UserId, clock: int, expiresAt: int)
    requires token !in s.tokens
    ensures S.Apply(s, S.SignIn(token, user, S.Mfa, Some(Seconds(clock)), expiresAt)) ==
            S.State(s.tokens[token := S.Token(user, false, expiresAt, S.Mfa, Some(clock / 1000), token, None)], s.requests)
  {
  }

  /** The five statements of a challenge handler with nothing in between. */
  lemma VerifyRun(s: State, es: seq<Event>)
    requires |es| == 5 && es[0].Submit? && es[0].purpose.SignInWith? && es[0].request !in s.requests
    requires es[1].ReadUser? && es[2].Claim? && es[3].Redeem? && es[4].Issue? && es[4].token !in s.sessions.tokens
    requires es[1].request == es[2].request == es[3].request == es[4].request == es[0].request
    ensures var user, id, matched := es[0].user, es[0].purpose.challenge, es[1].matched;
            if Open(s.challenges, id, user, es[0].clock) && es[1].permitted && matched.Some? && Later(s.lastStep, user, matched.value)
            then Run(s, es) == State(s.lastStep[user := matched.value],
                                     s.challenges[id := s.challenges[id].(consumed := true)], s.requests,
                                     s.accepted + [Accepted(user, matched.value, es[2].at)], s.redeemed + [id],
                                     s.grants[es[4].token := Grant(|s.accepted|, es[4].at, es[4].clock)],
                                     S.Apply(s.sessions, S.SignIn(es[4].token, user, S.Mfa, Some(Seconds(es[4].clock)), es[4].expiresAt)))
            else Run(s, es) == s
  {
    var read := Apply(s, es[0]);
    RunOfFour(read, es[1..]);
    var r := es[0].request;
    assert (s.requests[r := Reading(es[0].purpose, es[0].user)]) - {r} == s.requests;
    if Open(s.challenges, es[0].purpose.challenge, es[0].user, es[0].clock) {
      var claiming := Apply(read, es[1]);
      if r in claiming.requests {
        var redeeming := Apply(claiming, es[2]);
        assert redeeming.requests[r] == Redeeming(es[0].purpose.challenge, es[0].user, |s.accepted|);
        var issuing := Apply(redeeming, es[3]);
        assert issuing.requests[r] == Issuing(es[0].user, |s.accepted|);
      }
    }
  }
}
