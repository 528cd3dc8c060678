/**
 * Refresh-token rotation with reuse detection (section 10.4 of RFC 6749). Every database statement
 * is one step; requests on any number of API instances interleave freely between steps.
 */
module Sessions {
  import opened Wrappers

  type UserId = string
  type TokenId = string
  type RequestId = string

  datatype Amr = Pwd | Mfa

  /**
   * A refresh token. `amr` and `mfaAt` are claims of the signed token. `root` and `parent` are
   * history: the sign-in a token descends from and the token it was rotated from.
   */
  datatype Token = Token(
    user: UserId, revoked: bool, expiresAt: int, amr: Amr, mfaAt: Option<int>,
    root: TokenId, parent: Option<TokenId>)

  /** What a request has decided to do next. */
  datatype Stage = Revoking(user: UserId) | Retiring(token: TokenId) | Rotating(token: TokenId)

  datatype State = State(tokens: map<TokenId, Token>, requests: map<RequestId, Stage>)

  datatype Event =
    | SignIn(id: TokenId, user: UserId, amr: Amr, mfaAt: Option<int>, expiresAt: int)
    | Present(request: RequestId, token: TokenId, now: int, intact: bool, admitted: bool)
    | RevokeStatement(request: RequestId)
    | RetireStatement(request: RequestId)
    | RotateTransaction(request: RequestId, child: TokenId, expiresAt: int, commits: bool)
    | Logout(token: TokenId, intact: bool)
    | RevokeAll(user: UserId)

  function Revoked(t: Token): Token {
    t.(revoked := true)
  }

  /** UPDATE ... SET revokedAt WHERE userId AND revokedAt IS NULL */
  function RevokeUser(tokens: map<TokenId, Token>, u: UserId): map<TokenId, Token> {
    map id | id in tokens :: if tokens[id].user == u then Revoked(tokens[id]) else tokens[id]
  }

  function RevokeOne(tokens: map<TokenId, Token>, id: TokenId): map<TokenId, Token> {
    if id in tokens then tokens[id := Revoked(tokens[id])] else tokens
  }

  function Child(t: Token, parent: TokenId, expiresAt: int): Token {
    Token(t.user, false, expiresAt, t.amr, t.mfaAt, t.root, Some(parent))
  }

  /** What reading the presented token's record leads to. `now` is read by the same instance. */
  function NextStage(tokens: map<TokenId, Token>, e: Event): Option<Stage>
    requires e.Present?
  {
    if e.token !in tokens then None
    else
      var t := tokens[e.token];
      if t.revoked then Some(Revoking(t.user))
      else if t.expiresAt <= e.now then Some(Retiring(e.token))
      else if !e.intact || !e.admitted then Some(Revoking(t.user))
      else Some(Rotating(e.token))
  }

  /** The rotation transaction mints a token: it commits and finds the old one unrevoked. */
  predicate Mints(s: State, e: Event) {
    && e.RotateTransaction? && e.commits
    && e.request in s.requests && s.requests[e.request].Rotating?
    && e.child !in s.tokens
    && s.requests[e.request].token in s.tokens && !s.tokens[s.requests[e.request].token].revoked
  }

  function Apply(s: State, e: Event): State {
    match e
    case SignIn(id, u, amr, mfaAt, expiresAt) =>
      if id in s.tokens then s
      else s.(tokens := s.tokens[id := Token(u, false, expiresAt, amr, mfaAt, id, None)])
    case Present(request, _, _, _, _) =>
      if request in s.requests then s
      else (match NextStage(s.tokens, e)
            case None => s
            case Some(stage) => s.(requests := s.requests[request := stage]))
    case RevokeStatement(request) =>
      if request in s.requests && s.requests[request].Revoking? then
        State(RevokeUser(s.tokens, s.requests[request].user), s.requests - {request})
      else s
    case RetireStatement(request) =>
      if request in s.requests && s.requests[request].Retiring? then
        State(RevokeOne(s.tokens, s.requests[request].token), s.requests - {request})
      else s
    case RotateTransaction(request, child, expiresAt, _) =>
      if request in s.requests && s.requests[request].Rotating? then
        var spent := s.requests[request].token;
        State(if Mints(s, e) then s.tokens[spent := Revoked(s.tokens[spent])][child := Child(s.tokens[spent], spent, expiresAt)]
              else s.tokens,
              s.requests - {request})
      else s
    case Logout(token, intact) => if intact then s.(tokens := RevokeOne(s.tokens, token)) else s
    case RevokeAll(u) => s.(tokens := RevokeUser(s.tokens, u))
  }

  function Run(s: State, es: seq<Event>): State
    decreases |es|
  {
    if es == [] then s else Run(Apply(s, es[0]), es[1..])
  }

  // ── The invariant ─────────────────────────────────────────────────────────

  predicate SameClaims(a: Token, b: Token) {
    a.user == b.user && a.amr == b.amr && a.mfaAt == b.mfaAt
  }

  /** A rotated token continues its parent's chain, with the claims of the sign-in, and the parent is spent. */
  predicate Rooted(tokens: map<TokenId, Token>, c: TokenId)
    requires c in tokens
  {
    var t := tokens[c];
    && t.root in tokens && SameClaims(t, tokens[t.root])
    && match t.parent
       case None => t.root == c
       case Some(p) => p in tokens && tokens[p].revoked && tokens[p].root == t.root
  }

  ghost predicate WellRooted(tokens: map<TokenId, Token>) {
    forall c {:trigger Rooted(tokens, c)} :: c in tokens ==> Rooted(tokens, c)
  }

  ghost predicate OneSuccessor(tokens: map<TokenId, Token>) {
    forall a, b | a in tokens && b in tokens && tokens[a].parent.Some? :: tokens[a].parent == tokens[b].parent ==> a == b
  }

  ghost predicate OneLivePerSignIn(tokens: map<TokenId, Token>) {
    forall a, b | a in tokens && b in tokens && !tokens[a].revoked && !tokens[b].revoked ::
      tokens[a].root == tokens[b].root ==> a == b
  }

  ghost predicate Inv(s: State) {
    WellRooted(s.tokens) && OneSuccessor(s.tokens) && OneLivePerSignIn(s.tokens)
  }

  /** Revoking tokens, and nothing else, happened to them. */
  ghost predicate OnlyRevokes(before: map<TokenId, Token>, after: map<TokenId, Token>) {
    && before.Keys == after.Keys
    && forall id | id in before :: after[id] == before[id] || after[id] == Revoked(before[id])
  }

  lemma RevokingKeepsInv(before: map<TokenId, Token>, after: map<TokenId, Token>)
    requires OnlyRevokes(before, after)
    ensures WellRooted(before) ==> WellRooted(after)
    ensures OneSuccessor(before) ==> OneSuccessor(after)
    ensures OneLivePerSignIn(before) ==> OneLivePerSignIn(after)
  {
    if WellRooted(before) {
      forall c | c in after
        ensures Rooted(after, c)
      {
        assert Rooted(before, c);
      }
    }
  }

  lemma AddKeepsInv(tokens: map<TokenId, Token>, id: TokenId, t: Token)
    requires WellRooted(tokens) && OneSuccessor(tokens) && OneLivePerSignIn(tokens)
    requires id !in tokens && Rooted(tokens[id := t], id)
    requires t.parent.Some? ==> forall c | c in tokens :: tokens[c].parent != t.parent
    requires forall c | c in tokens && !tokens[c].revoked :: tokens[c].root != t.root
    ensures WellRooted(tokens[id := t]) && OneSuccessor(tokens[id := t]) && OneLivePerSignIn(tokens[id := t])
  {
    var more := tokens[id := t];
    forall c | c in more
      ensures Rooted(more, c)
    {
      if c != id {
        assert Rooted(tokens, c);
      }
    }
  }

  lemma SignInKeepsInv(s: State, e: Event)
    requires Inv(s) && e.SignIn?
    ensures Inv(Apply(s, e))
  {
    if e.id !in s.tokens {
      forall c | c in s.tokens
        ensures s.tokens[c].root != e.id
      {
        assert Rooted(s.tokens, c);
      }
      AddKeepsInv(s.tokens, e.id, Token(e.user, false, e.expiresAt, e.amr, e.mfaAt, e.id, None));
    }
  }

  lemma RotationKeepsInv(s: State, e: Event)
    requires Inv(s) && Mints(s, e)
    ensures Inv(Apply(s, e))
  {
    var spent := s.requests[e.request].token;
    var retired := s.tokens[spent := Revoked(s.tokens[spent])];
    RevokingKeepsInv(s.tokens, retired);
    forall c | c in retired
      ensures retired[c].parent != Some(spent)
      ensures !retired[c].revoked ==> retired[c].root != s.tokens[spent].root
    {
      assert Rooted(s.tokens, c);
    }
    assert Rooted(s.tokens, spent);
    assert Rooted(retired, spent);
    AddKeepsInv(retired, e.child, Child(s.tokens[spent], spent, e.expiresAt));
  }

  lemma StepKeepsInv(s: State, e: Event)
    requires Inv(s)
    ensures Inv(Apply(s, e))
  {
    match e
    case SignIn(_, _, _, _, _) => SignInKeepsInv(s, e);
    case RotateTransaction(_, _, _, _) =>
      if Mints(s, e) {
        RotationKeepsInv(s, e);
      } else {
        RevokingKeepsInv(s.tokens, Apply(s, e).tokens);
      }
    case _ => RevokingKeepsInv(s.tokens, Apply(s, e).tokens);
  }

  /**
   * Rotation under every interleaving: each token has at most one successor, and of the tokens
   * that descend from one sign-in at most one is unrevoked, with the claims of that sign-in.
   */
  lemma {:induction false} RunKeepsInv(s: State, es: seq<Event>)
    requires Inv(s)
    ensures Inv(Run(s, es))
    decreases |es|
  {
    if es != [] {
      StepKeepsInv(s, es[0]);
      RunKeepsInv(Apply(s, es[0]), es[1..]);
    }
  }

  /**
   * From an empty table, whatever refreshes, sign-outs, revocations and replays interleave: two tokens
   * with one parent are one token, two live tokens of one sign-in are one token, and every token has
   * the user, the strength and the second-factor time of the sign-in it descends from.
   */
  lemma RotationIsSafe(s: State, es: seq<Event>, a: TokenId, b: TokenId)
    requires s.tokens == map[] && a in Run(s, es).tokens && b in Run(s, es).tokens
    ensures var t := Run(s, es).tokens;
            && (t[a].parent.Some? && t[a].parent == t[b].parent ==> a == b)
            && (t[a].root == t[b].root && !t[a].revoked && !t[b].revoked ==> a == b)
            && t[a].root in t && t[t[a].root].parent.None? && SameClaims(t[a], t[t[a].root])
  {
    RunKeepsInv(s, es);
    var t := Run(s, es).tokens;
    assert Rooted(t, a);
    RootIsASignIn(s, es, a);
  }

  predicate FromSignIn(tokens: map<TokenId, Token>, c: TokenId)
    requires c in tokens
  {
    tokens[c].root in tokens && tokens[tokens[c].root].parent.None?
  }

  ghost predicate RootsAreSignIns(tokens: map<TokenId, Token>) {
    forall c {:trigger FromSignIn(tokens, c)} :: c in tokens ==> FromSignIn(tokens, c)
  }

  lemma RevokingKeepsRoots(before: map<TokenId, Token>, after: map<TokenId, Token>)
    requires OnlyRevokes(before, after) && RootsAreSignIns(before)
    ensures RootsAreSignIns(after)
  {
    forall c | c in after
      ensures FromSignIn(after, c)
    {
      assert FromSignIn(before, c);
    }
  }

  lemma RotationKeepsRoots(s: State, e: Event)
    requires RootsAreSignIns(s.tokens) && Mints(s, e)
    ensures RootsAreSignIns(Apply(s, e).tokens)
  {
    var spent := s.requests[e.request].token;
    var retired := s.tokens[spent := Revoked(s.tokens[spent])];
    RevokingKeepsRoots(s.tokens, retired);
    var after := retired[e.child := Child(s.tokens[spent], spent, e.expiresAt)];
    forall c | c in after
      ensures FromSignIn(after, c)
    {
      assert FromSignIn(retired, if c == e.child then spent else c);
    }
  }

  lemma SignInKeepsRoots(s: State, e: Event)
    requires RootsAreSignIns(s.tokens) && e.SignIn?
    ensures RootsAreSignIns(Apply(s, e).tokens)
  {
    var after := Apply(s, e).tokens;
    forall c | c in after
      ensures FromSignIn(after, c)
    {
      if c in s.tokens {
        assert FromSignIn(s.tokens, c);
      }
    }
  }

  lemma StepKeepsRoots(s: State, e: Event)
    requires RootsAreSignIns(s.tokens)
    ensures RootsAreSignIns(Apply(s, e).tokens)
  {
    if e.SignIn? {
      SignInKeepsRoots(s, e);
    } else if e.RotateTransaction? && Mints(s, e) {
      RotationKeepsRoots(s, e);
    } else {
      RevokingKeepsRoots(s.tokens, Apply(s, e).tokens);
    }
  }

  lemma {:induction false} RootIsASignIn(s: State, es: seq<Event>, a: TokenId)
    requires RootsAreSignIns(s.tokens) && a in Run(s, es).tokens
    ensures FromSignIn(Run(s, es).tokens, a)
    decreases |es|
  {
    if es == [] {
      assert FromSignIn(s.tokens, a);
    } else {
      StepKeepsRoots(s, es[0]);
      RootIsASignIn(Apply(s, es[0]), es[1..], a);
    }
  }

  // ── Races and reuse ───────────────────────────────────────────────────────

  /** A token once revoked stays, and stays revoked. */
  lemma {:induction false} RevokedForGood(s: State, es: seq<Event>, id: TokenId)
    requires id in s.tokens && s.tokens[id].revoked
    ensures id in Run(s, es).tokens && Run(s, es).tokens[id].revoked
    decreases |es|
  {
    if es != [] {
      RevokedForGood(Apply(s, es[0]), es[1..], id);
    }
  }

  /**
   * The loser of a race mints nothing: once a rotation of a token has committed, whatever happens
   * in between, no other request's rotation of that token changes any token.
   */
  lemma LoserMintsNothing(s: State, winner: Event, between: seq<Event>, loser: Event)
    requires Mints(s, winner)
    requires var late := Run(Apply(s, winner), between);
             && loser.RotateTransaction? && loser.request in late.requests
             && late.requests[loser.request] == s.requests[winner.request]
    ensures var late := Run(Apply(s, winner), between);
            Apply(late, loser).tokens == late.tokens
  {
    RevokedForGood(Apply(s, winner), between, s.requests[winner.request].token);
  }

  ghost predicate NoneLive(s: State, u: UserId) {
    forall id | id in s.tokens && s.tokens[id].user == u :: s.tokens[id].revoked
  }

  /** Without a sign-in, nothing a user's requests do brings a token back to life. */
  lemma {:induction false} StaysSignedOut(s: State, es: seq<Event>, u: UserId)
    requires NoneLive(s, u)
    requires forall i | 0 <= i < |es| :: es[i].SignIn? ==> es[i].user != u
    ensures NoneLive(Run(s, es), u)
    decreases |es|
  {
    if es != [] {
      StaysSignedOut(Apply(s, es[0]), es[1..], u);
    }
  }

  function RequestOf(e: Event): Option<RequestId> {
    match e
    case Present(r, _, _, _, _) => Some(r)
    case RevokeStatement(r) => Some(r)
    case RetireStatement(r) => Some(r)
    case RotateTransaction(r, _, _, _) => Some(r)
    case _ => None
  }

  lemma {:induction false} StageWaits(s: State, es: seq<Event>, request: RequestId)
    requires request in s.requests
    requires forall i | 0 <= i < |es| :: RequestOf(es[i]) != Some(request)
    ensures request in Run(s, es).requests && Run(s, es).requests[request] == s.requests[request]
    decreases |es|
  {
    if es != [] {
      StageWaits(Apply(s, es[0]), es[1..], request);
    }
  }

  /**
   * Presenting a token already recorded as revoked leaves its user with no live token, and it stays
   * so, through rotations in flight and anything else, until the user signs in again.
   */
  lemma ReuseEndsEverySession(s: State, presented: Event, between: seq<Event>, later: seq<Event>)
    requires presented.Present? && presented.request !in s.requests
    requires presented.token in s.tokens && s.tokens[presented.token].revoked
    requires forall i | 0 <= i < |between| :: RequestOf(between[i]) != Some(presented.request)
    requires forall i | 0 <= i < |later| :: later[i].SignIn? ==> later[i].user != s.tokens[presented.token].user
    ensures var waiting := Run(Apply(s, presented), between);
            var ended := Apply(waiting, RevokeStatement(presented.request));
            NoneLive(Run(ended, later), s.tokens[presented.token].user)
  {
    StageWaits(Apply(s, presented), between, presented.request);
    var waiting := Run(Apply(s, presented), between);
    StaysSignedOut(Apply(waiting, RevokeStatement(presented.request)), later, s.tokens[presented.token].user);
  }

  // ── When a token is made, spent and ended ─────────────────────────────────

  /** A token that may be rotated, as the reading of its record finds it. */
  predicate Usable(s: State, presented: Event)
    requires presented.Present?
  {
    && presented.token in s.tokens && !s.tokens[presented.token].revoked
    && s.tokens[presented.token].expiresAt > presented.now && presented.intact && presented.admitted
  }

  /**
   * Exactly when a rotation mints, and what: the token was there, unrevoked, unexpired, intact and
   * admitted when its request presented it, and is still unrevoked when the transaction commits.
   */
  lemma RotatesExactly(s: State, presented: Event, between: seq<Event>, e: Event)
    requires presented.Present? && presented.request !in s.requests
    requires e.RotateTransaction? && e.request == presented.request
    requires forall i | 0 <= i < |between| :: RequestOf(between[i]) != Some(presented.request)
    ensures var late := Run(Apply(s, presented), between);
            var p := presented.token;
            Apply(late, e).tokens ==
            if Usable(s, presented) && e.commits && e.child !in late.tokens && p in late.tokens && !late.tokens[p].revoked
            then late.tokens[p := late.tokens[p].(revoked := true)]
                            [e.child := late.tokens[p].(expiresAt := e.expiresAt, parent := Some(p))]
            else late.tokens
  {
    if presented.request in Apply(s, presented).requests {
      StageWaits(Apply(s, presented), between, presented.request);
    } else {
      NeverStarts(Apply(s, presented), between, presented.request);
    }
  }

  lemma {:induction false} NeverStarts(s: State, es: seq<Event>, request: RequestId)
    requires request !in s.requests
    requires forall i | 0 <= i < |es| :: RequestOf(es[i]) != Some(request)
    ensures request !in Run(s, es).requests
    decreases |es|
  {
    if es != [] {
      NeverStarts(Apply(s, es[0]), es[1..], request);
    }
  }

  lemma {:induction false} RunOfParts(s: State, a: seq<Event>, b: seq<Event>)
    ensures Run(s, a + b) == Run(Run(s, a), b)
    decreases |a|
  {
    if a == [] {
      assert a + b == b;
    } else {
      assert (a + b)[0] == a[0] && (a + b)[1..] == a[1..] + b;
      RunOfParts(Apply(s, a[0]), a[1..], b);
    }
  }

  lemma RunOfSnoc(s: State, es: seq<Event>)
    requires es != []
    ensures Run(s, es) == Apply(Run(s, es[..|es| - 1]), es[|es| - 1])
  {
    var front, last := es[..|es| - 1], [es[|es| - 1]];
    assert es == front + last && last[1..] == [];
    RunOfParts(s, front, last);
    assert Run(Run(s, front), last) == Run(Apply(Run(s, front), last[0]), []);
  }

  /** Step `i` of the run is the reading that let `request` rotate `token`. */
  predicate Admits(s: State, es: seq<Event>, i: nat, request: RequestId, token: TokenId)
    requires i < |es|
  {
    es[i].Present? && es[i].request == request && es[i].token == token && Usable(Run(s, es[..i]), es[i])
  }

  lemma {:induction false} RotatingWasAdmitted(s: State, es: seq<Event>, request: RequestId) returns (i: nat)
    requires s.requests == map[]
    requires request in Run(s, es).requests && Run(s, es).requests[request].Rotating?
    ensures i < |es| && Admits(s, es, i, request, Run(s, es).requests[request].token)
    decreases |es|
  {
    var n := |es| - 1;
    assert es != [];
    RunOfSnoc(s, es);
    var before := Run(s, es[..n]);
    if request in before.requests && before.requests[request] == Run(s, es).requests[request] {
      i := RotatingWasAdmitted(s, es[..n], request);
      assert es[..n][..i] == es[..i];
    } else {
      i := n;
    }
  }

  /**
   * Every token that a rotation makes, in any run, replaces one that was unrevoked, unexpired, intact
   * and admitted when the rotating request presented it.
   */
  lemma MintsOnlyForUsable(s: State, es: seq<Event>, e: Event) returns (i: nat)
    requires s.requests == map[] && e.RotateTransaction? && Apply(Run(s, es), e).tokens != Run(s, es).tokens
    ensures var before, after := Run(s, es).tokens, Apply(Run(s, es), e).tokens;
            && e.child !in before && e.child in after && after[e.child].parent.Some?
            && i < |es| && Admits(s, es, i, e.request, after[e.child].parent.value)
  {
    i := RotatingWasAdmitted(s, es, e.request);
  }

  /** What ends token `id`: its own sign-out, its user's revocation, its expiry found out, or its rotation. */
  predicate Ends(s: State, e: Event, id: TokenId)
    requires id in s.tokens
  {
    match e
    case Logout(token, intact) => intact && token == id
    case RevokeAll(u) => u == s.tokens[id].user
    case RevokeStatement(r) => r in s.requests && s.requests[r] == Revoking(s.tokens[id].user)
    case RetireStatement(r) => r in s.requests && s.requests[r] == Retiring(id)
    case RotateTransaction(r, child, _, commits) =>
      r in s.requests && s.requests[r] == Rotating(id) && commits && child !in s.tokens
    case _ => false
  }

  /** A sign-in is live, with its own claims, for as long as nothing ends it, and no longer. */
  lemma {:induction false} LiveExactlyUntilEnded(s: State, signIn: Event, es: seq<Event>)
    requires signIn.SignIn? && signIn.id !in s.tokens
    ensures signIn.id in Run(Apply(s, signIn), es).tokens
    ensures var t := Run(Apply(s, signIn), es).tokens[signIn.id];
            && t.user == signIn.user && t.expiresAt == signIn.expiresAt && t.amr == signIn.amr && t.mfaAt == signIn.mfaAt
            && t.root == signIn.id && t.parent.None?
            && (!t.revoked <==> NothingEnds(Apply(s, signIn), es, signIn.id))
  {
    UnrevokedUntilEnded(Apply(s, signIn), es, signIn.id);
  }

  /** No step of the run ends `id`. */
  predicate NothingEnds(s: State, es: seq<Event>, id: TokenId)
    decreases |es|
  {
    es == [] || (id in s.tokens && !Ends(s, es[0], id) && NothingEnds(Apply(s, es[0]), es[1..], id))
  }

  lemma StepEndsExactly(s: State, e: Event, id: TokenId)
    requires id in s.tokens
    ensures id in Apply(s, e).tokens && Apply(s, e).tokens[id] in {s.tokens[id], Revoked(s.tokens[id])}
    ensures !s.tokens[id].revoked ==> (Apply(s, e).tokens[id].revoked <==> Ends(s, e, id))
  {
  }

  lemma {:induction false} UnrevokedUntilEnded(s: State, es: seq<Event>, id: TokenId)
    requires id in s.tokens
    ensures id in Run(s, es).tokens && Run(s, es).tokens[id] in {s.tokens[id], Revoked(s.tokens[id])}
    ensures !s.tokens[id].revoked ==> (!Run(s, es).tokens[id].revoked <==> NothingEnds(s, es, id))
    decreases |es|
  {
    if es != [] {
      StepEndsExactly(s, es[0], id);
      UnrevokedUntilEnded(Apply(s, es[0]), es[1..], id);
      if Apply(s, es[0]).tokens[id].revoked {
        RevokedForGood(Apply(s, es[0]), es[1..], id);
      }
    }
  }

  // ── One instance's handlers over the shared tables ────────────────────────

  datatype Refusal = UnknownToken | ReuseDetected | Expired | NotAdmitted | LostRace

  class Tables {
    var tokens: map<TokenId, Token>
    var requests: map<RequestId, Stage>

    ghost function View(): State
      reads this
    {
      State(tokens, requests)
    }

    /** The handler run on its own: the same statements, with nothing in between. */
    method RefreshToken(request: RequestId, token: TokenId, child: TokenId, now: int, expiresAt: int,
                        intact: bool, admitted: bool)
      returns (r: Result<TokenId, Refusal>)
      requires request !in requests
      modifies this
      ensures var present := Present(request, token, now, intact, admitted);
              View() == Run(old(View()), [present, RevokeStatement(request), RetireStatement(request),
                                          RotateTransaction(request, child, expiresAt, true)])
      ensures r == Err(UnknownToken) <==> token !in old(tokens)
      ensures r == Err(ReuseDetected) <==>
              token in old(tokens) && (old(tokens)[token].revoked || (old(tokens)[token].expiresAt > now && !intact))
      ensures r == Err(Expired) <==>
              token in old(tokens) && !old(tokens)[token].revoked && old(tokens)[token].expiresAt <= now
      ensures r == Err(NotAdmitted) <==>
              token in old(tokens) && !old(tokens)[token].revoked && old(tokens)[token].expiresAt > now && intact && !admitted
      ensures r.Ok? <==>
              && token in old(tokens) && !old(tokens)[token].revoked && old(tokens)[token].expiresAt > now
              && intact && admitted && child !in old(tokens)
      ensures r.Ok? ==> r.value == child
                        && tokens == old(tokens)[token := old(tokens)[token].(revoked := true)]
                                     [child := old(tokens)[token].(expiresAt := expiresAt, parent := Some(token))]
      ensures r == Err(Expired) ==> tokens == old(tokens)[token := old(tokens)[token].(revoked := true)]
      ensures r in {Err(ReuseDetected), Err(NotAdmitted)} ==>
              && tokens.Keys == old(tokens).Keys
              && forall id | id in tokens ::
                   tokens[id] == if old(tokens)[id].user == old(tokens)[token].user then old(tokens)[id].(revoked := true)
                                 else old(tokens)[id]
      ensures r in {Err(UnknownToken), Err(LostRace)} ==> tokens == old(tokens)
    {
      ghost var present := Present(request, token, now, intact, admitted);
      ghost var all := [present, RevokeStatement(request), RetireStatement(request),
                        RotateTransaction(request, child, expiresAt, true)];
      RunOfFour(View(), all);
      if token !in tokens {
        return Err(UnknownToken);
      }
      var t := tokens[token];
      if t.revoked || (t.expiresAt > now && (!intact || !admitted)) {
        tokens := RevokeUser(tokens, t.user);
        return Err(if t.revoked || !intact then ReuseDetected else NotAdmitted);
      }
      if t.expiresAt <= now {
        tokens := RevokeOne(tokens, token);
        return Err(Expired);
      }
      if child in tokens {
        return Err(LostRace);
      }
      tokens := tokens[token := Revoked(t)][child := Child(t, token, expiresAt)];
      r := Ok(child);
    }
  }

  lemma RunOfFour(s: State, es: seq<Event>)
    requires |es| == 4
    ensures Run(s, es) == Apply(Apply(Apply(Apply(s, es[0]), es[1]), es[2]), es[3])
  {
    var a := es[1..];
    var b := a[1..];
    var c := b[1..];
    assert a[0] == es[1] && b[0] == es[2] && c[0] == es[3] && c[1..] == [];
    assert Run(s, es) == Run(Apply(s, es[0]), a);
    assert Run(Apply(s, es[0]), a) == Run(Apply(Apply(s, es[0]), es[1]), b);
    var s2 := Apply(Apply(s, es[0]), es[1]);
    assert Run(s2, b) == Run(Apply(s2, es[2]), c);
  }
}
