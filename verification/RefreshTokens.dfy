/**
 Refresh tokens in the auth service: rotation, revocation, and the window between consuming a
 token and storing its successor, which are separate transactions.
 */
module RefreshTokens {
  import opened Common
  import opened Denylists

  /** A stored refresh token, found by the hash of what the client holds. */
  datatype Token = Token(user: string, expires: int, revoked: bool)

  type Tokens = map<string, Token>

  predicate Redeemable(tokens: Tokens, hash: string, now: int) {
    hash in tokens && !tokens[hash].revoked && now < tokens[hash].expires
  }

  function Consumed(tokens: Tokens, hash: string): Tokens
    requires hash in tokens
  {
    tokens[hash := tokens[hash].(revoked := true)]
  }

  function Stored(tokens: Tokens, hash: string, user: string, expires: int): Tokens {
    tokens[hash := Token(user, expires, false)]
  }

  function Spent(tokens: Tokens, hashes: set<string>): (r: Tokens)
    ensures r.Keys == tokens.Keys
  {
    map h | h in tokens :: if h in hashes then tokens[h].(revoked := true) else tokens[h]
  }

  function LiveOf(tokens: Tokens, user: string): set<string> {
    set h | h in tokens && tokens[h].user == user && !tokens[h].revoked
  }

  /** UPDATE ... SET revoked_at WHERE user_id = user AND revoked_at IS NULL. */
  function AllRevoked(tokens: Tokens, user: string): Tokens {
    Spent(tokens, LiveOf(tokens, user))
  }

  // ---- The service

  datatype Response = Granted(refresh: string) | Unauthorized | InternalError | Accepted

  /** What a request answers and leaves behind. */
  datatype Outcome = Outcome(response: Response, tokens: Tokens, outbox: seq<Revocation>)

  function IssueOutcome(tokens: Tokens, user: string, drawn: string, expires: int, available: bool): Outcome {
    if available && drawn !in tokens then Outcome(Granted(drawn), Stored(tokens, drawn, user, expires), [])
    else Outcome(InternalError, tokens, [])
  }

  function LoginOutcome(
      tokens: Tokens, user: Option<string>, passwordMatches: bool, drawn: string, expires: int, available: bool)
    : Outcome
  {
    if user.None? || !passwordMatches then Outcome(Unauthorized, tokens, [])
    else IssueOutcome(tokens, user.value, drawn, expires, available)
  }

  function RefreshOutcome(
      tokens: Tokens, hash: string, now: int, userFound: bool, drawn: string, expires: int, available: bool)
    : Outcome
  {
    if !Redeemable(tokens, hash, now) then Outcome(Unauthorized, tokens, [])
    else if !userFound then Outcome(InternalError, Consumed(tokens, hash), [])
    else IssueOutcome(Consumed(tokens, hash), tokens[hash].user, drawn, expires, available)
  }

  function RevokeOutcome(
      tokens: Tokens, outbox: seq<Revocation>, claims: Option<Claims>, now: int, commits: bool)
    : Outcome
  {
    if claims.None? || claims.value.expires <= now then Outcome(Unauthorized, tokens, outbox)
    else if !commits then Outcome(InternalError, tokens, outbox)
    else Outcome(Accepted, AllRevoked(tokens, claims.value.user), outbox + [RevocationOf(claims.value)])
  }

  // ---- What the handlers answer and leave, field by field

  /** A refresh is refused exactly when its token is unknown, spent or expired. */
  lemma RefreshIsRefusedIff(
      tokens: Tokens, hash: string, now: int, userFound: bool, drawn: string, expires: int, available: bool)
    ensures RefreshOutcome(tokens, hash, now, userFound, drawn, expires, available).response.Unauthorized?
       <==> hash !in tokens || tokens[hash].revoked || tokens[hash].expires <= now
  {
  }

  /** What a refresh that is not refused leaves: the old token spent, perhaps a new one, and nothing else changed. */
  lemma RefreshLeaves(
      tokens: Tokens, hash: string, now: int, userFound: bool, drawn: string, expires: int, available: bool)
    requires hash in tokens && !tokens[hash].revoked && now < tokens[hash].expires
    ensures var r := RefreshOutcome(tokens, hash, now, userFound, drawn, expires, available);
            && (r.response.Granted? <==> userFound && available && drawn !in tokens)
            && (r.response.Granted? ==> r.response.refresh == drawn && r.tokens.Keys == tokens.Keys + {drawn})
            && (r.response.Granted? ==> r.tokens[drawn] == Token(tokens[hash].user, expires, false))
            && (!r.response.Granted? ==> r.response == InternalError && r.tokens.Keys == tokens.Keys)
            && r.tokens[hash] == Token(tokens[hash].user, tokens[hash].expires, true)
            && forall h :: h in tokens && h != hash ==> h in r.tokens && r.tokens[h] == tokens[h]
  {
  }

  /** What a login leaves: a new token for a known user with the right password, or nothing changed. */
  lemma LoginLeaves(
      tokens: Tokens, user: Option<string>, passwordMatches: bool, drawn: string, expires: int, available: bool)
    ensures var r := LoginOutcome(tokens, user, passwordMatches, drawn, expires, available);
            && (r.response.Unauthorized? <==> user.None? || !passwordMatches)
            && (r.response.Granted? <==> user.Some? && passwordMatches && available && drawn !in tokens)
            && (r.response.Granted? ==>
                  r.response.refresh == drawn && r.tokens == tokens[drawn := Token(user.value, expires, false)])
            && (!r.response.Granted? ==> r.tokens == tokens)
  {
  }

  /** What a revocation spends: every token of the user, and no other, and it changes nothing else of them. */
  lemma RevokedMeans(tokens: Tokens, user: string)
    ensures AllRevoked(tokens, user).Keys == tokens.Keys
    ensures forall h :: h in tokens ==>
              && AllRevoked(tokens, user)[h].user == tokens[h].user
              && AllRevoked(tokens, user)[h].expires == tokens[h].expires
              && (AllRevoked(tokens, user)[h].revoked <==> tokens[h].revoked || tokens[h].user == user)
  {
  }

  /** What a revoke request answers and queues. */
  lemma RevokeLeaves(tokens: Tokens, outbox: seq<Revocation>, claims: Option<Claims>, now: int, commits: bool)
    ensures var r := RevokeOutcome(tokens, outbox, claims, now, commits);
            && (r.response.Unauthorized? <==> claims.None? || claims.value.expires <= now)
            && (r.response.Accepted? <==> claims.Some? && now < claims.value.expires && commits)
            && (r.response.Accepted? ==>
                  r.outbox == outbox + [Revocation(claims.value.tokenId, claims.value.user, claims.value.expires)])
            && (!r.response.Accepted? ==> r.tokens == tokens && r.outbox == outbox)
  {
  }

  class AuthService {
    var tokens: Tokens
    var outbox: seq<Revocation>

    /** Redeems the token in one statement: valid means unrevoked and unexpired, and it is revoked on the way out. */
    method ConsumeRefreshToken(hash: string, now: int) returns (user: Option<string>)
      modifies this`tokens
      ensures user.Some? <==> hash in old(tokens) && !old(tokens)[hash].revoked && now < old(tokens)[hash].expires
      ensures user.Some? ==> user.value == old(tokens)[hash].user && tokens == Consumed(old(tokens), hash)
      ensures user.None? ==> tokens == old(tokens)
    {
      if !Redeemable(tokens, hash, now) {
        return None;
      }
      tokens := tokens[hash := tokens[hash].(revoked := true)];
      user := Some(tokens[hash].user);
    }

    /** The hash column is unique, so storing a hash twice fails. */
    method StoreRefreshToken(user: string, hash: string, expires: int, available: bool) returns (ok: bool)
      modifies this`tokens
      ensures ok <==> available && hash !in old(tokens)
      ensures tokens == if ok then Stored(old(tokens), hash, user, expires) else old(tokens)
    {
      ok := available && hash !in tokens;
      if ok {
        tokens := tokens[hash := Token(user, expires, false)];
      }
    }

    /** Revoking the user's refresh tokens and queueing the announcement commit together or not at all. */
    method RevokeAccessToken(tokenId: string, user: string, expires: int, commits: bool) returns (ok: bool)
      modifies this
      ensures ok == commits
      ensures tokens == if commits then AllRevoked(old(tokens), user) else old(tokens)
      ensures outbox == if commits then old(outbox) + [Revocation(tokenId, user, expires)] else old(outbox)
    {
      var savedTokens, savedOutbox := tokens, outbox;
      tokens := map h | h in tokens ::
        if tokens[h].user == user && !tokens[h].revoked then tokens[h].(revoked := true) else tokens[h];
      outbox := outbox + [Revocation(tokenId, user, expires)];
      if !commits {
        tokens, outbox := savedTokens, savedOutbox;
      }
      ok := commits;
    }

    /** `drawn` is the hash of the refresh token just generated. */
    method IssueTokens(user: string, drawn: string, expires: int, available: bool) returns (response: Response)
      modifies this`tokens
      ensures response == (if available && drawn !in old(tokens) then Granted(drawn) else InternalError)
      ensures tokens == if response.Granted? then Stored(old(tokens), drawn, user, expires) else old(tokens)
    {
      var ok := StoreRefreshToken(user, drawn, expires, available);
      response := if ok then Granted(drawn) else InternalError;
    }

    method Login(user: Option<string>, passwordMatches: bool, drawn: string, expires: int, available: bool)
      returns (response: Response)
      modifies this`tokens
      ensures response.Unauthorized? <==> user.None? || !passwordMatches
      ensures Outcome(response, tokens, [])
           == LoginOutcome(old(tokens), user, passwordMatches, drawn, expires, available)
      ensures response.Granted? <==> user.Some? && passwordMatches && available && drawn !in old(tokens)
      ensures response.Granted? ==> response.refresh == drawn
      ensures response.Granted? ==> tokens == Stored(old(tokens), drawn, user.value, expires)
      ensures !response.Granted? ==> tokens == old(tokens)
    {
      if user.None? || !passwordMatches {
        return Unauthorized;
      }
      response := IssueTokens(user.value, drawn, expires, available);
    }

    /**
     Consume, look the user up, store the successor. A failure after the first step leaves the old
     token spent and no successor.
     */
    method Refresh(hash: string, now: int, userFound: bool, drawn: string, expires: int, available: bool)
      returns (response: Response)
      modifies this`tokens
      ensures Outcome(response, tokens, [])
           == RefreshOutcome(old(tokens), hash, now, userFound, drawn, expires, available)
      ensures response.Unauthorized?
          <==> hash !in old(tokens) || old(tokens)[hash].revoked || old(tokens)[hash].expires <= now
      ensures response.Unauthorized? ==> tokens == old(tokens)
      ensures !response.Unauthorized? ==> hash in tokens && tokens[hash].revoked
      ensures response.Granted? <==>
                Redeemable(old(tokens), hash, now) && userFound && available && drawn !in old(tokens)
      ensures response.Granted? ==> response.refresh == drawn
      ensures response.Granted? ==>
                tokens == Stored(Consumed(old(tokens), hash), drawn, old(tokens)[hash].user, expires)
      ensures response.InternalError? ==> hash in old(tokens) && tokens == Consumed(old(tokens), hash)
      ensures !response.Accepted?
    {
      var user := ConsumeRefreshToken(hash, now);
      if user.None? {
        return Unauthorized;
      }
      if !userFound {
        return InternalError;
      }
      response := IssueTokens(user.value, drawn, expires, available);
    }

    /** The revocation carries the token's own id and expiry. */
    method Revoke(claims: Option<Claims>, now: int, commits: bool) returns (response: Response)
      modifies this
      ensures Outcome(response, tokens, outbox) == RevokeOutcome(old(tokens), old(outbox), claims, now, commits)
      ensures response.Unauthorized? <==> claims.None? || claims.value.expires <= now
      ensures response.Accepted? <==> !response.Unauthorized? && commits
      ensures response.Accepted? ==> tokens == AllRevoked(old(tokens), claims.value.user)
      ensures response.Accepted? ==> outbox == old(outbox) + [RevocationOf(claims.value)]
      ensures !response.Accepted? ==> tokens == old(tokens) && outbox == old(outbox)
    {
      if claims.None? || claims.value.expires <= now {
        return Unauthorized;
      }
      var c := claims.value;
      var ok := RevokeAccessToken(c.tokenId, c.user, c.expires, commits);
      response := if ok then Accepted else InternalError;
    }
  }

  // ---- Requests interleaved, as a step machine

  /** What a request that is to receive a new refresh token started from. */
  datatype Origin = ByLogin | ByRedeeming(hash: string)

  datatype Request = Request(user: string, origin: Origin)

  /** How far a revoking transaction has come: its update ran, its event row was inserted too, or it ended. */
  datatype Stage = Updated | Inserted(row: Revocation) | Committed | RolledBack

  /** `held` are the tokens its update found live; their rows stay locked until it ends. */
  datatype Revoking = Revoking(claims: Claims, held: set<string>, stage: Stage)

  /**
   Requests are numbered in the order they passed their check; `inFlight` are those that still have
   to store a token, `dropped` those that failed instead. `issuer` names the request that stored a
   token, `cut` the tokens that a revocation ended. `announced` numbers the revoking transactions that
   committed, in commit order, which is the order of the outbox.
   */
  datatype State = State(
    now: int, tokens: Tokens, requests: seq<Request>, inFlight: set<nat>, dropped: set<nat>,
    issuer: map<string, nat>, redeemed: seq<string>, cut: set<string>,
    revokes: seq<Revoking>, outbox: seq<Revocation>, announced: seq<nat>)

  datatype Step =
    | Tick(to: int)
    | Login(user: string)
    | Consume(hash: string)
    | Store(request: nat, hash: string, expires: int)
    | Drop(request: nat)
    | Revoke(claims: Claims)
    | Insert(revoke: nat)
    | Commit(revoke: nat)
    | Rollback(revoke: nat)

  ghost predicate Init(s: State) {
    && s.tokens == map[] && s.requests == [] && s.inFlight == {} && s.dropped == {}
    && s.issuer == map[] && s.redeemed == [] && s.cut == {} && s.revokes == []
    && s.outbox == [] && s.announced == []
  }

  predicate IsOpen(v: Revoking) {
    v.stage.Updated? || v.stage.Inserted?
  }

  /** The token's row is locked by this transaction. */
  predicate HeldBy(s: State, n: nat, h: string) {
    n < |s.revokes| && IsOpen(s.revokes[n]) && h in s.revokes[n].held
  }

  /** Some transaction has the token's row locked; a statement that would change the row waits. */
  predicate Locked(s: State, h: string) {
    exists n: nat :: n < |s.revokes| && HeldBy(s, n, h)
  }

  predicate Enabled(s: State, step: Step) {
    match step
    case Tick(to) => s.now <= to
    case Login(_) => true
    case Consume(h) => Redeemable(s.tokens, h, s.now) && !Locked(s, h)
    case Store(r, h, _) => r in s.inFlight && r < |s.requests| && h !in s.tokens
    case Drop(r) => r in s.inFlight
    case Revoke(c) => forall h :: h in Live(s, c.user) ==> !Locked(s, h)
    case Insert(n) => n < |s.revokes| && s.revokes[n].stage.Updated?
    case Commit(n) => n < |s.revokes| && s.revokes[n].stage.Inserted?
    case Rollback(n) => n < |s.revokes| && IsOpen(s.revokes[n])
  }

  function Live(s: State, user: string): set<string> {
    LiveOf(s.tokens, user)
  }

  function WithStage(s: State, n: nat, stage: Stage): State
    requires n < |s.revokes|
  {
    s.(revokes := s.revokes[n := s.revokes[n].(stage := stage)])
  }

  function Do(s: State, step: Step): State
    requires Enabled(s, step)
  {
    match step
    case Tick(to) => s.(now := to)
    case Login(user) =>
      s.(requests := s.requests + [Request(user, ByLogin)], inFlight := s.inFlight + {|s.requests|})
    case Consume(h) =>
      s.(tokens := Consumed(s.tokens, h), redeemed := s.redeemed + [h],
         requests := s.requests + [Request(s.tokens[h].user, ByRedeeming(h))], inFlight := s.inFlight + {|s.requests|})
    case Store(r, h, expires) =>
      s.(tokens := Stored(s.tokens, h, s.requests[r].user, expires),
         issuer := s.issuer[h := r], inFlight := s.inFlight - {r})
    case Drop(r) => s.(inFlight := s.inFlight - {r}, dropped := s.dropped + {r})
    case Revoke(c) => s.(revokes := s.revokes + [Revoking(c, Live(s, c.user), Updated)])
    case Insert(n) => WithStage(s, n, Inserted(RevocationOf(s.revokes[n].claims)))
    case Commit(n) =>
      var v := s.revokes[n];
      WithStage(s, n, Committed)
      .(tokens := Spent(s.tokens, v.held), cut := s.cut + v.held,
        outbox := s.outbox + [v.stage.row], announced := s.announced + [n])
    case Rollback(n) => WithStage(s, n, RolledBack)
  }

  ghost predicate Run(states: seq<State>, steps: seq<Step>) {
    && |states| == |steps| + 1 && Init(states[0])
    && forall i :: 0 <= i < |steps| ==> Enabled(states[i], steps[i]) && states[i + 1] == Do(states[i], steps[i])
  }

  // ---- Redeemed at most once, at most one successor

  /** Every token was stored by a request of its own, which is then neither in flight nor dropped. */
  ghost predicate Issued(s: State) {
    && s.issuer.Keys == s.tokens.Keys
    && (forall r :: r in s.inFlight || r in s.dropped ==> r < |s.requests|)
    && s.inFlight !! s.dropped
    && (forall h :: h in s.tokens ==>
          && s.issuer[h] < |s.requests| && s.issuer[h] !in s.inFlight && s.issuer[h] !in s.dropped
          && s.requests[s.issuer[h]].user == s.tokens[h].user)
    && (forall h, g :: h in s.tokens && g in s.tokens && s.issuer[h] == s.issuer[g] ==> h == g)
  }

  /** A redeemed token is spent, and one later request of the same user redeemed it. */
  ghost predicate RedeemedOnce(s: State) {
    && Distinct(s.redeemed)
    && (forall k :: 0 <= k < |s.redeemed| ==> s.redeemed[k] in s.tokens && s.tokens[s.redeemed[k]].revoked)
    && (forall q, r :: 0 <= q < r < |s.requests| && s.requests[q].origin.ByRedeeming? ==>
          s.requests[q].origin != s.requests[r].origin)
    && (forall r :: 0 <= r < |s.requests| && s.requests[r].origin.ByRedeeming? ==> Follows(s, r))
  }

  ghost predicate Follows(s: State, r: nat)
    requires r < |s.requests| && s.requests[r].origin.ByRedeeming?
  {
    var h := s.requests[r].origin.hash;
    && h in s.redeemed && h in s.tokens && s.tokens[h].revoked && s.tokens[h].user == s.requests[r].user
    && h in s.issuer && s.issuer[h] < r
  }

  ghost predicate Rotating(s: State) {
    Issued(s) && RedeemedOnce(s)
  }

  lemma StepKeepsRotating(s: State, step: Step)
    requires Rotating(s) && Enabled(s, step)
    ensures Rotating(Do(s, step))
  {
    StepKeepsIssued(s, step);
    match step
    case Consume(h) => ConsumeKeepsRedeemedOnce(s, h);
    case _ => OtherStepsKeepRedeemedOnce(s, step);
  }

  lemma OtherStepsKeepRedeemedOnce(s: State, step: Step)
    requires Rotating(s) && Enabled(s, step) && !step.Consume?
    ensures RedeemedOnce(Do(s, step))
  {
    RedeemedOnceCarries(s, Do(s, step));
  }

  /** Nothing was redeemed in between: tokens stay spent, and new requests are logins. */
  lemma RedeemedOnceCarries(s: State, t: State)
    requires RedeemedOnce(s) && t.redeemed == s.redeemed && s.requests <= t.requests
    requires forall h :: h in s.tokens ==>
               h in t.tokens && t.tokens[h].user == s.tokens[h].user && (s.tokens[h].revoked ==> t.tokens[h].revoked)
    requires forall h :: h in s.tokens && h in s.issuer ==> h in t.issuer && t.issuer[h] == s.issuer[h]
    requires forall r :: |s.requests| <= r < |t.requests| ==> t.requests[r].origin.ByLogin?
    ensures RedeemedOnce(t)
  {
    forall r | 0 <= r < |t.requests| && t.requests[r].origin.ByRedeeming? ensures Follows(t, r) {
      assert r < |s.requests| && Follows(s, r);
    }
  }

  lemma StepKeepsIssued(s: State, step: Step)
    requires Issued(s) && Enabled(s, step)
    ensures Issued(Do(s, step))
  {
    if step.Store? {
      StoreKeepsIssued(s, step);
    } else {
      IssuedCarries(s, Do(s, step));
    }
  }

  lemma StoreKeepsIssued(s: State, step: Step)
    requires Issued(s) && Enabled(s, step) && step.Store?
    ensures Issued(Do(s, step))
  {
    var s', r, h := Do(s, step), step.request, step.hash;
    assert s'.issuer[h] == r && s'.tokens[h].user == s'.requests[r].user;
    assert forall g :: g in s.tokens ==> s'.issuer[g] == s.issuer[g] && s.issuer[g] != r;
  }

  /** No token was stored in between, and requests in flight are old ones or new. */
  lemma IssuedCarries(s: State, t: State)
    requires Issued(s) && t.issuer == s.issuer && t.tokens.Keys == s.tokens.Keys && s.requests <= t.requests
    requires forall h :: h in s.tokens ==> t.tokens[h].user == s.tokens[h].user
    requires t.inFlight !! t.dropped
    requires forall r :: r in t.inFlight ==> r in s.inFlight || r in s.dropped || |s.requests| <= r < |t.requests|
    requires forall r :: r in t.dropped ==> r in s.inFlight || r in s.dropped || |s.requests| <= r < |t.requests|
    ensures Issued(t)
  {
  }

  lemma ConsumeKeepsRedeemedOnce(s: State, h: string)
    requires Rotating(s) && Enabled(s, Consume(h))
    ensures RedeemedOnce(Do(s, Consume(h)))
  {
    var s' := Do(s, Consume(h));
    assert forall k :: 0 <= k < |s.redeemed| ==> s.redeemed[k] != h;
    forall r | 0 <= r < |s.requests| && s.requests[r].origin.ByRedeeming?
      ensures s.requests[r].origin != ByRedeeming(h) && Follows(s', r)
    {
      assert Follows(s, r);
    }
    assert s'.redeemed[|s.redeemed|] == h;
    assert Follows(s', |s.requests|);
  }

  lemma {:induction false} RunsRotate(states: seq<State>, steps: seq<Step>, i: nat)
    requires Run(states, steps) && i < |states|
    ensures Rotating(states[i])
  {
    if i != 0 {
      RunsRotate(states, steps, i - 1);
      StepKeepsRotating(states[i - 1], steps[i - 1]);
    }
  }

  /** A token that is redeemed is stored, unspent and unexpired at that moment. */
  lemma RedeemedIsLiveThen(states: seq<State>, steps: seq<Step>, i: nat)
    requires Run(states, steps) && i < |steps| && steps[i].Consume?
    ensures var h := steps[i].hash;
            h in states[i].tokens && !states[i].tokens[h].revoked && states[i].now < states[i].tokens[h].expires
  {
  }

  lemma {:induction false} ExpiryIsFixed(states: seq<State>, steps: seq<Step>, i: nat, j: nat, h: string)
    requires Run(states, steps) && i <= j < |states| && h in states[i].tokens
    ensures h in states[j].tokens && states[j].tokens[h].expires == states[i].tokens[h].expires
    ensures states[i].now <= states[j].now
    decreases j - i
  {
    if i < j {
      ExpiryIsFixed(states, steps, i, j - 1, h);
      StepKeepsExpiry(states[j - 1], steps[j - 1], h);
    }
  }

  lemma StepKeepsExpiry(s: State, step: Step, h: string)
    requires Enabled(s, step) && h in s.tokens
    ensures h in Do(s, step).tokens && Do(s, step).tokens[h].expires == s.tokens[h].expires
    ensures s.now <= Do(s, step).now
  {
  }

  /** Once a token's expiry has come it is never redeemed again. */
  lemma ExpiredIsNeverRedeemed(states: seq<State>, steps: seq<Step>, i: nat, j: nat, h: string)
    requires Run(states, steps) && i <= j < |steps|
    requires h in states[i].tokens && states[i].tokens[h].expires <= states[i].now
    ensures steps[j] != Consume(h)
  {
    ExpiryIsFixed(states, steps, i, j, h);
  }

  ghost predicate IsSuccessor(s: State, h: string, successor: string) {
    && successor in s.tokens && successor in s.issuer && s.issuer[successor] < |s.requests|
    && s.requests[s.issuer[successor]].origin == ByRedeeming(h)
  }

  /** Under any interleaving a refresh token is redeemed at most once and has at most one successor, of its user. */
  lemma RedeemedOnceOneSuccessor(states: seq<State>, steps: seq<Step>, i: nat, h: string, a: string, b: string)
    requires Run(states, steps) && i < |states|
    ensures multiset(states[i].redeemed)[h] <= 1
    ensures IsSuccessor(states[i], h, a) && IsSuccessor(states[i], h, b) ==> a == b
    ensures IsSuccessor(states[i], h, a) ==>
              && h in states[i].tokens && states[i].tokens[h].revoked
              && states[i].tokens[h].user == states[i].tokens[a].user
  {
    RunsRotate(states, steps, i);
    DistinctMeansOnce(states[i].redeemed, h);
    var s := states[i];
    if IsSuccessor(s, h, a) && IsSuccessor(s, h, b) {
      var q, r := s.issuer[a], s.issuer[b];
      assert q < r || q == r || r < q;
    }
  }

  lemma {:induction false} DistinctMeansOnce(s: seq<string>, h: string)
    requires Distinct(s)
    ensures multiset(s)[h] <= 1
  {
    if s != [] {
      var body := s[..|s| - 1];
      DistinctMeansOnce(body, h);
      assert s == body + [s[|s| - 1]];
      if h == s[|s| - 1] {
        assert h !in body;
      }
    }
  }

  // ---- Row locks

  /**
   What an open transaction holds is live and its user's, no two hold one token, and a committed one
   has spent all it held and announced it once.
   */
  ghost predicate LocksHold(s: State) {
    && (forall n: nat, h :: HeldBy(s, n, h) ==>
          h in s.tokens && !s.tokens[h].revoked && s.tokens[h].user == s.revokes[n].claims.user)
    && (forall m: nat, n: nat, h :: HeldBy(s, m, h) && HeldBy(s, n, h) ==> m == n)
    && (forall n: nat, h :: CommittedHeld(s, n, h) ==> h in s.tokens && s.tokens[h].revoked)
    && (forall n :: 0 <= n < |s.revokes| ==> RowFits(s.revokes[n]))
  }

  ghost predicate CommittedHeld(s: State, n: nat, h: string) {
    n < |s.revokes| && s.revokes[n].stage.Committed? && h in s.revokes[n].held
  }

  ghost predicate RowFits(v: Revoking) {
    v.stage.Inserted? ==> v.stage.row == RevocationOf(v.claims)
  }

  lemma StepKeepsLocks(s: State, step: Step)
    requires LocksHold(s) && Enabled(s, step)
    ensures LocksHold(Do(s, step))
  {
    match step
    case Revoke(c) => RevokeKeepsLocks(s, c);
    case Insert(n) => StageKeepsLocks(s, step, n);
    case Commit(n) => CommitKeepsLocks(s, n);
    case Rollback(n) => StageKeepsLocks(s, step, n);
    case Consume(h) => ConsumeKeepsLocks(s, h);
    case _ =>
      var s' := Do(s, step);
      assert forall n: nat, h :: HeldBy(s', n, h) == HeldBy(s, n, h);
      assert forall n: nat, h :: CommittedHeld(s', n, h) == CommittedHeld(s, n, h);
  }

  lemma ConsumeKeepsLocks(s: State, hash: string)
    requires LocksHold(s) && Enabled(s, Consume(hash))
    ensures LocksHold(Do(s, Consume(hash)))
  {
    var s' := Do(s, Consume(hash));
    forall n: nat, h | HeldBy(s', n, h) ensures HeldBy(s, n, h) && h != hash {
      assert HeldBy(s, n, h) && (h == hash ==> Locked(s, hash));
    }
    assert forall n: nat, h :: CommittedHeld(s', n, h) == CommittedHeld(s, n, h);
  }

  lemma RevokeKeepsLocks(s: State, c: Claims)
    requires LocksHold(s) && Enabled(s, Step.Revoke(c))
    ensures LocksHold(Do(s, Step.Revoke(c)))
  {
    var s' := Do(s, Step.Revoke(c));
    forall n: nat, h | HeldBy(s', n, h)
      ensures if n == |s.revokes| then h in Live(s, c.user) && !Locked(s, h) else HeldBy(s, n, h)
    {
    }
    forall m: nat, n: nat, h | HeldBy(s', m, h) && HeldBy(s', n, h) ensures m == n {
      assert m < |s.revokes| ==> HeldBy(s, m, h) && Locked(s, h);
      assert n < |s.revokes| ==> HeldBy(s, n, h) && Locked(s, h);
    }
    assert forall n: nat, h :: CommittedHeld(s', n, h) == CommittedHeld(s, n, h);
  }

  lemma StageKeepsLocks(s: State, step: Step, k: nat)
    requires LocksHold(s) && Enabled(s, step) && (step == Insert(k) || step == Rollback(k))
    ensures LocksHold(Do(s, step))
  {
    var s' := Do(s, step);
    forall n: nat, h | HeldBy(s', n, h) ensures HeldBy(s, n, h) && s'.revokes[n].claims == s.revokes[n].claims {
    }
    assert forall n: nat, h :: CommittedHeld(s', n, h) ==> CommittedHeld(s, n, h);
  }

  lemma CommitKeepsLocks(s: State, k: nat)
    requires LocksHold(s) && Enabled(s, Commit(k))
    ensures LocksHold(Do(s, Commit(k)))
  {
    var s' := Do(s, Commit(k));
    forall n: nat, h | HeldBy(s', n, h)
      ensures HeldBy(s, n, h) && h !in s.revokes[k].held && s'.revokes[n].claims == s.revokes[n].claims
    {
      assert n != k && HeldBy(s, n, h) && !HeldBy(s, k, h);
    }
    forall n: nat, h | CommittedHeld(s', n, h) ensures h in s'.tokens && s'.tokens[h].revoked {
      assert if n == k then HeldBy(s, n, h) else CommittedHeld(s, n, h);
    }
  }

  lemma {:induction false} RunsHoldLocks(states: seq<State>, steps: seq<Step>, i: nat)
    requires Run(states, steps) && i < |states|
    ensures LocksHold(states[i])
  {
    if i != 0 {
      RunsHoldLocks(states, steps, i - 1);
      StepKeepsLocks(states[i - 1], steps[i - 1]);
    }
  }

  // ---- Conservation of sessions

  function InFlight(s: State, user: string): set<nat> {
    set r | r in s.inFlight && r < |s.requests| && s.requests[r].user == user
  }

  function Dropped(s: State, user: string): set<nat> {
    set r | r in s.dropped && r < |s.requests| && s.requests[r].user == user
  }

  function Cut(s: State, user: string): set<string> {
    set h | h in s.cut && h in s.tokens && s.tokens[h].user == user
  }

  function Logins(s: State, user: string): set<nat> {
    set r: nat | r < |s.requests| && s.requests[r].user == user && s.requests[r].origin.ByLogin?
  }

  /** Each of a user's logins is a live token, a request in flight, a dropped request or a token that was cut. */
  ghost predicate Conserved(s: State, user: string) {
    |Logins(s, user)| == |Live(s, user)| + |InFlight(s, user)| + |Dropped(s, user)| + |Cut(s, user)|
  }

  /** Cut tokens are spent, and a request is in flight or dropped but not both. */
  ghost predicate Apart(s: State) {
    && (forall h :: h in s.cut ==> h in s.tokens && s.tokens[h].revoked)
    && (forall r :: r in s.inFlight ==> r < |s.requests| && r !in s.dropped)
    && (forall r :: r in s.dropped ==> r < |s.requests|)
  }

  lemma StepKeepsApart(s: State, step: Step)
    requires LocksHold(s) && Apart(s) && Enabled(s, step)
    ensures Apart(Do(s, step))
  {
  }

  lemma StepKeepsConserved(s: State, step: Step, user: string)
    requires LocksHold(s) && Apart(s) && Conserved(s, user) && Enabled(s, step)
    ensures Conserved(Do(s, step), user)
  {
    match step
    case Tick(to) => TickConserves(s, to, user);
    case Login(u) => LoginConserves(s, u, user);
    case Consume(h) => ConsumeConserves(s, h, user);
    case Store(r, h, expires) => StoreConserves(s, step, user);
    case Drop(r) => DropConserves(s, r, user);
    case Commit(n) => CommitConserves(s, n, user);
    case _ =>
      RequestsUnchanged(s, Do(s, step), user);
      TokensUnchanged(s, Do(s, step), user);
  }

  lemma TickConserves(s: State, to: int, user: string)
    requires Conserved(s, user) && Enabled(s, Step.Tick(to))
    ensures Conserved(Do(s, Step.Tick(to)), user)
  {
    var s' := Do(s, Step.Tick(to));
    assert Live(s', user) == Live(s, user) && Cut(s', user) == Cut(s, user);
    RequestsUnchanged(s, s', user);
  }

  lemma RequestsUnchanged(s: State, t: State, user: string)
    requires s.requests == t.requests && s.inFlight == t.inFlight && s.dropped == t.dropped
    ensures InFlight(t, user) == InFlight(s, user) && Dropped(t, user) == Dropped(s, user)
    ensures Logins(t, user) == Logins(s, user)
  {
  }

  lemma TokensUnchanged(s: State, t: State, user: string)
    requires s.tokens == t.tokens && s.cut == t.cut
    ensures Live(t, user) == Live(s, user) && Cut(t, user) == Cut(s, user)
  {
  }

  /** A new request joins those in flight, and the logins if it is one. */
  lemma RequestAdded(s: State, t: State, user: string, request: Request)
    requires Apart(s) && t.requests == s.requests + [request]
    requires t.inFlight == s.inFlight + {|s.requests|} && t.dropped == s.dropped
    ensures |Dropped(t, user)| == |Dropped(s, user)|
    ensures |InFlight(t, user)| == |InFlight(s, user)| + (if request.user == user then 1 else 0)
    ensures |Logins(t, user)| == |Logins(s, user)| + (if request.user == user && request.origin.ByLogin? then 1 else 0)
  {
    FlightAdded(s, t, user, request);
    LoginAdded(s, t, user, request);
    DroppedUnchanged(s, t, user);
  }

  lemma DroppedUnchanged(s: State, t: State, user: string)
    requires Apart(s) && s.requests <= t.requests && t.dropped == s.dropped
    ensures Dropped(t, user) == Dropped(s, user)
  {
  }

  lemma FlightAdded(s: State, t: State, user: string, request: Request)
    requires Apart(s) && t.requests == s.requests + [request] && t.inFlight == s.inFlight + {|s.requests|}
    ensures |InFlight(t, user)| == |InFlight(s, user)| + (if request.user == user then 1 else 0)
  {
    if request.user == user {
      assert InFlight(t, user) == InFlight(s, user) + {|s.requests|};
    } else {
      assert InFlight(t, user) == InFlight(s, user);
    }
  }

  lemma LoginAdded(s: State, t: State, user: string, request: Request)
    requires t.requests == s.requests + [request]
    ensures |Logins(t, user)| == |Logins(s, user)| + (if request.user == user && request.origin.ByLogin? then 1 else 0)
  {
    if request.user == user && request.origin.ByLogin? {
      assert Logins(t, user) == Logins(s, user) + {|s.requests|};
    } else {
      assert Logins(t, user) == Logins(s, user);
    }
  }

  lemma LoginConserves(s: State, u: string, user: string)
    requires Apart(s) && Conserved(s, user)
    ensures Conserved(Do(s, Step.Login(u)), user)
  {
    var s' := Do(s, Step.Login(u));
    RequestAdded(s, s', user, Request(u, ByLogin));
    TokensUnchanged(s, s', user);
  }

  /** A live token becomes a request in flight. */
  lemma ConsumeConserves(s: State, h: string, user: string)
    requires Apart(s) && Conserved(s, user) && Enabled(s, Consume(h))
    ensures Conserved(Do(s, Consume(h)), user)
  {
    var s' := Do(s, Consume(h));
    RequestAdded(s, s', user, Request(s.tokens[h].user, ByRedeeming(h)));
    OneSpent(s, s', h, user);
  }

  lemma OneSpent(s: State, t: State, h: string, user: string)
    requires h in s.tokens && !s.tokens[h].revoked && t.tokens == Consumed(s.tokens, h) && t.cut == s.cut
    ensures |Live(t, user)| == |Live(s, user)| - (if s.tokens[h].user == user then 1 else 0)
    ensures |Cut(t, user)| == |Cut(s, user)|
  {
    assert Cut(t, user) == Cut(s, user);
    if s.tokens[h].user == user {
      assert h in Live(s, user);
      assert Live(t, user) == Live(s, user) - {h};
    } else {
      assert Live(t, user) == Live(s, user);
    }
  }

  /** A request in flight becomes a live token. */
  lemma StoreConserves(s: State, step: Step, user: string)
    requires Apart(s) && Conserved(s, user) && Enabled(s, step) && step.Store?
    ensures Conserved(Do(s, step), user)
  {
    var s' := Do(s, step);
    var r, h := step.request, step.hash;
    OneLanded(s, s', r, user);
    assert Dropped(s', user) == Dropped(s, user) && Logins(s', user) == Logins(s, user);
    OneStored(s, s', h, Token(s.requests[r].user, step.expires, false), user);
  }

  lemma OneLanded(s: State, t: State, r: nat, user: string)
    requires r in s.inFlight && r < |s.requests| && t.requests == s.requests && t.inFlight == s.inFlight - {r}
    ensures |InFlight(t, user)| == |InFlight(s, user)| - (if s.requests[r].user == user then 1 else 0)
  {
    if s.requests[r].user == user {
      assert r in InFlight(s, user);
      assert InFlight(t, user) == InFlight(s, user) - {r};
    } else {
      assert InFlight(t, user) == InFlight(s, user);
    }
  }

  lemma OneStored(s: State, t: State, h: string, token: Token, user: string)
    requires Apart(s) && h !in s.tokens && !token.revoked && t.tokens == s.tokens[h := token] && t.cut == s.cut
    ensures |Live(t, user)| == |Live(s, user)| + (if token.user == user then 1 else 0)
    ensures |Cut(t, user)| == |Cut(s, user)|
  {
    CutUnchanged(s, t, user);
    if token.user == user {
      assert Live(t, user) == Live(s, user) + {h};
    } else {
      assert Live(t, user) == Live(s, user);
    }
  }

  lemma CutUnchanged(s: State, t: State, user: string)
    requires Apart(s) && t.cut == s.cut
    requires forall h :: h in s.tokens ==> h in t.tokens && t.tokens[h].user == s.tokens[h].user
    ensures Cut(t, user) == Cut(s, user)
  {
  }

  /** A request in flight becomes a dropped one. */
  lemma DropConserves(s: State, r: nat, user: string)
    requires Apart(s) && Conserved(s, user) && Enabled(s, Drop(r))
    ensures Conserved(Do(s, Drop(r)), user)
  {
    var s' := Do(s, Drop(r));
    OneLanded(s, s', r, user);
    TokensUnchanged(s, s', user);
    assert Logins(s', user) == Logins(s, user);
    if s.requests[r].user == user {
      assert r !in Dropped(s, user);
      assert Dropped(s', user) == Dropped(s, user) + {r};
    } else {
      assert Dropped(s', user) == Dropped(s, user);
    }
  }

  /** The tokens the transaction held become cut ones. */
  lemma CommitConserves(s: State, n: nat, user: string)
    requires LocksHold(s) && Apart(s) && Conserved(s, user) && Enabled(s, Commit(n))
    ensures Conserved(Do(s, Commit(n)), user)
  {
    var s', v := Do(s, Commit(n)), s.revokes[n];
    RequestsUnchanged(s, s', user);
    forall h | h in v.held ensures h in Live(s, v.claims.user) {
      assert HeldBy(s, n, h);
    }
    if v.claims.user == user {
      HeldBecomeCut(s, s', v.held, user);
    } else {
      OthersUntouched(s, s', v.held, v.claims.user, user);
    }
  }

  lemma HeldBecomeCut(s: State, t: State, held: set<string>, user: string)
    requires Apart(s) && held <= Live(s, user) && t.tokens == Spent(s.tokens, held) && t.cut == s.cut + held
    ensures |Live(t, user)| == |Live(s, user)| - |held| && |Cut(t, user)| == |Cut(s, user)| + |held|
  {
    assert Live(t, user) == Live(s, user) - held;
    CutGrows(s, t, held, user);
    SizesAfterMove(Live(s, user), Cut(s, user), held);
  }

  lemma CutGrows(s: State, t: State, held: set<string>, user: string)
    requires Apart(s) && held <= Live(s, user) && t.tokens == Spent(s.tokens, held) && t.cut == s.cut + held
    ensures Cut(t, user) == Cut(s, user) + held && Cut(s, user) !! held
  {
    forall h ensures h in Cut(t, user) <==> h in Cut(s, user) + held {
    }
  }

  lemma SizesAfterMove(a: set<string>, b: set<string>, moved: set<string>)
    requires moved <= a && b !! moved
    ensures |a - moved| == |a| - |moved| && |b + moved| == |b| + |moved|
  {
  }

  lemma OthersUntouched(s: State, t: State, held: set<string>, revoked: string, user: string)
    requires revoked != user && held <= Live(s, revoked)
    requires t.tokens == Spent(s.tokens, held) && t.cut == s.cut + held
    ensures Live(t, user) == Live(s, user) && Cut(t, user) == Cut(s, user)
  {
  }

  /** A user's live tokens and requests in flight never exceed that user's logins. */
  lemma {:induction false} SessionsAreConserved(states: seq<State>, steps: seq<Step>, i: nat, user: string)
    requires Run(states, steps) && i < |states|
    ensures Conserved(states[i], user) && Apart(states[i])
    ensures |Live(states[i], user)| + |InFlight(states[i], user)| <= |Logins(states[i], user)|
  {
    if i == 0 {
      assert Live(states[0], user) == {} && Cut(states[0], user) == {};
      assert InFlight(states[0], user) == {} && Dropped(states[0], user) == {} && Logins(states[0], user) == {};
    } else {
      SessionsAreConserved(states, steps, i - 1, user);
      RunsHoldLocks(states, steps, i - 1);
      StepKeepsApart(states[i - 1], steps[i - 1]);
      StepKeepsConserved(states[i - 1], steps[i - 1], user);
    }
  }

  // ---- The cut a revocation makes

  /** Request r of s was in flight when the state `at` was reached, or logged in after it. */
  ghost predicate Late(at: State, s: State, r: nat) {
    r in at.inFlight || (|at.requests| <= r < |s.requests| && s.requests[r].origin.ByLogin?)
  }

  /** Following a token back through the tokens redeemed for it reaches a late request. */
  ghost predicate FromLate(at: State, s: State, h: string)
    decreases if h in s.issuer then s.issuer[h] else 0, 1
  {
    h in s.issuer && s.issuer[h] < |s.requests| &&
    (Late(at, s, s.issuer[h]) ||
     (s.requests[s.issuer[h]].origin.ByRedeeming? && RedeemedFromLate(at, s, s.issuer[h])))
  }

  ghost predicate RedeemedFromLate(at: State, s: State, r: nat)
    requires r < |s.requests| && s.requests[r].origin.ByRedeeming?
    decreases r, 0
  {
    var h := s.requests[r].origin.hash;
    h !in at.tokens && h in s.issuer && s.issuer[h] < r && FromLate(at, s, h)
  }

  /** The request was late, or redeems a token that goes back to a late one. */
  ghost predicate RequestFromLate(at: State, s: State, r: nat) {
    r < |s.requests| && (Late(at, s, r) || (s.requests[r].origin.ByRedeeming? && RedeemedFromLate(at, s, r)))
  }

  /**
   With `at` the state in which the update of transaction n has run: the user's tokens present then are
   spent or still held, and every later one, stored or about to be, goes back to a late request.
   */
  ghost predicate CutOff(at: State, s: State, user: string, n: nat) {
    && at.requests <= s.requests && at.redeemed <= s.redeemed
    && (forall h :: h in at.tokens ==> h in s.tokens && s.tokens[h].user == at.tokens[h].user)
    && (forall h :: h in at.tokens && at.tokens[h].user == user ==> s.tokens[h].revoked || HeldBy(s, n, h))
    && (forall h :: h in s.tokens && h !in at.tokens && s.tokens[h].user == user ==> FromLate(at, s, h))
    && (forall r :: r in s.inFlight && r < |s.requests| && s.requests[r].user == user ==> RequestFromLate(at, s, r))
    && (forall k :: |at.redeemed| <= k < |s.redeemed| && RedeemedBy(s, k, user) ==> s.redeemed[k] !in at.tokens)
  }

  /** The k-th redemption was of a token of this user. */
  ghost predicate RedeemedBy(s: State, k: int, user: string) {
    0 <= k < |s.redeemed| && s.redeemed[k] in s.tokens && s.tokens[s.redeemed[k]].user == user
  }

  /** Adding requests and tokens changes nothing about where a token came from. */
  lemma {:induction false} LineageIsStable(at: State, s: State, t: State, h: string)
    requires Rotating(s) && s.requests <= t.requests && FromLate(at, s, h)
    requires forall g :: g in s.issuer ==> g in t.issuer && t.issuer[g] == s.issuer[g]
    ensures FromLate(at, t, h)
    decreases if h in s.issuer then s.issuer[h] else 0
  {
    var r := s.issuer[h];
    if !Late(at, s, r) {
      LineageIsStable(at, s, t, s.requests[r].origin.hash);
    }
  }

  lemma RequestLineageIsStable(at: State, s: State, t: State, r: nat)
    requires Rotating(s) && s.requests <= t.requests && RequestFromLate(at, s, r)
    requires forall g :: g in s.issuer ==> g in t.issuer && t.issuer[g] == s.issuer[g]
    ensures RequestFromLate(at, t, r)
  {
    if !Late(at, s, r) {
      LineageIsStable(at, s, t, s.requests[r].origin.hash);
    }
  }

  /** Transaction n did not roll back in this step. */
  ghost predicate Stands(s: State, n: nat) {
    n < |s.revokes| && !s.revokes[n].stage.RolledBack?
  }

  lemma StepKeepsCutOff(at: State, s: State, step: Step, user: string, n: nat)
    requires Rotating(s) && CutOff(at, s, user, n) && Enabled(s, step) && Stands(Do(s, step), n) && n < |s.revokes|
    ensures CutOff(at, Do(s, step), user, n)
  {
    var s' := Do(s, step);
    forall h | h in s'.tokens && h !in at.tokens && s'.tokens[h].user == user ensures FromLate(at, s', h) {
      NewTokenFromLate(at, s, step, user, n, h);
    }
    forall r | r in s'.inFlight && r < |s'.requests| && s'.requests[r].user == user ensures RequestFromLate(at, s', r) {
      NewRequestFromLate(at, s, step, user, n, r);
    }
    OldTokensStaySpent(at, s, step, user, n);
    RedeemedAreNew(at, s, step, user, n);
  }

  lemma OldTokensStaySpent(at: State, s: State, step: Step, user: string, n: nat)
    requires CutOff(at, s, user, n) && Enabled(s, step) && n < |s.revokes| && Stands(Do(s, step), n)
    ensures var s' := Do(s, step);
            && at.requests <= s'.requests
            && (forall h :: h in at.tokens ==> h in s'.tokens && s'.tokens[h].user == at.tokens[h].user)
            && (forall h :: h in at.tokens && at.tokens[h].user == user ==> s'.tokens[h].revoked || HeldBy(s', n, h))
  {
    var s' := Do(s, step);
    forall h | h in at.tokens && at.tokens[h].user == user ensures s'.tokens[h].revoked || HeldBy(s', n, h) {
      if !s.tokens[h].revoked {
        assert HeldBy(s, n, h);
      }
    }
  }

  lemma RedeemedAreNew(at: State, s: State, step: Step, user: string, n: nat)
    requires CutOff(at, s, user, n) && Enabled(s, step) && n < |s.revokes| && RedeemedOnce(s)
    ensures var s' := Do(s, step);
            && at.redeemed <= s'.redeemed
            && (forall k :: |at.redeemed| <= k < |s'.redeemed| && RedeemedBy(s', k, user) ==>
                  s'.redeemed[k] !in at.tokens)
  {
    var s' := Do(s, step);
    if step.Consume? {
      assert HeldBy(s, n, step.hash) ==> Locked(s, step.hash);
    }
    forall k | |at.redeemed| <= k < |s'.redeemed| && RedeemedBy(s', k, user) ensures s'.redeemed[k] !in at.tokens {
      if k < |s.redeemed| {
        assert s'.redeemed[k] == s.redeemed[k];
        assert s.redeemed[k] in s.tokens;
        assert RedeemedBy(s, k, user);
      } else {
        assert s'.redeemed[k] == step.hash;
      }
    }
  }

  lemma NewTokenFromLate(at: State, s: State, step: Step, user: string, n: nat, h: string)
    requires Rotating(s) && CutOff(at, s, user, n) && Enabled(s, step)
    requires h in Do(s, step).tokens && h !in at.tokens && Do(s, step).tokens[h].user == user
    ensures FromLate(at, Do(s, step), h)
  {
    var s' := Do(s, step);
    if h in s.tokens {
      LineageIsStable(at, s, s', h);
    } else {
      StoredFromLate(at, s, step, user, n);
    }
  }

  lemma StoredFromLate(at: State, s: State, step: Step, user: string, n: nat)
    requires Rotating(s) && CutOff(at, s, user, n) && Enabled(s, step) && step.Store?
    requires s.requests[step.request].user == user
    ensures FromLate(at, Do(s, step), step.hash)
  {
    RequestLineageIsStable(at, s, Do(s, step), step.request);
  }

  lemma NewRequestFromLate(at: State, s: State, step: Step, user: string, n: nat, r: nat)
    requires Rotating(s) && CutOff(at, s, user, n) && Enabled(s, step) && n < |s.revokes|
    requires r in Do(s, step).inFlight && r < |Do(s, step).requests| && Do(s, step).requests[r].user == user
    ensures RequestFromLate(at, Do(s, step), r)
  {
    var s' := Do(s, step);
    if r < |s.requests| {
      RequestLineageIsStable(at, s, s', r);
    } else {
      match step
      case Consume(hash) =>
        ConsumedIsNew(at, s, user, n, hash);
        LineageIsStable(at, s, s', hash);
      case _ =>
    }
  }

  /** A token of the user that can be redeemed was stored after the update. */
  lemma ConsumedIsNew(at: State, s: State, user: string, n: nat, hash: string)
    requires CutOff(at, s, user, n) && n < |s.revokes| && Enabled(s, Consume(hash)) && s.tokens[hash].user == user
    ensures hash !in at.tokens && FromLate(at, s, hash)
  {
    assert HeldBy(s, n, hash) ==> Locked(s, hash);
  }

  ghost predicate SameRevocation(v: Revoking, w: Revoking) {
    v.claims == w.claims && v.held == w.held
  }

  /** Transactions keep their number, their claims and what they hold, and once rolled back stay so. */
  lemma StepKeepsRevokes(s: State, step: Step, n: nat)
    requires Enabled(s, step) && n < |s.revokes|
    ensures n < |Do(s, step).revokes| && SameRevocation(s.revokes[n], Do(s, step).revokes[n])
    ensures Stands(Do(s, step), n) ==> Stands(s, n)
  {
  }

  lemma {:induction false} CutHolds(states: seq<State>, steps: seq<Step>, i: nat, j: nat)
    requires Run(states, steps) && i < j < |states| && steps[i].Revoke? && Stands(states[j], |states[i].revokes|)
    ensures CutOff(states[i + 1], states[j], steps[i].claims.user, |states[i].revokes|)
    decreases j - i
  {
    if i + 1 == j {
      RunsRotate(states, steps, j);
      CutBegins(states[i], steps[i], states[j]);
    } else {
      NumberStands(states, steps, i, j - 1);
      CutHolds(states, steps, i, j - 1);
      CutGoesOn(states, steps, states[i + 1], steps[i].claims.user, |states[i].revokes|, j - 1);
    }
  }

  lemma CutGoesOn(states: seq<State>, steps: seq<Step>, at: State, user: string, n: nat, j: nat)
    requires Run(states, steps) && j < |steps| && CutOff(at, states[j], user, n)
    requires n < |states[j].revokes| && Stands(states[j + 1], n)
    ensures CutOff(at, states[j + 1], user, n)
  {
    RunsRotate(states, steps, j);
    CutContinues(at, states[j], steps[j], states[j + 1], user, n);
  }

  lemma CutContinues(at: State, s: State, step: Step, t: State, user: string, n: nat)
    requires Rotating(s) && CutOff(at, s, user, n) && Enabled(s, step) && t == Do(s, step)
    requires n < |s.revokes| && Stands(t, n)
    ensures CutOff(at, t, user, n)
  {
    StepKeepsCutOff(at, s, step, user, n);
  }

  lemma NumberStands(states: seq<State>, steps: seq<Step>, i: nat, j: nat)
    requires Run(states, steps) && i < j < |steps| && steps[i].Revoke? && Stands(states[j + 1], |states[i].revokes|)
    ensures |states[i].revokes| < |states[j].revokes| && Stands(states[j], |states[i].revokes|)
  {
    assert |states[i + 1].revokes| == |states[i].revokes| + 1;
    RunsKeepRevokes(states, steps, i + 1, j, |states[i].revokes|);
    StepKeepsRevokes(states[j], steps[j], |states[i].revokes|);
  }

  lemma {:induction false} RunsKeepRevokes(states: seq<State>, steps: seq<Step>, i: nat, j: nat, n: nat)
    requires Run(states, steps) && i <= j < |states| && n < |states[i].revokes|
    ensures n < |states[j].revokes| && SameRevocation(states[i].revokes[n], states[j].revokes[n])
    decreases j - i
  {
    if i < j {
      RunsKeepRevokes(states, steps, i, j - 1, n);
      StepKeepsRevokes(states[j - 1], steps[j - 1], n);
    }
  }

  lemma CutBegins(s: State, step: Step, at: State)
    requires Enabled(s, step) && step.Revoke? && at == Do(s, step) && Rotating(at)
    ensures CutOff(at, at, step.claims.user, |s.revokes|)
  {
    var user := step.claims.user;
    forall h | h in at.tokens && at.tokens[h].user == user ensures at.tokens[h].revoked || HeldBy(at, |s.revokes|, h) {
      if !at.tokens[h].revoked {
        assert h in Live(s, user);
      }
    }
  }

  /**
   From the moment the update of a revocation that does not roll back has run, no refresh token of
   that user present then is redeemed again; any later redemption goes back to a request then in
   flight or to a later login.
   */
  lemma RevocationCutsOff(states: seq<State>, steps: seq<Step>, i: nat, j: nat, k: nat)
    requires Run(states, steps) && i < j < |states| && steps[i].Revoke? && Stands(states[j], |states[i].revokes|)
    requires |states[i + 1].redeemed| <= k < |states[j].redeemed|
    ensures states[j].redeemed[k] in states[j].tokens
    ensures var h := states[j].redeemed[k];
            states[j].tokens[h].user == steps[i].claims.user ==>
              h !in states[i + 1].tokens && FromLate(states[i + 1], states[j], h)
  {
    RunsRotate(states, steps, j);
    assert states[j].redeemed[k] in states[j].redeemed;
    CutHolds(states, steps, i, j);
    assert RedeemedBy(states[j], k, steps[i].claims.user)
      <==> states[j].tokens[states[j].redeemed[k]].user == steps[i].claims.user;
  }

  /** Once such a transaction has committed, every token present at its update is spent. */
  lemma CommittedRevokeSpends(states: seq<State>, steps: seq<Step>, i: nat, j: nat, h: string)
    requires Run(states, steps) && i < j < |states| && steps[i].Revoke?
    requires |states[i].revokes| < |states[j].revokes| && states[j].revokes[|states[i].revokes|].stage.Committed?
    requires h in states[i + 1].tokens && states[i + 1].tokens[h].user == steps[i].claims.user
    ensures h in states[j].tokens && states[j].tokens[h].revoked
  {
    CutHolds(states, steps, i, j);
  }

  /** At its commit a transaction holds what was live at its update, all of it stored before. */
  lemma HeldWasLive(states: seq<State>, steps: seq<Step>, i: nat, j: nat)
    requires Run(states, steps) && i < j < |states| && steps[i].Revoke?
    ensures |states[i].revokes| < |states[j].revokes|
    ensures states[j].revokes[|states[i].revokes|].held == Live(states[i], steps[i].claims.user)
    ensures forall h :: h in states[j].revokes[|states[i].revokes|].held ==> h in states[i + 1].tokens
  {
    assert states[i + 1] == Do(states[i], steps[i]);
    RunsKeepRevokes(states, steps, i + 1, j, |states[i].revokes|);
  }

  /**
   Exactly which tokens a revocation's commit leaves live: those that were live before it and were
   stored after its update had run.
   */
  lemma CommitLeavesExactlyTheLater(states: seq<State>, steps: seq<Step>, i: nat, j: nat, h: string)
    requires Run(states, steps) && i < j < |steps| && steps[i].Revoke? && steps[j] == Commit(|states[i].revokes|)
    ensures var user := steps[i].claims.user;
            h in Live(states[j + 1], user) <==> h in Live(states[j], user) && h !in states[i + 1].tokens
  {
    var user, n := steps[i].claims.user, |states[i].revokes|;
    HeldWasLive(states, steps, i, j);
    CutHolds(states, steps, i, j);
    CommitSpendsTheHeld(states[j], n, user, h);
    if h in states[i + 1].tokens && h in Live(states[j], user) {
      assert HeldBy(states[j], n, h);
    }
  }

  lemma CommitSpendsTheHeld(s: State, n: nat, user: string, h: string)
    requires Enabled(s, Commit(n))
    ensures h in Live(Do(s, Commit(n)), user) <==> h in Live(s, user) && h !in s.revokes[n].held
  {
  }

  /**
   The commit leaves the user no live token if and only if no live token was stored since the update:
   a check a caller could make just before it.
   */
  lemma CommitLeavesNoneIffNoneStoredSince(states: seq<State>, steps: seq<Step>, i: nat, j: nat)
    requires Run(states, steps) && i < j < |steps| && steps[i].Revoke? && steps[j] == Commit(|states[i].revokes|)
    ensures var user := steps[i].claims.user;
            Live(states[j + 1], user) == {} <==> forall h :: h in Live(states[j], user) ==> h in states[i + 1].tokens
  {
    var user := steps[i].claims.user;
    var later := set h | h in Live(states[j], user) && h !in states[i + 1].tokens;
    forall h ensures h in Live(states[j + 1], user) <==> h in later {
      CommitLeavesExactlyTheLater(states, steps, i, j, h);
    }
    assert Live(states[j + 1], user) == later;
    NoneLaterIff(Live(states[j], user), later, states[i + 1].tokens.Keys);
  }

  lemma NoneLaterIff(live: set<string>, later: set<string>, earlier: set<string>)
    requires forall h :: h in later <==> h in live && h !in earlier
    ensures later == {} <==> forall h :: h in live ==> h in earlier
  {
    if later == {} {
      forall h | h in live ensures h in earlier {
        assert h !in later;
      }
    }
  }

  /** An input for it: a token stored between a revocation's update and its commit can still be redeemed. */
  lemma StoredMeanwhileSurvives(s: State, c: Claims, r: nat, hash: string, expires: int)
    requires Enabled(s, Step.Revoke(c)) && r in s.inFlight && r < |s.requests| && s.requests[r].user == c.user
    requires hash !in s.tokens && s.now < expires
    ensures var n := |s.revokes|;
            && var updated := Do(s, Step.Revoke(c));
            && Enabled(updated, Insert(n)) && var inserted := Do(updated, Insert(n));
            && Enabled(inserted, Store(r, hash, expires)) && var stored := Do(inserted, Store(r, hash, expires));
            && Enabled(stored, Commit(n)) && var committed := Do(stored, Commit(n));
            && Redeemable(committed.tokens, hash, committed.now)
  {
  }

  // ---- Announcements

  /** Each outbox row is the announcement of one committed transaction, and each of those has one. */
  ghost predicate Announced(s: State) {
    && |s.outbox| == |s.announced| && Distinct(s.announced)
    && (forall k :: 0 <= k < |s.announced| ==> Announces(s, s.outbox[k], s.announced[k]))
    && (forall n: nat :: n < |s.revokes| && s.revokes[n].stage.Committed? ==> n in s.announced)
  }

  ghost predicate Announces(s: State, row: Revocation, n: nat) {
    n < |s.revokes| && s.revokes[n].stage.Committed? && row == RevocationOf(s.revokes[n].claims)
  }

  lemma StepKeepsAnnounced(s: State, step: Step)
    requires LocksHold(s) && Announced(s) && Enabled(s, step)
    ensures Announced(Do(s, step))
  {
    var s' := Do(s, step);
    forall k | 0 <= k < |s'.announced| ensures Announces(s', s'.outbox[k], s'.announced[k]) {
      if k < |s.announced| {
        assert Announces(s, s.outbox[k], s.announced[k]);
      } else {
        assert RowFits(s.revokes[step.revoke]);
      }
    }
    forall n: nat | n < |s'.revokes| && s'.revokes[n].stage.Committed? ensures n in s'.announced {
      if step.Commit? && step.revoke == n {
        assert s'.announced[|s.announced|] == n;
      } else {
        assert n < |s.revokes| && s.revokes[n].stage.Committed?;
      }
    }
    if step.Commit? {
      forall k | 0 <= k < |s.announced| ensures s.announced[k] != step.revoke {
        assert Announces(s, s.outbox[k], s.announced[k]);
      }
    }
  }

  lemma {:induction false} RunsAnnounce(states: seq<State>, steps: seq<Step>, i: nat)
    requires Run(states, steps) && i < |states|
    ensures Announced(states[i]) && LocksHold(states[i])
  {
    RunsHoldLocks(states, steps, i);
    if i != 0 {
      RunsAnnounce(states, steps, i - 1);
      StepKeepsAnnounced(states[i - 1], steps[i - 1]);
    }
  }

  /**
   Although the two statements run apart, committed revocations and queued announcements correspond
   one to one, and where there is an announcement every token its transaction found is spent.
   */
  lemma RevokesAreAnnounced(states: seq<State>, steps: seq<Step>, i: nat, n: nat)
    requires Run(states, steps) && i < |states| && n < |states[i].revokes|
    ensures |states[i].outbox| == |states[i].announced| && Distinct(states[i].announced)
    ensures n in states[i].announced <==> states[i].revokes[n].stage.Committed?
    ensures forall k :: 0 <= k < |states[i].announced| && states[i].announced[k] == n ==>
              && states[i].outbox[k] == RevocationOf(states[i].revokes[n].claims)
              && forall h :: h in states[i].revokes[n].held ==> h in states[i].tokens && states[i].tokens[h].revoked
  {
    RunsAnnounce(states, steps, i);
    var s := states[i];
    forall k | 0 <= k < |s.announced| && s.announced[k] == n
      ensures s.revokes[n].stage.Committed? && s.outbox[k] == RevocationOf(s.revokes[n].claims)
    {
      assert Announces(s, s.outbox[k], s.announced[k]);
    }
    forall h | h in s.revokes[n].held && s.revokes[n].stage.Committed? ensures h in s.tokens && s.tokens[h].revoked {
      assert CommittedHeld(s, n, h);
    }
  }

  // ---- The handlers take the machine's steps

  /** Taking the steps one after the other, each enabled, leads from s to t. */
  ghost predicate Leads(s: State, steps: seq<Step>, t: State)
    decreases |steps|
  {
    if steps == [] then s == t else Enabled(s, steps[0]) && Leads(Do(s, steps[0]), steps[1..], t)
  }

  lemma TwoStepsLead(s: State, first: Step, second: Step)
    requires Enabled(s, first) && Enabled(Do(s, first), second)
    ensures Leads(s, [first, second], Do(Do(s, first), second))
  {
    var t := Do(Do(s, first), second);
    assert [second][1..] == [] && [first, second][1..] == [second];
    assert Leads(t, [], t) && Leads(Do(s, first), [second], t);
  }

  lemma ThreeStepsLead(s: State, first: Step, second: Step, third: Step)
    requires Enabled(s, first) && Enabled(Do(s, first), second) && Enabled(Do(Do(s, first), second), third)
    ensures Leads(s, [first, second, third], Do(Do(Do(s, first), second), third))
  {
    TwoStepsLead(Do(s, first), second, third);
    assert [first, second, third][1..] == [second, third];
  }

  /** How a login request shows in the machine, by its response. */
  function LoginSteps(response: Response, r: nat, user: string, expires: int): seq<Step> {
    match response
    case Granted(drawn) => [Step.Login(user), Store(r, drawn, expires)]
    case InternalError => [Step.Login(user), Drop(r)]
    case _ => []
  }

  /** Whatever a login answers, the machine takes the steps of that answer and ends with the same tokens. */
  lemma LoginIsARun(
      s: State, user: Option<string>, passwordMatches: bool, drawn: string, expires: int, available: bool)
    returns (t: State)
    ensures var outcome := LoginOutcome(s.tokens, user, passwordMatches, drawn, expires, available);
            && Leads(s, LoginSteps(outcome.response, |s.requests|, user.GetOr(""), expires), t)
            && t.tokens == outcome.tokens
  {
    var response := LoginOutcome(s.tokens, user, passwordMatches, drawn, expires, available).response;
    t := s;
    if !response.Unauthorized? {
      var r, begun := |s.requests|, Do(s, Step.Login(user.value));
      var last := if response.Granted? then Store(r, drawn, expires) else Drop(r);
      TwoStepsLead(s, Step.Login(user.value), last);
      t := Do(begun, last);
    }
  }

  /** How a refresh request shows in the machine, by its response. */
  function RefreshSteps(response: Response, r: nat, hash: string, expires: int): seq<Step> {
    match response
    case Granted(drawn) => [Consume(hash), Store(r, drawn, expires)]
    case InternalError => [Consume(hash), Drop(r)]
    case _ => []
  }

  /** Whatever a refresh answers, where the token's row is not locked at that moment. */
  lemma RefreshIsARun(s: State, hash: string, userFound: bool, drawn: string, expires: int, available: bool)
    returns (t: State)
    requires !Locked(s, hash)
    ensures var outcome := RefreshOutcome(s.tokens, hash, s.now, userFound, drawn, expires, available);
            && Leads(s, RefreshSteps(outcome.response, |s.requests|, hash, expires), t)
            && t.tokens == outcome.tokens
  {
    var response := RefreshOutcome(s.tokens, hash, s.now, userFound, drawn, expires, available).response;
    t := s;
    if !response.Unauthorized? {
      var r, consumed := |s.requests|, Do(s, Consume(hash));
      var last := if response.Granted? then Store(r, drawn, expires) else Drop(r);
      TwoStepsLead(s, Consume(hash), last);
      t := Do(consumed, last);
    }
  }

  /** How a revoke request shows in the machine, by its response. */
  function RevokeSteps(response: Response, n: nat, c: Claims): seq<Step> {
    match response
    case Accepted => [Step.Revoke(c), Insert(n), Commit(n)]
    case InternalError => [Step.Revoke(c), Insert(n), Rollback(n)]
    case _ => []
  }

  /** Whatever a revocation answers, where no other one has rows locked that its update would change. */
  lemma RevokeIsARun(s: State, claims: Option<Claims>, commits: bool) returns (t: State)
    requires claims.Some? ==> Enabled(s, Step.Revoke(claims.value))
    ensures var outcome := RevokeOutcome(s.tokens, s.outbox, claims, s.now, commits);
            && Leads(s, RevokeSteps(outcome.response, |s.revokes|, claims.GetOr(Claims("", "", 0))), t)
            && t.tokens == outcome.tokens && t.outbox == outcome.outbox
  {
    var response := RevokeOutcome(s.tokens, s.outbox, claims, s.now, commits).response;
    t := s;
    if !response.Unauthorized? {
      var n, c := |s.revokes|, claims.value;
      var last := if response.Accepted? then Commit(n) else Rollback(n);
      ThreeStepsLead(s, Step.Revoke(c), Insert(n), last);
      t := Do(Do(Do(s, Step.Revoke(c)), Insert(n)), last);
    }
  }
}
