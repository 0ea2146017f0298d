/**
 The whole path of a revocation as one system: revoking transactions in the auth service, its outbox,
 any number of relays whose locks end with their claims, the broker's log, and the two denylists.
 */
module RevocationPipeline {
  import opened Common
  import opened Denylists
  import RefreshTokens
  import Publishing

  /** `issued` are the access tokens; the denylists share the auth service's clock. */
  datatype System = System(
    issued: map<string, Claims>, auth: RefreshTokens.State,
    pub: Publishing.State<Revocation>, deny: Denylists.State)

  datatype Step =
    | Issue(claims: Claims)
    | Auth(request: RefreshTokens.Step)
    | Relay(publishing: Publishing.Step<Revocation>)
    | Deny(consuming: Denylists.Step)

  /** The topic's log: the payloads of the outbox rows the broker took, in its order. */
  function LogOf(p: Publishing.State<Revocation>): (log: seq<Payload>)
    ensures |log| == |p.log|
    ensures forall k :: 0 <= k < |p.log| && p.log[k] < |p.rows| ==> log[k] == PayloadOf(p.rows[p.log[k]].event)
  {
    seq(|p.log|, k requires 0 <= k < |p.log| =>
      if p.log[k] < |p.rows| then PayloadOf(p.rows[p.log[k]].event) else NotObject)
  }

  function FeedOf(s: System): Feed {
    Feed(s.auth.now, s.issued, LogOf(s.pub))
  }

  /** A request may revoke what the auth service verifies: an unexpired token it issued. */
  predicate Verified(s: System, c: Claims) {
    c.tokenId in s.issued && s.issued[c.tokenId] == c && s.auth.now < c.expires
  }

  /** The outbox row a step of the auth service commits, if it commits one. */
  function RowsCommitted(s: System, request: RefreshTokens.Step): (rows: seq<Revocation>)
    requires RefreshTokens.Enabled(s.auth, request)
  {
    if request.Commit? then [s.auth.revokes[request.revoke].stage.row] else []
  }

  function Through(p: Publishing.State<Revocation>, rows: seq<Revocation>): Publishing.State<Revocation> {
    if rows == [] then p else Publishing.Do(p, Publishing.Write(rows[0]))
  }

  ghost predicate Next(s: System, step: Step, t: System) {
    match step
    case Issue(c) =>
      && c.tokenId != "" && Fits(RevocationOf(c)) && c.tokenId !in s.issued && s.auth.now < c.expires
      && t == s.(issued := s.issued[c.tokenId := c])
    case Auth(a) =>
      && RefreshTokens.Enabled(s.auth, a)
      && (a.Revoke? ==> Verified(s, a.claims))
      && t == s.(auth := RefreshTokens.Do(s.auth, a), pub := Through(s.pub, RowsCommitted(s, a)))
    case Relay(p) =>
      && Publishing.Enabled(s.pub, p) && !p.Write?
      && t == s.(pub := Publishing.Do(s.pub, p))
    case Deny(d) =>
      && !d.Wait? && Denylists.Enabled(FeedOf(s), s.deny, d)
      && t == s.(deny := Denylists.Do(FeedOf(s), s.deny, d))
  }

  ghost predicate Init(s: System) {
    && s.issued == map[] && RefreshTokens.Init(s.auth) && Publishing.Init(s.pub) && !s.pub.locks
    && Denylists.Init(s.deny)
  }

  ghost predicate Run(states: seq<System>, steps: seq<Step>) {
    && |states| == |steps| + 1 && Init(states[0])
    && forall i :: 0 <= i < |steps| ==> Next(states[i], steps[i], states[i + 1])
  }

  // ---- The outbox is the auth service's announcements

  /** The rows the relays see are the announcements of committed revocations, each of an issued token. */
  ghost predicate Joined(s: System) {
    && |s.pub.rows| == |s.auth.outbox|
    && (forall e :: 0 <= e < |s.pub.rows| ==> s.pub.rows[e].event == s.auth.outbox[e])
    && (forall t :: t in s.issued ==> t != "" && s.issued[t].tokenId == t && Fits(RevocationOf(s.issued[t])))
    && (forall n :: 0 <= n < |s.auth.revokes| ==> OfIssued(s, s.auth.revokes[n].claims))
  }

  ghost predicate OfIssued(s: System, c: Claims) {
    c.tokenId in s.issued && s.issued[c.tokenId] == c
  }

  ghost predicate Sound(s: System) {
    && RefreshTokens.LocksHold(s.auth) && RefreshTokens.Announced(s.auth)
    && Joined(s)
    && Publishing.Safe(s.pub) && !s.pub.locks
  }

  lemma AuthStepKeepsSound(s: System, a: RefreshTokens.Step, t: System)
    requires Sound(s) && Next(s, Auth(a), t)
    ensures Sound(t)
  {
    RefreshTokens.StepKeepsLocks(s.auth, a);
    RefreshTokens.StepKeepsAnnounced(s.auth, a);
    if a.Commit? {
      Publishing.StepKeepsSafe(s.pub, Publishing.Write(s.auth.revokes[a.revoke].stage.row));
    }
    forall n | 0 <= n < |t.auth.revokes| ensures OfIssued(t, t.auth.revokes[n].claims) {
      if n < |s.auth.revokes| {
        RefreshTokens.StepKeepsRevokes(s.auth, a, n);
        assert OfIssued(s, s.auth.revokes[n].claims);
      }
    }
  }

  lemma StepKeepsSound(s: System, step: Step, t: System)
    requires Sound(s) && Next(s, step, t)
    ensures Sound(t)
  {
    match step
    case Issue(c) =>
      forall n | 0 <= n < |t.auth.revokes| ensures OfIssued(t, t.auth.revokes[n].claims) {
        assert OfIssued(s, s.auth.revokes[n].claims);
      }
    case Auth(a) => AuthStepKeepsSound(s, a, t);
    case Relay(p) =>
      Publishing.StepKeepsSafe(s.pub, p);
      Publishing.StepExtends(s.pub, p);
    case Deny(_) =>
  }

  lemma {:induction false} EveryRunIsSound(states: seq<System>, steps: seq<Step>, i: nat)
    requires Run(states, steps) && i < |states|
    ensures Sound(states[i])
  {
    if i != 0 {
      EveryRunIsSound(states, steps, i - 1);
      StepKeepsSound(states[i - 1], steps[i - 1], states[i]);
    }
  }

  /** Revocation number n committed, and announced this. */
  ghost predicate WasRevoked(s: System, n: nat, r: Revocation) {
    RefreshTokens.Announces(s.auth, r, n)
  }

  lemma RowsWereRevoked(s: System, e: nat) returns (n: nat)
    requires Sound(s) && e < |s.pub.rows|
    ensures WasRevoked(s, n, s.pub.rows[e].event)
  {
    n := s.auth.announced[e];
    assert RefreshTokens.Announces(s.auth, s.auth.outbox[e], n);
  }

  lemma PublishedIsLogged(s: System, e: nat)
    requires Sound(s) && e < |s.pub.rows| && s.pub.rows[e].published
    ensures PayloadOf(s.pub.rows[e].event) in LogOf(s.pub)
  {
    var k :| 0 <= k < |s.pub.log| && s.pub.log[k] == e;
    assert LogOf(s.pub)[k] == PayloadOf(s.pub.rows[e].event);
  }

  lemma LoggedWasRevoked(s: System, k: nat) returns (n: nat)
    requires Sound(s) && k < |s.pub.log|
    ensures IsAnnouncement(s, LogOf(s.pub)[k])
  {
    n := RowsWereRevoked(s, s.pub.log[k]);
    assert WasRevoked(s, n, s.pub.rows[s.pub.log[k]].event);
  }

  lemma RevokedHasRow(s: System, n: nat) returns (e: nat)
    requires Sound(s) && n < |s.auth.revokes| && s.auth.revokes[n].stage.Committed?
    ensures e < |s.pub.rows| && WasRevoked(s, n, s.pub.rows[e].event)
  {
    var k :| 0 <= k < |s.auth.announced| && s.auth.announced[k] == n;
    e := k;
    assert RefreshTokens.Announces(s.auth, s.auth.outbox[e], n);
  }

  ghost predicate PublishedAreLogged(s: System) {
    forall e: nat :: e < |s.pub.rows| && s.pub.rows[e].published ==> PayloadOf(s.pub.rows[e].event) in LogOf(s.pub)
  }

  ghost predicate LoggedWereRevoked(s: System) {
    forall k: nat :: k < |LogOf(s.pub)| ==> IsAnnouncement(s, LogOf(s.pub)[k])
  }

  ghost predicate IsAnnouncement(s: System, p: Payload) {
    exists n, r :: WasRevoked(s, n, r) && p == PayloadOf(r)
  }

  ghost predicate RevokedHaveRows(s: System) {
    forall n: nat :: n < |s.auth.revokes| && s.auth.revokes[n].stage.Committed? ==>
      exists e :: 0 <= e < |s.pub.rows| && WasRevoked(s, n, s.pub.rows[e].event)
  }

  /**
   Outbox safety for the auth service, with any number of relays that hold no locks, partial
   acknowledgements, crashes and rollbacks: a row marked published has its payload in the log, every
   record in the log is the announcement of a committed revocation, and each of those has a row.
   */
  lemma PublishedIsLoggedIsRevoked(states: seq<System>, steps: seq<Step>, i: nat)
    requires Run(states, steps) && i < |states|
    ensures PublishedAreLogged(states[i]) && LoggedWereRevoked(states[i]) && RevokedHaveRows(states[i])
  {
    EveryRunIsSound(states, steps, i);
    SoundPublishedAreLogged(states[i]);
    SoundLoggedWereRevoked(states[i]);
    SoundRevokedHaveRows(states[i]);
  }

  lemma SoundPublishedAreLogged(s: System)
    requires Sound(s)
    ensures PublishedAreLogged(s)
  {
    forall e: nat | e < |s.pub.rows| && s.pub.rows[e].published
      ensures PayloadOf(s.pub.rows[e].event) in LogOf(s.pub)
    {
      PublishedIsLogged(s, e);
    }
  }

  lemma SoundLoggedWereRevoked(s: System)
    requires Sound(s)
    ensures LoggedWereRevoked(s)
  {
    forall k: nat | k < |LogOf(s.pub)| ensures IsAnnouncement(s, LogOf(s.pub)[k]) {
      var n := LoggedWasRevoked(s, k);
    }
  }

  lemma SoundRevokedHaveRows(s: System)
    requires Sound(s)
    ensures RevokedHaveRows(s)
  {
    forall n: nat | n < |s.auth.revokes| && s.auth.revokes[n].stage.Committed?
      ensures exists e :: 0 <= e < |s.pub.rows| && WasRevoked(s, n, s.pub.rows[e].event)
    {
      var e := RevokedHasRow(s, n);
    }
  }

  // ---- The denylists run on this log

  lemma SoundFeedIsValid(s: System)
    requires Sound(s)
    ensures ValidFeed(FeedOf(s))
  {
    var f := FeedOf(s);
    forall k | 0 <= k < |f.log| ensures GenuineIfRead(f, f.log[k]) {
      var n := RowsWereRevoked(s, s.pub.log[k]);
      assert OfIssued(s, s.auth.revokes[n].claims);
      QueuedIsRead(map[], s.pub.rows[s.pub.log[k]].event);
    }
  }

  /** What a step is to the denylists: one of their own, or time passing around them. */
  function AsDenylistStep(step: Step): Denylists.Step {
    if step.Deny? then step.consuming else Wait
  }

  lemma LogExtends(p: Publishing.State<Revocation>, q: Publishing.State<Revocation>)
    requires Publishing.Safe(p) && Publishing.Extends(p, q)
    ensures LogOf(p) <= LogOf(q)
  {
    forall k | 0 <= k < |p.log| ensures LogOf(p)[k] == LogOf(q)[k] {
      assert p.log[k] == q.log[k] && p.log[k] < |p.rows|;
    }
  }

  lemma StepIsDenylistStep(s: System, step: Step, t: System)
    requires Sound(s) && Next(s, step, t)
    ensures Denylists.Next(FeedOf(s), s.deny, AsDenylistStep(step), FeedOf(t), t.deny)
  {
    match step
    case Auth(a) =>
      var rows := RowsCommitted(s, a);
      if rows != [] {
        Publishing.StepExtends(s.pub, Publishing.Write(rows[0]));
        LogExtends(s.pub, t.pub);
      }
    case Relay(p) =>
      Publishing.StepExtends(s.pub, p);
      LogExtends(s.pub, t.pub);
    case _ =>
  }

  ghost function FeedsOf(states: seq<System>): seq<Feed> {
    seq(|states|, i requires 0 <= i < |states| => FeedOf(states[i]))
  }

  ghost function DenylistsOf(states: seq<System>): seq<Denylists.State> {
    seq(|states|, i requires 0 <= i < |states| => states[i].deny)
  }

  ghost function DenylistSteps(steps: seq<Step>): seq<Denylists.Step> {
    seq(|steps|, i requires 0 <= i < |steps| => AsDenylistStep(steps[i]))
  }

  /** Every run of the system is a run of the denylists on valid feeds, so all that is proved of those holds here. */
  lemma RunsAreDenylistRuns(states: seq<System>, steps: seq<Step>)
    requires Run(states, steps)
    ensures Denylists.Run(FeedsOf(states), DenylistsOf(states), DenylistSteps(steps))
  {
    forall i | 0 <= i < |states| ensures ValidFeed(FeedsOf(states)[i]) {
      EveryRunIsSound(states, steps, i);
      SoundFeedIsValid(states[i]);
    }
    forall i | 0 <= i < |steps|
      ensures Denylists.Next(FeedsOf(states)[i], DenylistsOf(states)[i], DenylistSteps(steps)[i],
                             FeedsOf(states)[i + 1], DenylistsOf(states)[i + 1])
    {
      EveryRunIsSound(states, steps, i);
      StepIsDenylistStep(states[i], steps[i], states[i + 1]);
    }
  }

  // ---- End to end

  /** A service turns an unexpired token away for being revoked only if its revocation did commit. */
  lemma DeniedMeansRevoked(states: seq<System>, steps: seq<Step>, i: nat, t: string)
    requires Run(states, steps) && i < |states|
    requires t in states[i].deny.posts || t in states[i].deny.related
    ensures IdRevoked(states[i], t)
  {
    RunsAreDenylistRuns(states, steps);
    Denylists.RunsKeepInv(FeedsOf(states), DenylistsOf(states), DenylistSteps(steps), i);
    AppliedWereRevoked(states, steps, i);
  }

  ghost predicate IdRevoked(s: System, t: string) {
    exists n, r :: WasRevoked(s, n, r) && r.tokenId == t
  }

  /** Whatever either service has applied is the id of a token whose revocation committed. */
  ghost predicate AllRevokedFirst(s: System) {
    forall t :: t in s.deny.postsApplied || t in s.deny.relatedApplied ==> IdRevoked(s, t)
  }

  lemma {:induction false} AppliedWereRevoked(states: seq<System>, steps: seq<Step>, i: nat)
    requires Run(states, steps) && i < |states|
    ensures AllRevokedFirst(states[i])
  {
    if i != 0 {
      AppliedWereRevoked(states, steps, i - 1);
      EveryRunIsSound(states, steps, i - 1);
      StepKeepsRevokedFirst(states[i - 1], steps[i - 1], states[i]);
    }
  }

  lemma RevokedStays(s: System, step: Step, t: System, id: string)
    requires Next(s, step, t) && IdRevoked(s, id)
    ensures IdRevoked(t, id)
  {
    var n, r :| WasRevoked(s, n, r) && r.tokenId == id;
    assert WasRevoked(t, n, r);
  }

  /** What a record names was revoked. */
  lemma NamedWasRevoked(s: System, k: nat, id: string)
    requires Sound(s) && k < |LogOf(s.pub)| && id in Named(LogOf(s.pub)[k])
    ensures IdRevoked(s, id)
  {
    var n := RowsWereRevoked(s, s.pub.log[k]);
    assert WasRevoked(s, n, s.pub.rows[s.pub.log[k]].event);
  }

  lemma StepKeepsRevokedFirst(s: System, step: Step, t: System)
    requires Sound(s) && AllRevokedFirst(s) && Next(s, step, t)
    ensures AllRevokedFirst(t)
  {
    forall id | id in t.deny.postsApplied || id in t.deny.relatedApplied ensures IdRevoked(t, id) {
      AppliedIdWasRevoked(s, step, t, id);
      RevokedStays(s, step, t, id);
    }
  }

  lemma AppliedIdWasRevoked(s: System, step: Step, t: System, id: string)
    requires Sound(s) && AllRevokedFirst(s) && Next(s, step, t)
    requires id in t.deny.postsApplied || id in t.deny.relatedApplied
    ensures IdRevoked(s, id)
  {
    if !(id in s.deny.postsApplied || id in s.deny.relatedApplied) {
      NewIdIsNamed(FeedOf(s), s.deny, AsDenylistStep(step), id);
      NamedWasRevoked(s, NewAt(s.deny, AsDenylistStep(step)), id);
    }
  }

  lemma NewIdIsNamed(f: Feed, s: Denylists.State, step: Denylists.Step, id: string)
    requires Denylists.Enabled(f, s, step)
    requires var t := Denylists.Do(f, s, step); id in t.postsApplied || id in t.relatedApplied
    requires id !in s.postsApplied && id !in s.relatedApplied
    ensures NewAt(s, step) < |f.log| && id in Named(f.log[NewAt(s, step)])
  {
  }

  /** The place in the log that a step applies. */
  function NewAt(s: Denylists.State, step: Denylists.Step): nat {
    if step.PostsApply? && 0 < s.position then s.position - 1
    else if 0 < s.relatedPosition then s.relatedPosition - 1
    else 0
  }

  /**
   A committed revocation whose row is marked published is enforced: once the posts consumer has
   committed everything the log held, every later authentication of that token is rejected.
   */
  lemma PublishedAndReadIsEnforced(states: seq<System>, steps: seq<Step>, i: nat, j: nat, e: nat)
    requires Run(states, steps) && i <= j < |states|
    requires e < |states[i].pub.rows| && states[i].pub.rows[e].published
    requires states[i].deny.committed == |states[i].pub.log|
    ensures var t := states[i].pub.rows[e].event.tokenId;
            t in states[j].issued && !PostsAccepts(states[j].deny.posts, states[j].issued[t], states[j].auth.now)
  {
    var feeds, denies, denySteps := FeedsOf(states), DenylistsOf(states), DenylistSteps(steps);
    EveryRunIsSound(states, steps, i);
    var k := ReadAt(states[i], e);
    RunsAreDenylistRuns(states, steps);
    Denylists.CommittedMeansApplied(feeds, denies, denySteps, i, k);
    Denylists.RevokedIsNeverAcceptedAgain(feeds, denies, denySteps, i, j, states[i].pub.rows[e].event.tokenId);
  }

  /** A published row has a place in the log at which both services read its revocation. */
  lemma ReadAt(s: System, e: nat) returns (k: nat)
    requires Sound(s) && e < |s.pub.rows| && s.pub.rows[e].published
    ensures k < |LogOf(s.pub)| && LogOf(s.pub)[k] == PayloadOf(s.pub.rows[e].event)
    ensures PostsRead(LogOf(s.pub)[k]) == Revoked(s.pub.rows[e].event)
  {
    PublishedIsLogged(s, e);
    var j :| 0 <= j < |LogOf(s.pub)| && LogOf(s.pub)[j] == PayloadOf(s.pub.rows[e].event);
    k := j;
    var n := RowsWereRevoked(s, e);
    assert OfIssued(s, s.auth.revokes[n].claims);
    QueuedIsRead(map[], s.pub.rows[e].event);
  }

  /**
   The related service enforces it too, unless it passed over every record of it after a failure: the
   token of a published revocation that the service accepts with the whole log committed.
   */
  lemma RelatedEnforcesUnlessPassedOver(states: seq<System>, steps: seq<Step>, i: nat, e: nat)
    requires Run(states, steps) && i < |states|
    requires e < |states[i].pub.rows| && states[i].pub.rows[e].published
    requires states[i].deny.relatedCommitted == |states[i].pub.log|
    ensures var t := states[i].pub.rows[e].event.tokenId;
            && t in states[i].issued
            && (RelatedAccepts(states[i].deny.related, states[i].issued[t], states[i].auth.now)
                <==> states[i].auth.now < states[i].issued[t].expires && AllSkipped(states[i], t))
  {
    EveryRunIsSound(states, steps, i);
    RunsAreDenylistRuns(states, steps);
    var t := states[i].pub.rows[e].event.tokenId;
    var n := RowsWereRevoked(states[i], e);
    assert OfIssued(states[i], states[i].auth.revokes[n].claims);
    if states[i].auth.now < states[i].issued[t].expires {
      Denylists.RelatedAcceptsIffPassedOver(FeedsOf(states), DenylistsOf(states), DenylistSteps(steps), i, t);
    }
  }

  ghost predicate AllSkipped(s: System, t: string) {
    forall k: nat :: k < |LogOf(s.pub)| && t in Named(LogOf(s.pub)[k]) ==> Skipped(s.deny, k)
  }
}
