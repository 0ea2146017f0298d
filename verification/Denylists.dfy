/**
 Revoked access tokens: the two denylists fed by one topic, their purges, and the acceptance checks,
 run against one clock of whole seconds.
 */
module Denylists {
  import opened Common

  /** A verified token. Verification itself admits exactly the tokens the auth service issued. */
  datatype Claims = Claims(tokenId: string, user: string, expires: int)

  /** A revocation event's payload. */
  datatype Revocation = Revocation(tokenId: string, user: string, expires: int)

  /** A text field of a payload: its key is missing, it is null, or it has a value. */
  datatype Field = Missing | Null | Text(value: string)

  /**
   The expiry of a payload: its key is missing; it is no string; it has the form of a date that does not
   exist; it has no form of a date; or it is a moment.
   */
  datatype Date = NoKey | NotText | Impossible | Formless | At(seconds: int)

  datatype Payload = NotJson | NotObject | Object(tokenId: Field, user: Field, expires: Date)

  /**
   What a consumer makes of a record: a revocation to store; one it has already; a record its handler
   gives up on with an error it catches; or one whose error nobody catches, which ends the process.
   */
  datatype Reading = Revoked(revocation: Revocation) | Known | GivenUp | Fatal

  datatype Row = Row(user: string, expires: int)

  type Denylist = map<string, Row>

  function RevocationOf(c: Claims): Revocation {
    Revocation(c.tokenId, c.user, c.expires)
  }

  function RowOf(r: Revocation): Row {
    Row(r.user, r.expires)
  }

  // ---- What the services do to their tables

  /** The posts service overwrites. */
  function PostsApplied(d: Denylist, r: Revocation): Denylist {
    d[r.tokenId := RowOf(r)]
  }

  function Purged(d: Denylist, now: int): (p: Denylist)
    ensures forall t :: t in p <==> t in d && now < d[t].expires
    ensures forall t :: t in p ==> p[t] == d[t]
  {
    map t | t in d && now < d[t].expires :: d[t]
  }

  /** The related service keeps the first row it was given, and purges in the same transaction. */
  function RelatedApplied(d: Denylist, r: Revocation, now: int): Denylist {
    Purged(if r.tokenId in d then d else d[r.tokenId := RowOf(r)], now)
  }

  /** The posts service treats an empty token id as never revoked. */
  predicate PostsAccepts(d: Denylist, c: Claims, now: int) {
    now < c.expires && (c.tokenId == "" || c.tokenId !in d)
  }

  predicate RelatedAccepts(d: Denylist, c: Claims, now: int) {
    now < c.expires && c.tokenId !in d
  }

  // ---- What these do, field by field

  /** The posts service stores user and expiry under the token's id, over whatever was there. */
  lemma PostsAppliedMeans(d: Denylist, r: Revocation)
    ensures PostsApplied(d, r).Keys == d.Keys + {r.tokenId}
    ensures PostsApplied(d, r)[r.tokenId] == Row(r.user, r.expires)
    ensures forall t :: t in d && t != r.tokenId ==> PostsApplied(d, r)[t] == d[t]
  {
  }

  /** The related service keeps the row it has, or stores this one, and then only what expires later. */
  lemma RelatedAppliedMeans(d: Denylist, r: Revocation, now: int)
    ensures forall t :: t in RelatedApplied(d, r, now) <==>
              (t in d && now < d[t].expires) || (t == r.tokenId && t !in d && now < r.expires)
    ensures forall t :: t in d && now < d[t].expires ==> RelatedApplied(d, r, now)[t] == d[t]
    ensures r.tokenId !in d && now < r.expires ==> RelatedApplied(d, r, now)[r.tokenId] == Row(r.user, r.expires)
  {
  }

  /** A revocation carries the token's own id, user and expiry. */
  lemma RevocationMeans(id: string, user: string, expires: int)
    ensures RevocationOf(Claims(id, user, expires)) == Revocation(id, user, expires)
  {
  }

  /** The moment of expiry is too late for either service, and only the posts service passes over an empty id. */
  lemma AcceptanceAtTheEdges(d: Denylist, user: string, expires: int, id: string)
    ensures !PostsAccepts(d, Claims(id, user, expires), expires)
    ensures !RelatedAccepts(d, Claims(id, user, expires), expires)
    ensures id in d ==> !RelatedAccepts(d, Claims(id, user, expires), expires - 1)
    ensures id in d ==> (PostsAccepts(d, Claims(id, user, expires), expires - 1) <==> id == "")
    ensures id !in d ==> PostsAccepts(d, Claims(id, user, expires), expires - 1)
    ensures id !in d ==> RelatedAccepts(d, Claims(id, user, expires), expires - 1)
  {
  }

  // ---- How the services read a record

  /** The length of the id columns. */
  const ID_LENGTH: nat := 64

  /** The database takes it: neither null nor too long for its column. */
  predicate Storable(f: Field) {
    f.Text? && |f.value| <= ID_LENGTH
  }

  /** A date without the form of one is read as None, and the NOT NULL column refuses it like any other null. */
  function PostsRead(p: Payload): Reading {
    match p
    case NotJson => Fatal
    case NotObject => GivenUp
    case Object(tokenId, user, expires) =>
      if expires.NoKey? || expires.NotText? || expires.Impossible? then GivenUp
      else if tokenId.Missing? || user.Missing? then GivenUp
      else if expires.At? && Storable(tokenId) && Storable(user) then
        Revoked(Revocation(tokenId.value, user.value, expires.seconds))
      else Fatal
  }

  /** Here database errors are caught, and errors in reading the date are not, save for a missing key. */
  function RelatedRead(d: Denylist, p: Payload): Reading {
    match p
    case NotJson => Fatal
    case NotObject => GivenUp
    case Object(tokenId, user, expires) =>
      if expires.NoKey? then GivenUp
      else if !expires.At? then Fatal
      else if tokenId.Text? && tokenId.value in d then Known
      else if Storable(tokenId) && Storable(user) then
        Revoked(Revocation(tokenId.value, user.value, expires.seconds))
      else GivenUp
  }

  /** The handler of either service raises on reading these, before it comes to the database. */
  predicate KeyMissing(p: Payload) {
    p.Object? && (p.expires == NoKey || p.tokenId == Missing || p.user == Missing)
  }

  predicate NullOrTooLong(f: Field) {
    f == Null || (f.Text? && |f.value| > 64)
  }

  /** Which records the posts handler gives up on, which end the process, and what is left to be stored. */
  lemma PostsReadMeans(p: Payload)
    ensures PostsRead(p) == GivenUp
       <==> p == NotObject || KeyMissing(p) || (p.Object? && p.expires in {NotText, Impossible})
    ensures PostsRead(p) == Fatal
       <==> p == NotJson || (&& p.Object? && !KeyMissing(p) && p.expires !in {NotText, Impossible}
                             && (p.expires == Formless || NullOrTooLong(p.tokenId) || NullOrTooLong(p.user)))
    ensures PostsRead(p).Revoked? ==>
              p == Object(Text(PostsRead(p).revocation.tokenId), Text(PostsRead(p).revocation.user),
                          At(PostsRead(p).revocation.expires))
    ensures !PostsRead(p).Known?
  {
  }

  /** Which records the related handler reports as failed, which end its process, and which it has already. */
  lemma RelatedReadMeans(d: Denylist, p: Payload)
    ensures RelatedRead(d, p) == Fatal <==> p == NotJson || (p.Object? && p.expires in {NotText, Impossible, Formless})
    ensures RelatedRead(d, p) == Known
       <==> p.Object? && p.expires.At? && p.tokenId.Text? && p.tokenId.value in d
    ensures RelatedRead(d, p) == GivenUp
       <==> p == NotObject
            || (p.Object? && p.expires == NoKey)
            || (&& p.Object? && p.expires.At? && !(p.tokenId.Text? && p.tokenId.value in d)
                && (KeyMissing(p) || NullOrTooLong(p.tokenId) || NullOrTooLong(p.user)))
    ensures RelatedRead(d, p).Revoked? ==>
              p == Object(Text(RelatedRead(d, p).revocation.tokenId), Text(RelatedRead(d, p).revocation.user),
                          At(RelatedRead(d, p).revocation.expires))
  {
  }

  /** The payload the auth service queues. */
  function PayloadOf(r: Revocation): Payload {
    Object(Text(r.tokenId), Text(r.user), At(r.expires))
  }

  predicate Fits(r: Revocation) {
    |r.tokenId| <= ID_LENGTH && |r.user| <= ID_LENGTH
  }

  /** Both services read every revocation whose ids fit their columns. */
  lemma QueuedIsRead(d: Denylist, r: Revocation)
    requires Fits(r)
    ensures PostsRead(PayloadOf(r)) == Revoked(r)
    ensures RelatedRead(d, PayloadOf(r)) == if r.tokenId in d then Known else Revoked(r)
  {
  }

  /** A revocation that one service would store, the other would store too, or has already. */
  lemma ReadingsDiffer(d: Denylist, p: Payload)
    ensures RelatedRead(d, p).Revoked? ==> PostsRead(p) == RelatedRead(d, p)
    ensures PostsRead(p).Revoked? ==> RelatedRead(d, p) == PostsRead(p) || RelatedRead(d, p).Known?
  {
  }

  function PostsHandled(d: Denylist, p: Payload): Denylist {
    match PostsRead(p)
    case Revoked(r) => PostsApplied(d, r)
    case _ => d
  }

  function RelatedHandled(d: Denylist, p: Payload, now: int): Denylist {
    match RelatedRead(d, p)
    case Revoked(r) => RelatedApplied(d, r, now)
    case Known => Purged(d, now)
    case _ => d
  }

  /** The posts handler ends in an error it does not catch: the database fails it, or refuses the row. */
  predicate Raises(p: Payload, available: bool) {
    match PostsRead(p)
    case Revoked(_) => !available
    case GivenUp => false
    case _ => true
  }

  // ---- What one row is good for

  /**
   A row keeps its token out of both services for good, through a purge at any moment, exactly when it
   does not expire before the token does.
   */
  lemma RowOutlastsTokenIff(d: Denylist, c: Claims)
    requires c.tokenId in d && c.tokenId != ""
    ensures d[c.tokenId].expires >= c.expires
       <==> forall purge: int, now: int :: purge <= now ==> !PostsAccepts(Purged(d, purge), c, now)
    ensures d[c.tokenId].expires >= c.expires
       <==> forall purge: int, now: int :: purge <= now ==> !RelatedAccepts(Purged(d, purge), c, now)
  {
    var e := d[c.tokenId].expires;
    if e < c.expires {
      assert PostsAccepts(Purged(d, e), c, e);
      assert RelatedAccepts(Purged(d, e), c, e);
    }
  }

  // ---- The services

  class PostsDenylist {
    var rows: Denylist

    /**
     A payload the handler gives up on changes nothing and is committed anyway, so as not to block the
     partition; without a result the call has raised an error that ends the process.
     */
    method Apply(p: Payload, available: bool) returns (commit: Option<bool>)
      modifies this
      ensures commit == if Raises(p, available) then None else Some(true)
      ensures rows == if Raises(p, available) then old(rows) else PostsHandled(old(rows), p)
    {
      if p.NotJson? {
        return None;
      }
      if p.NotObject? || p.expires.NoKey? || p.expires.NotText? || p.expires.Impossible? {
        return Some(true);
      }
      if p.tokenId.Missing? || p.user.Missing? {
        return Some(true);
      }
      if !available || p.expires.Formless? || !Storable(p.tokenId) || !Storable(p.user) {
        return None;
      }
      rows := rows[p.tokenId.value := Row(p.user.value, p.expires.seconds)];
      commit := Some(true);
    }

    method PurgeExpired(now: int) returns (deleted: nat)
      modifies this
      ensures rows == Purged(old(rows), now)
      ensures deleted == |old(rows)| - |rows|
    {
      var expired := set t | t in rows && rows[t].expires <= now;
      deleted := |expired|;
      assert expired <= rows.Keys;
      assert Purged(rows, now).Keys == rows.Keys - expired;
      rows := rows - expired;
      assert rows == Purged(old(rows), now);
    }

    /** The table after a stretch of the log, in order. */
    static function AfterAll(d: Denylist, log: seq<Payload>): Denylist {
      if log == [] then d else PostsHandled(AfterAll(d, log[..|log| - 1]), log[|log| - 1])
    }

    /**
     One pass of the consuming loop from `start`. It crashes exactly when some message raises, with
     that message neither applied nor committed: a fatal one is met again by every later pass.
     */
    method Consume(log: seq<Payload>, start: nat, available: seq<bool>, now: int)
      returns (committed: nat, crashed: bool)
      requires start <= |log| == |available|
      modifies this
      ensures start <= committed <= |log|
      ensures crashed <==> exists k :: start <= k < |log| && Raises(log[k], available[k])
      ensures crashed ==> committed < |log| && Raises(log[committed], available[committed])
      ensures crashed ==> rows == AfterAll(old(rows), log[start..committed])
      ensures !crashed ==> committed == |log| && rows == Purged(AfterAll(old(rows), log[start..]), now)
    {
      committed, crashed := start, false;
      assert log[start..start] == [];
      while committed < |log|
        invariant start <= committed <= |log| && !crashed
        invariant forall k :: start <= k < committed ==> !Raises(log[k], available[k])
        invariant rows == AfterAll(old(rows), log[start..committed])
      {
        assert log[start..committed + 1][..committed - start] == log[start..committed];
        var commit := Apply(log[committed], available[committed]);
        if commit.None? {
          crashed := true;
          return;
        }
        committed := committed + 1;
      }
      assert log[start..committed] == log[start..];
      var deleted := PurgeExpired(now);
    }

    method Authenticate(c: Claims, now: int) returns (accepted: bool)
      ensures accepted <==> PostsAccepts(rows, c, now)
    {
      if c.expires <= now {
        return false;
      }
      var revoked := c.tokenId != "" && c.tokenId in rows;
      accepted := !revoked;
    }
  }

  class RelatedDenylist {
    var rows: Denylist

    /** `Some(false)` is a failure the message handler reports; without a result the process ends. */
    method ApplyTokenRevoked(p: Payload, now: int, available: bool) returns (ok: Option<bool>)
      modifies this
      ensures ok == match RelatedRead(old(rows), p)
                    case Fatal => None
                    case GivenUp => Some(false)
                    case _ => Some(available)
      ensures rows == if ok == Some(true) then RelatedHandled(old(rows), p, now) else old(rows)
      ensures ok == Some(true) ==> forall t :: t in rows ==> now < rows[t].expires
    {
      if p.NotJson? {
        return None;
      }
      if p.NotObject? || p.expires.NoKey? {
        return Some(false);
      }
      if !p.expires.At? {
        return None;
      }
      if !available {
        return Some(false);
      }
      if !(p.tokenId.Text? && p.tokenId.value in rows) {
        if !Storable(p.tokenId) || !Storable(p.user) {
          return Some(false);
        }
        rows := rows[p.tokenId.value := Row(p.user.value, p.expires.seconds)];
      }
      rows := map t | t in rows && now < rows[t].expires :: rows[t];
      ok := Some(true);
    }

    method RequireAuth(c: Claims, now: int) returns (accepted: bool)
      ensures accepted <==> RelatedAccepts(rows, c, now)
    {
      accepted := now < c.expires && c.tokenId !in rows;
    }
  }

  // ---- The consumers as a step machine

  /** What the consumers depend on: the clock, the tokens issued, and the topic's log. */
  datatype Feed = Feed(now: int, issued: map<string, Claims>, log: seq<Payload>)

  /**
   Both consumers read the log in order. The applied sets hold the ids of tokens whose revocation each
   service has applied at some time; `done` are the places the related service handled with success,
   `failed` those that failed since it last started, `passedOver` those an offset commit went past.
   */
  datatype State = State(
    posts: Denylist, postsApplied: set<string>, position: nat, committed: nat, inHand: bool,
    related: Denylist, relatedApplied: set<string>, relatedPosition: nat, relatedCommitted: nat, relatedInHand: bool,
    done: set<nat>, failed: set<nat>, passedOver: set<nat>)

  /** `Wait` is everything that happens elsewhere: time passes, tokens are issued, the log grows. */
  datatype Step =
    | Wait
    | PostsDeliver
    | PostsApply
    | PostsCommit
    | PostsCrash
    | PostsPurge
    | RelatedDeliver
    | RelatedApply(confirmed: bool)
    | RelatedFail
    | RelatedCommit
    | RelatedRestart

  ghost predicate Init(s: State) {
    && s.posts == map[] && s.postsApplied == {} && s.position == 0 && s.committed == 0 && !s.inHand
    && s.related == map[] && s.relatedApplied == {}
    && s.relatedPosition == 0 && s.relatedCommitted == 0 && !s.relatedInHand
    && s.done == {} && s.failed == {} && s.passedOver == {}
  }

  predicate InRelatedHand(f: Feed, s: State) {
    s.relatedInHand && 0 < s.relatedPosition <= |f.log|
  }

  /**
   A commit of the related consumer may follow any success, also on another topic it reads; and one that
   was applied still counts as failed when the confirmation of its transaction is lost.
   */
  predicate Enabled(f: Feed, s: State, step: Step) {
    match step
    case Wait => true
    case PostsDeliver => !s.inHand && s.position < |f.log|
    case PostsApply => s.inHand && 0 < s.position <= |f.log| && !PostsRead(f.log[s.position - 1]).Fatal?
    case PostsCommit => !s.inHand
    case PostsCrash => true
    case PostsPurge => true
    case RelatedDeliver => !s.relatedInHand && s.relatedPosition < |f.log|
    case RelatedApply(_) =>
      InRelatedHand(f, s)
      && var r := RelatedRead(s.related, f.log[s.relatedPosition - 1]); r.Revoked? || r.Known?
    case RelatedFail => InRelatedHand(f, s) && !RelatedRead(s.related, f.log[s.relatedPosition - 1]).Fatal?
    case RelatedCommit => !s.relatedInHand
    case RelatedRestart => true
  }

  function Do(f: Feed, s: State, step: Step): State
    requires Enabled(f, s, step)
  {
    match step
    case Wait => s
    case PostsDeliver => s.(inHand := true, position := s.position + 1)
    case PostsApply =>
      var p := f.log[s.position - 1];
      s.(inHand := false, posts := PostsHandled(s.posts, p), postsApplied := s.postsApplied + Named(p))
    case PostsCommit => s.(committed := s.position)
    case PostsCrash => s.(inHand := false, position := s.committed)
    case PostsPurge => s.(posts := Purged(s.posts, f.now))
    case RelatedDeliver => s.(relatedInHand := true, relatedPosition := s.relatedPosition + 1)
    case RelatedApply(confirmed) =>
      var at := s.relatedPosition - 1;
      s.(relatedInHand := false, related := RelatedHandled(s.related, f.log[at], f.now),
         relatedApplied := s.relatedApplied + Named(f.log[at]), done := s.done + {at},
         failed := if confirmed then s.failed else s.failed + {at})
    case RelatedFail => s.(relatedInHand := false, failed := s.failed + {s.relatedPosition - 1})
    case RelatedCommit => s.(relatedCommitted := s.relatedPosition, passedOver := s.passedOver + s.failed)
    case RelatedRestart => s.(relatedInHand := false, relatedPosition := s.relatedCommitted, failed := {})
  }

  /** The id of the token a payload revokes, if it is one both services can store. */
  function Named(p: Payload): set<string> {
    match PostsRead(p)
    case Revoked(r) => {r.tokenId}
    case _ => {}
  }

  // ---- Invariants

  /** A revocation names an issued token and carries that token's own expiry. */
  predicate Genuine(f: Feed, r: Revocation) {
    r.tokenId in f.issued && r == RevocationOf(f.issued[r.tokenId])
  }

  predicate GenuineIfRead(f: Feed, p: Payload) {
    PostsRead(p).Revoked? ==> Genuine(f, PostsRead(p).revocation)
  }

  /** Tokens have ids, and revocations in the log are of issued tokens. */
  ghost predicate ValidFeed(f: Feed) {
    && (forall t :: t in f.issued ==> t != "" && f.issued[t].tokenId == t)
    && (forall k :: 0 <= k < |f.log| ==> GenuineIfRead(f, f.log[k]))
  }

  ghost predicate FeedGrows(f: Feed, g: Feed) {
    && f.now <= g.now && f.log <= g.log
    && forall t :: t in f.issued ==> t in g.issued && g.issued[t] == f.issued[t]
  }

  ghost predicate Next(f: Feed, s: State, step: Step, g: Feed, t: State) {
    Enabled(f, s, step) && t == Do(f, s, step) && if step.Wait? then FeedGrows(f, g) else g == f
  }

  ghost predicate Run(feeds: seq<Feed>, states: seq<State>, steps: seq<Step>) {
    && |feeds| == |states| == |steps| + 1 && Init(states[0])
    && (forall i :: 0 <= i < |feeds| ==> ValidFeed(feeds[i]))
    && forall i :: 0 <= i < |steps| ==> Next(feeds[i], states[i], steps[i], feeds[i + 1], states[i + 1])
  }

  /** The table holds only rows of applied revocations, and all of those not yet expired. */
  ghost predicate Kept(f: Feed, d: Denylist, applied: set<string>) {
    && (forall t :: t in applied ==> t in f.issued)
    && (forall t :: t in d ==> t in applied && d[t] == RowOf(RevocationOf(f.issued[t])))
    && (forall t :: t in applied && f.now < f.issued[t].expires ==> t in d)
  }

  /** What the posts consumer has been handed and is not still holding has been dealt with. */
  ghost predicate ReadersSafe(f: Feed, s: State) {
    && s.committed <= |f.log| && s.position <= |f.log| && (s.inHand ==> 0 < s.position)
    && AllHandled(f, s, s.committed)
    && AllHandled(f, s, if s.inHand then s.position - 1 else s.position)
  }

  ghost predicate AllHandled(f: Feed, s: State, upTo: int) {
    forall k :: 0 <= k < upTo && k < |f.log| ==>
      !PostsRead(f.log[k]).Fatal? && Named(f.log[k]) <= s.postsApplied
  }

  /**
   Below the related consumer's committed offset every record was handled with success, or failed and was
   passed over; and the applied ids are those the records handled with success name.
   */
  ghost predicate RelatedSafe(f: Feed, s: State) {
    && s.relatedCommitted <= |f.log| && s.relatedPosition <= |f.log| && (s.relatedInHand ==> 0 < s.relatedPosition)
    && (forall k: nat :: k < s.relatedCommitted ==> k in s.done || k in s.passedOver)
    && (forall k: nat :: k < (if s.relatedInHand then s.relatedPosition - 1 else s.relatedPosition) ==>
          k in s.done || k in s.failed || k in s.passedOver)
    && (forall k: nat :: k in s.done ==> k < |f.log| && Named(f.log[k]) <= s.relatedApplied)
    && (forall t :: t in s.relatedApplied ==> DoneNames(f, s, t))
  }

  ghost predicate DoneNames(f: Feed, s: State, t: string) {
    exists k: nat :: k in s.done && k < |f.log| && t in Named(f.log[k])
  }

  ghost predicate Inv(f: Feed, s: State) {
    && Kept(f, s.posts, s.postsApplied)
    && Kept(f, s.related, s.relatedApplied)
    && ReadersSafe(f, s) && RelatedSafe(f, s)
  }

  lemma KeptThroughApply(f: Feed, d: Denylist, applied: set<string>, r: Revocation)
    requires ValidFeed(f) && Kept(f, d, applied) && Genuine(f, r)
    ensures Kept(f, d[r.tokenId := RowOf(r)], applied + {r.tokenId})
    ensures r.tokenId in d ==> Kept(f, d, applied + {r.tokenId})
  {
  }

  lemma KeptThroughPurge(f: Feed, d: Denylist, applied: set<string>)
    requires Kept(f, d, applied)
    ensures Kept(f, Purged(d, f.now), applied)
  {
  }

  /** Time passing and tokens being issued leave what a table must hold as it was, or less. */
  lemma KeptLater(f: Feed, g: Feed, d: Denylist, applied: set<string>)
    requires Kept(f, d, applied) && FeedGrows(f, g)
    ensures Kept(g, d, applied)
  {
  }

  lemma StepKeepsPosts(f: Feed, s: State, step: Step)
    requires ValidFeed(f) && Kept(f, s.posts, s.postsApplied) && Enabled(f, s, step)
    ensures Kept(f, Do(f, s, step).posts, Do(f, s, step).postsApplied)
  {
    match step
    case PostsApply =>
      var p := f.log[s.position - 1];
      assert GenuineIfRead(f, p);
      if PostsRead(p).Revoked? {
        KeptThroughApply(f, s.posts, s.postsApplied, PostsRead(p).revocation);
      } else {
        assert s.postsApplied + {} == s.postsApplied;
      }
    case PostsPurge => KeptThroughPurge(f, s.posts, s.postsApplied);
    case _ =>
  }

  lemma StepKeepsRelated(f: Feed, s: State, step: Step)
    requires ValidFeed(f) && Kept(f, s.related, s.relatedApplied) && Enabled(f, s, step)
    ensures Kept(f, Do(f, s, step).related, Do(f, s, step).relatedApplied)
  {
    if step.RelatedApply? {
      var p := f.log[s.relatedPosition - 1];
      assert GenuineIfRead(f, p);
      ReadingsDiffer(s.related, p);
      if RelatedRead(s.related, p).Revoked? {
        var r := PostsRead(p).revocation;
        KeptThroughApply(f, s.related, s.relatedApplied, r);
        KeptThroughPurge(f, s.related[r.tokenId := RowOf(r)], s.relatedApplied + {r.tokenId});
      } else {
        KnownIsApplied(f, s.related, s.relatedApplied, p);
        assert s.relatedApplied + Named(p) == s.relatedApplied;
        KeptThroughPurge(f, s.related, s.relatedApplied);
      }
    }
  }

  lemma KnownIsApplied(f: Feed, d: Denylist, applied: set<string>, p: Payload)
    requires Kept(f, d, applied) && RelatedRead(d, p).Known?
    ensures Named(p) <= applied
  {
  }

  lemma StepKeepsReadersSafe(f: Feed, s: State, step: Step)
    requires ReadersSafe(f, s) && Enabled(f, s, step)
    ensures ReadersSafe(f, Do(f, s, step))
  {
  }

  lemma StepKeepsRelatedSafe(f: Feed, s: State, step: Step)
    requires RelatedSafe(f, s) && Enabled(f, s, step)
    ensures RelatedSafe(f, Do(f, s, step))
  {
    var s' := Do(f, s, step);
    forall t | t in s'.relatedApplied ensures DoneNames(f, s', t) {
      if t in s.relatedApplied {
        assert DoneNames(f, s, t);
        var k: nat :| k in s.done && k < |f.log| && t in Named(f.log[k]);
        assert k in s'.done;
      } else {
        assert s.relatedPosition - 1 in s'.done;
      }
    }
  }

  lemma FeedKeepsRelatedSafe(f: Feed, g: Feed, s: State)
    requires RelatedSafe(f, s) && FeedGrows(f, g)
    ensures RelatedSafe(g, s)
  {
    forall t | t in s.relatedApplied ensures DoneNames(g, s, t) {
      assert DoneNames(f, s, t);
      var k: nat :| k in s.done && k < |f.log| && t in Named(f.log[k]);
      assert g.log[k] == f.log[k];
    }
  }

  lemma StepKeepsInv(f: Feed, s: State, step: Step, g: Feed, t: State)
    requires ValidFeed(f) && Inv(f, s) && Next(f, s, step, g, t)
    ensures Inv(g, t)
  {
    StepKeepsPosts(f, s, step);
    StepKeepsRelated(f, s, step);
    StepKeepsReadersSafe(f, s, step);
    StepKeepsRelatedSafe(f, s, step);
    if step.Wait? {
      KeptLater(f, g, s.posts, s.postsApplied);
      KeptLater(f, g, s.related, s.relatedApplied);
      FeedKeepsRelatedSafe(f, g, s);
    }
  }

  lemma {:induction false} RunsKeepInv(feeds: seq<Feed>, states: seq<State>, steps: seq<Step>, i: nat)
    requires Run(feeds, states, steps) && i < |states|
    ensures Inv(feeds[i], states[i])
  {
    if i != 0 {
      RunsKeepInv(feeds, states, steps, i - 1);
      StepKeepsInv(feeds[i - 1], states[i - 1], steps[i - 1], feeds[i], states[i]);
    }
  }

  // ---- What every run guarantees

  /** What was applied or issued stays so, and time does not go back. */
  ghost predicate Grown(f: Feed, s: State, g: Feed, t: State) {
    FeedGrows(f, g) && s.postsApplied <= t.postsApplied && s.relatedApplied <= t.relatedApplied
  }

  lemma {:induction false} AppliedIsForGood(feeds: seq<Feed>, states: seq<State>, steps: seq<Step>, i: nat, j: nat)
    requires Run(feeds, states, steps) && i <= j < |states|
    ensures Grown(feeds[i], states[i], feeds[j], states[j])
    decreases j - i
  {
    if i < j {
      AppliedIsForGood(feeds, states, steps, i, j - 1);
      StepGrows(feeds[i], states[i], feeds[j - 1], states[j - 1], steps[j - 1], feeds[j], states[j]);
    }
  }

  lemma StepGrows(e: Feed, r: State, f: Feed, s: State, step: Step, g: Feed, t: State)
    requires Grown(e, r, f, s) && Next(f, s, step, g, t)
    ensures Grown(e, r, g, t)
  {
  }

  /** Each service accepts exactly the issued tokens that are unexpired and whose revocation it has not applied. */
  lemma AcceptanceIsExact(feeds: seq<Feed>, states: seq<State>, steps: seq<Step>, i: nat, t: string)
    requires Run(feeds, states, steps) && i < |states| && t in feeds[i].issued
    ensures var f, s, c := feeds[i], states[i], feeds[i].issued[t];
            && (PostsAccepts(s.posts, c, f.now) <==> f.now < c.expires && t !in s.postsApplied)
            && (RelatedAccepts(s.related, c, f.now) <==> f.now < c.expires && t !in s.relatedApplied)
  {
    RunsKeepInv(feeds, states, steps, i);
  }

  /** Once a service has applied a token's revocation it rejects the token at every later moment of the run. */
  lemma RevokedIsNeverAcceptedAgain(
      feeds: seq<Feed>, states: seq<State>, steps: seq<Step>, i: nat, j: nat, t: string)
    requires Run(feeds, states, steps) && i <= j < |states|
    ensures t in states[i].postsApplied ==>
              t in feeds[j].issued && !PostsAccepts(states[j].posts, feeds[j].issued[t], feeds[j].now)
    ensures t in states[i].relatedApplied ==>
              t in feeds[j].issued && !RelatedAccepts(states[j].related, feeds[j].issued[t], feeds[j].now)
  {
    AppliedIsForGood(feeds, states, steps, i, j);
    RunsKeepInv(feeds, states, steps, j);
  }

  /** The unexpired rows a service must have: one for each unexpired revocation it applied. */
  function Expected(f: Feed, applied: set<string>): Denylist {
    map t | t in applied && t in f.issued && f.now < f.issued[t].expires :: RowOf(RevocationOf(f.issued[t]))
  }

  /** Overwriting or first-write-wins, with any duplication, the unexpired rows are the same. */
  lemma DenylistsAgree(feeds: seq<Feed>, states: seq<State>, steps: seq<Step>, i: nat)
    requires Run(feeds, states, steps) && i < |states|
    ensures var f, s := feeds[i], states[i];
            && Purged(s.posts, f.now) == Expected(f, s.postsApplied)
            && Purged(s.related, f.now) == Expected(f, s.relatedApplied)
            && (s.postsApplied == s.relatedApplied ==> Purged(s.posts, f.now) == Purged(s.related, f.now))
  {
    RunsKeepInv(feeds, states, steps, i);
    KeptIsExpected(feeds[i], states[i].posts, states[i].postsApplied);
    KeptIsExpected(feeds[i], states[i].related, states[i].relatedApplied);
  }

  lemma KeptIsExpected(f: Feed, d: Denylist, applied: set<string>)
    requires Kept(f, d, applied)
    ensures Purged(d, f.now) == Expected(f, applied)
  {
  }

  /** Right after a purge a table is exactly the unexpired revocations its service has applied. */
  lemma PurgeLeavesExactlyTheUnexpired(feeds: seq<Feed>, states: seq<State>, steps: seq<Step>, i: nat)
    requires Run(feeds, states, steps) && i < |steps|
    ensures steps[i].PostsPurge? ==> states[i + 1].posts == Expected(feeds[i], states[i].postsApplied)
    ensures steps[i].RelatedApply? ==> states[i + 1].related == Expected(feeds[i], states[i + 1].relatedApplied)
  {
    RunsKeepInv(feeds, states, steps, i);
    RunsKeepInv(feeds, states, steps, i + 1);
    assert Next(feeds[i], states[i], steps[i], feeds[i + 1], states[i + 1]);
    if steps[i].PostsPurge? {
      KeptIsExpected(feeds[i], states[i].posts, states[i].postsApplied);
    }
    if steps[i].RelatedApply? {
      var next := states[i + 1];
      KeptIsExpected(feeds[i], next.related, next.relatedApplied);
      PurgedTwice(next.related, feeds[i].now);
    }
  }

  lemma PurgedTwice(d: Denylist, now: int)
    requires forall t :: t in d ==> now < d[t].expires
    ensures Purged(d, now) == d
  {
  }

  /** The posts consumer never commits an offset past a revocation it has not applied. */
  lemma CommittedMeansApplied(feeds: seq<Feed>, states: seq<State>, steps: seq<Step>, i: nat, k: nat)
    requires Run(feeds, states, steps) && i < |states| && k < states[i].committed
    ensures k < |feeds[i].log|
    ensures PostsRead(feeds[i].log[k]).Revoked? ==>
              && var t := PostsRead(feeds[i].log[k]).revocation.tokenId;
              && t in states[i].postsApplied && t in feeds[i].issued
              && !PostsAccepts(states[i].posts, feeds[i].issued[t], feeds[i].now)
  {
    RunsKeepInv(feeds, states, steps, i);
  }

  /**
   A record that is fatal to the posts consumer is never committed: while it is in the log the consumer's
   position never gets beyond it, and so no later revocation is ever applied from it on.
   */
  lemma FatalRecordBlocks(feeds: seq<Feed>, states: seq<State>, steps: seq<Step>, i: nat, k: nat)
    requires Run(feeds, states, steps) && i < |states| && k < |feeds[i].log| && PostsRead(feeds[i].log[k]).Fatal?
    ensures states[i].committed <= k && states[i].position <= k + 1
    ensures states[i].position == k + 1 ==> states[i].inHand && !Enabled(feeds[i], states[i], PostsApply)
  {
    RunsKeepInv(feeds, states, steps, i);
  }

  /** The record at this place revokes the token, and failed and was passed over without ever being applied. */
  ghost predicate Skipped(s: State, k: nat) {
    k in s.passedOver && k !in s.done
  }

  /**
   The related service, having committed the whole log, still accepts a revoked token while it lives
   exactly when every record of its revocation was passed over after a failure.
   */
  lemma RelatedAcceptsIffPassedOver(feeds: seq<Feed>, states: seq<State>, steps: seq<Step>, i: nat, t: string)
    requires Run(feeds, states, steps) && i < |states|
    requires states[i].relatedCommitted == |feeds[i].log|
    requires t in feeds[i].issued && feeds[i].now < feeds[i].issued[t].expires
    ensures RelatedAccepts(states[i].related, feeds[i].issued[t], feeds[i].now)
       <==> forall k: nat :: k < |feeds[i].log| && t in Named(feeds[i].log[k]) ==> Skipped(states[i], k)
  {
    RunsKeepInv(feeds, states, steps, i);
    var f, s := feeds[i], states[i];
    if t in s.relatedApplied {
      assert DoneNames(f, s, t);
      var k: nat :| k in s.done && k < |f.log| && t in Named(f.log[k]);
      assert !Skipped(s, k);
    } else {
      forall k: nat | k < |f.log| && t in Named(f.log[k]) ensures Skipped(s, k) {
        assert k in s.done ==> t in s.relatedApplied;
      }
    }
  }
}
