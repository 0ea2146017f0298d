/**
 The publishing side as a step machine: requests commit, any number of relays claim, send,
 are acknowledged, record or crash, and the broker's log grows.

 `locks` tells the two relays of the repository apart. The posts relay holds its row locks until
 its transaction ends; the auth service's claim runs on its own, so its locks end with the statement.
 What the rows carry is left open: posts events in one outbox, revocations in the other.
 */
module Publishing {
  import opened Common
  import opened OutboxRelay

  /**
   An open pass: whether its claim statement is still running, its batch, how many rows it has sent,
   and the rows the broker took from it, in order.
   */
  datatype Pass = Idle | Open(claiming: bool, batch: seq<nat>, sent: nat, taken: seq<nat>)

  /**
   `log` is the broker's log of row ids. `sends` and `lapses` count, for each row, how often a relay
   sent it and how often a pass that had sent it ended without recording it.
   */
  datatype State<E> = State(
    locks: bool, rows: seq<OutboxRow<E>>, log: seq<nat>,
    relays: seq<Pass>, sends: seq<nat>, lapses: seq<nat>)

  datatype Step<E> =
    | Write(event: E)
    | Claim(relay: nat, limit: nat)
    | Fetch(relay: nat)
    | Send(relay: nat)
    | Take(relay: nat, index: nat)
    | TakeLate(row: nat)
    | Record(relay: nat, acked: seq<nat>)
    | Abandon(relay: nat)

  predicate IsOpen<E>(s: State<E>, r: nat) {
    r < |s.relays| && s.relays[r].Open?
  }

  /** The pass has its rows locked: to its end, or only while its claim runs. */
  predicate Locking<E>(s: State<E>, r: nat) {
    IsOpen(s, r) && (s.locks || s.relays[r].claiming)
  }

  /** The rows other relays hold locked. */
  function Held<E>(s: State<E>, r: nat): set<nat> {
    set q: nat, e | q < |s.relays| && q != r && Locking(s, q) && e in s.relays[q].batch :: e
  }

  ghost predicate Init<E>(s: State<E>) {
    && s.rows == [] && s.log == [] && s.sends == [] && s.lapses == []
    && forall r :: 0 <= r < |s.relays| ==> s.relays[r].Idle?
  }

  ghost predicate Enabled<E>(s: State<E>, step: Step<E>) {
    match step
    case Write(e) => true
    case Claim(r, limit) => r < |s.relays| && s.relays[r].Idle?
    case Fetch(r) => IsOpen(s, r) && s.relays[r].claiming
    case Send(r) => IsOpen(s, r) && !s.relays[r].claiming && s.relays[r].sent < |s.relays[r].batch|
    case Take(r, i) => IsOpen(s, r) && i < s.relays[r].sent <= |s.relays[r].batch|
    case TakeLate(e) => e < |s.sends| && 0 < s.sends[e]
    case Record(r, acked) =>
      && IsOpen(s, r) && !s.relays[r].claiming && s.relays[r].sent == |s.relays[r].batch|
      && forall k :: 0 <= k < |acked| ==> acked[k] in s.relays[r].taken && acked[k] !in Held(s, r)
    case Abandon(r) => IsOpen(s, r)
  }

  function Bumped(counts: seq<nat>, e: nat): seq<nat> {
    if e < |counts| then counts[e := counts[e] + 1] else counts
  }

  function Lapsed(lapses: seq<nat>, sent: seq<nat>, recorded: seq<nat>): (r: seq<nat>)
    ensures |r| == |lapses|
  {
    seq(|lapses|, e requires 0 <= e < |lapses| => lapses[e] + if e in sent && e !in recorded then 1 else 0)
  }

  function SentBy(p: Pass): seq<nat> {
    if p.Open? && p.sent <= |p.batch| then p.batch[..p.sent] else []
  }

  function Do<E>(s: State<E>, step: Step<E>): State<E> {
    match step
    case Write(e) =>
      s.(rows := s.rows + [OutboxRow(e, false)], sends := s.sends + [0], lapses := s.lapses + [0])
    case Claim(r, limit) =>
      var batch := Claimed(s.rows, Held(s, r), limit);
      if r < |s.relays| && batch != [] then s.(relays := s.relays[r := Open(true, batch, 0, [])]) else s
    case Fetch(r) =>
      if IsOpen(s, r) then s.(relays := s.relays[r := s.relays[r].(claiming := false)]) else s
    case Send(r) =>
      if IsOpen(s, r) && s.relays[r].sent < |s.relays[r].batch| then
        var p := s.relays[r];
        s.(relays := s.relays[r := p.(sent := p.sent + 1)], sends := Bumped(s.sends, p.batch[p.sent]))
      else s
    case Take(r, i) =>
      if IsOpen(s, r) && i < |s.relays[r].batch| then
        var p := s.relays[r];
        s.(relays := s.relays[r := p.(taken := p.taken + [p.batch[i]])], log := s.log + [p.batch[i]])
      else s
    case TakeLate(e) => s.(log := s.log + [e])
    case Record(r, acked) =>
      if IsOpen(s, r) then
        s.(relays := s.relays[r := Idle], rows := Marked(s.rows, acked),
           lapses := Lapsed(s.lapses, SentBy(s.relays[r]), acked))
      else s
    case Abandon(r) =>
      if IsOpen(s, r) then
        s.(relays := s.relays[r := Idle], lapses := Lapsed(s.lapses, SentBy(s.relays[r]), []))
      else s
  }

  /** A run: states joined by enabled steps, starting from an empty system. */
  ghost predicate Run<E>(states: seq<State<E>>, steps: seq<Step<E>>) {
    && |states| == |steps| + 1 && Init(states[0])
    && forall i :: 0 <= i < |steps| ==> Enabled(states[i], steps[i]) && states[i + 1] == Do(states[i], steps[i])
  }

  // ---- Outbox safety, with locks or without

  ghost predicate PassSafe<E>(s: State<E>, p: Pass) {
    p.Open? ==>
      && p.sent <= |p.batch| && Increasing(p.batch)
      && (forall k :: 0 <= k < |p.batch| ==> p.batch[k] < |s.rows|)
      && (forall k :: 0 <= k < p.sent ==> p.batch[k] < |s.sends| && 0 < s.sends[p.batch[k]])
      && (forall k :: 0 <= k < |p.taken| ==> p.taken[k] in s.log && p.taken[k] in p.batch)
  }

  /**
   Published rows are in the log, and logged ids are committed rows that were sent.
   */
  ghost predicate Safe<E>(s: State<E>) {
    && |s.sends| == |s.rows| && |s.lapses| == |s.rows|
    && (forall k :: 0 <= k < |s.log| ==> s.log[k] < |s.rows| && 0 < s.sends[s.log[k]])
    && (forall e: nat :: e < |s.rows| && s.rows[e].published ==> e in s.log)
    && (forall r :: 0 <= r < |s.relays| ==> PassSafe(s, s.relays[r]))
  }

  lemma PassSafeGrows<E>(s: State<E>, later: State<E>, p: Pass)
    requires PassSafe(s, p) && |s.sends| == |s.rows| && |later.sends| == |later.rows|
    requires |s.rows| <= |later.rows| && s.log <= later.log
    requires forall e :: 0 <= e < |s.sends| ==> s.sends[e] <= later.sends[e]
    ensures PassSafe(later, p)
  {
  }

  lemma StepKeepsSafe<E>(s: State<E>, step: Step<E>)
    requires Safe(s) && Enabled(s, step)
    ensures Safe(Do(s, step))
  {
    match step
    case Write(e) => WriteKeepsSafe(s, e);
    case Claim(r, limit) => ClaimKeepsSafe(s, r, limit);
    case Fetch(r) => FetchKeepsSafe(s, r);
    case Send(r) => SendKeepsSafe(s, r);
    case Take(r, i) => TakeKeepsSafe(s, r, i);
    case TakeLate(e) => assert forall r :: 0 <= r < |s.relays| ==> PassSafe(s, s.relays[r]);
    case Record(r, acked) => RecordKeepsSafe(s, r, acked);
    case Abandon(r) => AbandonKeepsSafe(s, r);
  }

  lemma WriteKeepsSafe<E>(s: State<E>, e: E)
    requires Safe(s) && Enabled(s, Write(e))
    ensures Safe(Do(s, Write(e)))
  {
    var s' := Do(s, Write(e));
    forall r | 0 <= r < |s.relays| ensures PassSafe(s', s'.relays[r]) {
      PassSafeGrows(s, s', s.relays[r]);
    }
  }

  lemma ClaimKeepsSafe<E>(s: State<E>, r: nat, limit: nat)
    requires Safe(s) && Enabled(s, Claim(r, limit))
    ensures Safe(Do(s, Claim(r, limit)))
  {
    var s' := Do(s, Claim(r, limit));
    ClaimTakesTheOldest(s.rows, Held(s, r), limit);
    var batch := Claimed(s.rows, Held(s, r), limit);
    assert forall k :: 0 <= k < |batch| ==> batch[k] in batch;
    assert PassSafe(s', Open(true, batch, 0, []));
    forall q | 0 <= q < |s.relays| && q != r ensures PassSafe(s', s'.relays[q]) {
      PassSafeGrows(s, s', s.relays[q]);
    }
  }

  lemma FetchKeepsSafe<E>(s: State<E>, r: nat)
    requires Safe(s) && Enabled(s, Fetch(r))
    ensures Safe(Do(s, Fetch(r)))
  {
    var s' := Do(s, Fetch(r));
    forall q | 0 <= q < |s.relays| ensures PassSafe(s', s'.relays[q]) {
      PassSafeGrows(s, s', s.relays[q]);
    }
  }

  lemma SendKeepsSafe<E>(s: State<E>, r: nat)
    requires Safe(s) && Enabled(s, Send(r))
    ensures Safe(Do(s, Send(r)))
  {
    var s' := Do(s, Send(r));
    forall q | 0 <= q < |s.relays| ensures PassSafe(s', s.relays[q]) {
      PassSafeGrows(s, s', s.relays[q]);
    }
  }

  lemma TakeKeepsSafe<E>(s: State<E>, r: nat, i: nat)
    requires Safe(s) && Enabled(s, Take(r, i))
    ensures Safe(Do(s, Take(r, i)))
  {
    var s' := Do(s, Take(r, i));
    forall q | 0 <= q < |s.relays| ensures PassSafe(s', s.relays[q]) {
      PassSafeGrows(s, s', s.relays[q]);
    }
    assert s'.log[|s.log|] == s.relays[r].batch[i];
    assert PassSafe(s', s'.relays[r]);
  }

  lemma AbandonKeepsSafe<E>(s: State<E>, r: nat)
    requires Safe(s) && Enabled(s, Abandon(r))
    ensures Safe(Do(s, Abandon(r)))
  {
    var s' := Do(s, Abandon(r));
    forall q | 0 <= q < |s.relays| && q != r ensures PassSafe(s', s'.relays[q]) {
      PassSafeGrows(s, s', s.relays[q]);
    }
  }

  lemma RecordKeepsSafe<E>(s: State<E>, r: nat, acked: seq<nat>)
    requires Safe(s) && Enabled(s, Record(r, acked))
    ensures Safe(Do(s, Record(r, acked)))
  {
    var s' := Do(s, Record(r, acked));
    assert PassSafe(s, s.relays[r]);
    forall e: nat | e < |s'.rows| && s'.rows[e].published ensures e in s'.log {
      if !s.rows[e].published {
        var k :| 0 <= k < |acked| && acked[k] == e;
      }
    }
    forall q | 0 <= q < |s'.relays| && q != r ensures PassSafe(s', s'.relays[q]) {
      PassSafeGrows(s, s', s.relays[q]);
    }
  }

  /** In every run, however it crashes, rolls back or is partly acknowledged. */
  lemma {:induction false} RunsAreSafe<E>(states: seq<State<E>>, steps: seq<Step<E>>, i: nat)
    requires Run(states, steps) && i < |states|
    ensures Safe(states[i])
  {
    if i != 0 {
      RunsAreSafe(states, steps, i - 1);
      StepKeepsSafe(states[i - 1], steps[i - 1]);
    }
  }

  /** Rows are never changed or lost, the log only grows, and a published row never becomes pending again. */
  ghost predicate Extends<E>(s: State<E>, later: State<E>) {
    && |s.rows| <= |later.rows| && s.log <= later.log && s.locks == later.locks
    && forall e :: 0 <= e < |s.rows| ==>
         later.rows[e].event == s.rows[e].event && (s.rows[e].published ==> later.rows[e].published)
  }

  lemma {:induction false} RunsExtend<E>(states: seq<State<E>>, steps: seq<Step<E>>, i: nat, j: nat)
    requires Run(states, steps) && i <= j < |states|
    ensures Extends(states[i], states[j])
    decreases j - i
  {
    if i < j {
      RunsExtend(states, steps, i, j - 1);
      StepExtends(states[j - 1], steps[j - 1]);
    }
  }

  lemma StepExtends<E>(s: State<E>, step: Step<E>)
    ensures Extends(s, Do(s, step))
  {
  }

  // ---- Exclusion and the duplicate bound, with locks

  /** Relay r has a pass open with this row in its batch. */
  ghost predicate Holds<E>(s: State<E>, r: nat, e: nat) {
    IsOpen(s, r) && e in s.relays[r].batch
  }

  ghost predicate Pending<E>(s: State<E>, e: nat) {
    e < |s.rows| && !s.rows[e].published
  }

  /** No two open passes hold one row, and every row an open pass holds is still unpublished. */
  ghost predicate Exclusive<E>(s: State<E>) {
    && (forall q: nat, r: nat, e: nat :: Holds(s, q, e) && Holds(s, r, e) ==> q == r)
    && (forall r: nat, e: nat :: Holds(s, r, e) ==> Pending(s, e))
  }

  /** No row the claim would take is in another open pass. Rows of claims still running are locked and never are. */
  ghost predicate ClaimIsClear<E>(s: State<E>, step: Step<E>) {
    step.Claim? ==>
      forall q: nat, e: nat :: Holds(s, q, e) ==> e !in Claimed(s.rows, Held(s, step.relay), step.limit)
  }

  /** Exactly the claims that are not clear end exclusion; no other step does. */
  lemma StepKeepsExclusiveIffClear<E>(s: State<E>, step: Step<E>)
    requires Safe(s) && Exclusive(s) && Enabled(s, step)
    ensures Exclusive(Do(s, step)) <==> ClaimIsClear(s, step)
  {
    match step
    case Claim(r, limit) =>
      if ClaimIsClear(s, step) {
        ClearClaimKeepsExclusive(s, r, limit);
      } else {
        UnclearClaimOverlaps(s, r, limit);
      }
    case Record(r, acked) => RecordKeepsExclusive(s, r, acked);
    case _ => OtherStepsKeepExclusive(s, step);
  }

  lemma UnclearClaimOverlaps<E>(s: State<E>, r: nat, limit: nat)
    requires Enabled(s, Claim(r, limit)) && !ClaimIsClear(s, Claim(r, limit))
    ensures !Exclusive(Do(s, Claim(r, limit)))
  {
    var s' := Do(s, Claim(r, limit));
    var q: nat, e: nat :| Holds(s, q, e) && e in Claimed(s.rows, Held(s, r), limit);
    assert q != r && Holds(s', q, e) && Holds(s', r, e);
  }

  /** Locks held to the end of the pass make every claim clear. */
  lemma LockedClaimIsClear<E>(s: State<E>, step: Step<E>)
    requires s.locks && Enabled(s, step)
    ensures ClaimIsClear(s, step)
  {
    if step.Claim? {
      ClaimTakesTheOldest(s.rows, Held(s, step.relay), step.limit);
      forall q: nat, e: nat | Holds(s, q, e) ensures e !in Claimed(s.rows, Held(s, step.relay), step.limit) {
        assert e in Held(s, step.relay);
      }
    }
  }

  lemma OtherStepsKeepExclusive<E>(s: State<E>, step: Step<E>)
    requires Exclusive(s) && Enabled(s, step) && !step.Claim? && !step.Record?
    ensures Exclusive(Do(s, step))
  {
    var s' := Do(s, step);
    forall r: nat, e: nat | Holds(s', r, e) ensures Holds(s, r, e) && Pending(s', e) {
      assert Holds(s, r, e);
    }
  }

  lemma ClearClaimKeepsExclusive<E>(s: State<E>, r: nat, limit: nat)
    requires Exclusive(s) && Enabled(s, Claim(r, limit)) && ClaimIsClear(s, Claim(r, limit))
    ensures Exclusive(Do(s, Claim(r, limit)))
  {
    var s' := Do(s, Claim(r, limit));
    ClaimTakesTheOldest(s.rows, Held(s, r), limit);
    forall q: nat, e: nat | Holds(s', q, e)
      ensures Pending(s', e)
      ensures q != r ==> Holds(s, q, e) && !Holds(s', r, e)
    {
      if q != r {
        assert Holds(s, q, e);
      }
    }
  }

  lemma RecordKeepsExclusive<E>(s: State<E>, r: nat, acked: seq<nat>)
    requires Safe(s) && Exclusive(s) && Enabled(s, Record(r, acked))
    ensures Exclusive(Do(s, Record(r, acked)))
  {
    var s' := Do(s, Record(r, acked));
    assert PassSafe(s, s.relays[r]);
    forall q: nat, e: nat | Holds(s', q, e) ensures Holds(s, q, e) && Pending(s', e) {
      assert q != r && Holds(s, q, e) && !Holds(s, r, e);
      forall k | 0 <= k < |acked| ensures acked[k] != e {
        assert acked[k] in s.relays[r].batch;
      }
    }
  }

  /** The row is in an open pass that has already sent it. */
  ghost predicate Outstanding<E>(s: State<E>, e: nat) {
    exists r :: 0 <= r < |s.relays| && e in SentBy(s.relays[r])
  }

  ghost function One(holds: bool): nat {
    if holds then 1 else 0
  }

  /** Each send of a row is the one that recorded it, the one still outstanding, or one that lapsed. */
  ghost predicate Balanced<E>(s: State<E>, e: nat) {
    e < |s.rows| && e < |s.sends| && e < |s.lapses| ==>
      s.sends[e] == s.lapses[e] + One(s.rows[e].published) + One(Outstanding(s, e))
  }

  ghost predicate Accounted<E>(s: State<E>) {
    forall e: nat :: e < |s.rows| ==> Balanced(s, e)
  }

  lemma StepKeepsAccounted<E>(s: State<E>, step: Step<E>)
    requires s.locks && Safe(s) && Exclusive(s) && Accounted(s) && Enabled(s, step)
    ensures Accounted(Do(s, step))
  {
    var s' := Do(s, step);
    forall e: nat | e < |s'.rows| ensures Balanced(s', e) {
      match step
      case Write(_) => WriteAccounts(s, step, e);
      case Claim(r, _) => ClaimAccounts(s, step, e);
      case Fetch(r) => FetchAccounts(s, r, e);
      case Send(r) => SendAccounts(s, r, e);
      case Take(_, _) => TakeAccounts(s, step, e);
      case TakeLate(_) => TakeAccounts(s, step, e);
      case Record(r, acked) => EndAccounts(s, step, r, acked, e);
      case Abandon(r) => EndAccounts(s, step, r, [], e);
    }
  }

  lemma TakeAccounts<E>(s: State<E>, step: Step<E>, e: nat)
    requires Accounted(s) && Enabled(s, step) && (step.Take? || step.TakeLate?) && e < |s.rows|
    ensures Balanced(Do(s, step), e)
  {
    var s' := Do(s, step);
    forall q | 0 <= q < |s.relays| ensures SentBy(s'.relays[q]) == SentBy(s.relays[q]) {
    }
    SameSentSameOutstanding(s, s', e);
    assert Balanced(s, e);
  }

  lemma WriteAccounts<E>(s: State<E>, step: Step<E>, e: nat)
    requires Safe(s) && Accounted(s) && Enabled(s, step) && step.Write? && e <= |s.rows|
    ensures Balanced(Do(s, step), e)
  {
    var s' := Do(s, step);
    assert forall q :: 0 <= q < |s.relays| ==> PassSafe(s, s.relays[q]);
    assert Outstanding(s', e) <==> Outstanding(s, e);
    assert e < |s.rows| ==> Balanced(s, e);
  }

  lemma ClaimAccounts<E>(s: State<E>, step: Step<E>, e: nat)
    requires Safe(s) && Accounted(s) && Enabled(s, step) && step.Claim? && e < |s.rows|
    ensures Balanced(Do(s, step), e)
  {
    var s' := Do(s, step);
    forall q | 0 <= q < |s.relays| ensures SentBy(s'.relays[q]) == SentBy(s.relays[q]) {
      assert q != step.relay ==> s'.relays[q] == s.relays[q];
    }
    SameSentSameOutstanding(s, s', e);
    assert Balanced(s, e);
  }

  lemma FetchAccounts<E>(s: State<E>, r: nat, e: nat)
    requires Accounted(s) && Enabled(s, Fetch(r)) && e < |s.rows|
    ensures Balanced(Do(s, Fetch(r)), e)
  {
    var s' := Do(s, Fetch(r));
    forall q | 0 <= q < |s.relays| ensures SentBy(s'.relays[q]) == SentBy(s.relays[q]) {
      assert q != r ==> s'.relays[q] == s.relays[q];
    }
    SameSentSameOutstanding(s, s', e);
    assert Balanced(s, e);
  }

  lemma SameSentSameOutstanding<E>(s: State<E>, t: State<E>, e: nat)
    requires |t.relays| == |s.relays|
    requires forall q :: 0 <= q < |s.relays| ==> SentBy(t.relays[q]) == SentBy(s.relays[q])
    ensures Outstanding(t, e) <==> Outstanding(s, e)
  {
  }

  /** Sending adds one to the row's sends and makes it outstanding; it was not outstanding before. */
  lemma SendAccounts<E>(s: State<E>, r: nat, e: nat)
    requires s.locks && Safe(s) && Exclusive(s) && Accounted(s) && Enabled(s, Send(r)) && e < |s.rows|
    ensures Balanced(Do(s, Send(r)), e)
  {
    assert PassSafe(s, s.relays[r]);
    NextIsNotOutstanding(s, r);
    OutstandingAfterSend(s, r, e);
    assert Holds(s, r, s.relays[r].batch[s.relays[r].sent]) && Balanced(s, e);
  }

  lemma NextIsNotOutstanding<E>(s: State<E>, r: nat)
    requires Safe(s) && Exclusive(s) && Enabled(s, Send(r))
    ensures !Outstanding(s, s.relays[r].batch[s.relays[r].sent])
  {
    var p := s.relays[r];
    var next := p.batch[p.sent];
    assert PassSafe(s, p) && Holds(s, r, next);
    IncreasingMeansNew(p.batch, p.sent);
    forall q: nat | q < |s.relays| && q != r ensures next !in SentBy(s.relays[q]) {
      assert !Holds(s, q, next);
    }
  }

  lemma IncreasingMeansNew(ids: seq<nat>, k: nat)
    requires Increasing(ids) && k < |ids|
    ensures ids[k] !in ids[..k]
  {
  }

  lemma OutstandingAfterSend<E>(s: State<E>, r: nat, e: nat)
    requires Enabled(s, Send(r))
    ensures Outstanding(Do(s, Send(r)), e) <==> Outstanding(s, e) || e == s.relays[r].batch[s.relays[r].sent]
  {
    var p, relays := s.relays[r], Do(s, Send(r)).relays;
    assert relays[r] == p.(sent := p.sent + 1);
    assert SentBy(relays[r]) == SentBy(p) + [p.batch[p.sent]];
    assert e in SentBy(relays[r]) <==> e in SentBy(p) || e == p.batch[p.sent];
    assert forall q :: 0 <= q < |s.relays| && q != r ==> relays[q] == s.relays[q];
  }

  /** Ending a pass turns each row it had sent into a recorded one or a lapsed one. */
  lemma EndAccounts<E>(s: State<E>, step: Step<E>, r: nat, acked: seq<nat>, e: nat)
    requires s.locks && Safe(s) && Exclusive(s) && Accounted(s) && Enabled(s, step) && e < |s.rows|
    requires step == Record(r, acked) || (step == Abandon(r) && acked == [])
    ensures Balanced(Do(s, step), e)
  {
    var s' := Do(s, step);
    OutstandingAfterEnd(s, step, r, acked, e);
    assert PassSafe(s, s.relays[r]);
    AckedWereSent(s, step, r, acked, e);
    assert Balanced(s, e);
    if e in SentBy(s.relays[r]) {
      assert Outstanding(s, e) && Holds(s, r, e);
    }
  }

  lemma AckedWereSent<E>(s: State<E>, step: Step<E>, r: nat, acked: seq<nat>, e: nat)
    requires Safe(s) && Enabled(s, step)
    requires step == Record(r, acked) || (step == Abandon(r) && acked == [])
    ensures e in acked ==> e in SentBy(s.relays[r])
  {
    var p := s.relays[r];
    assert PassSafe(s, p);
    if e in acked {
      var k :| 0 <= k < |acked| && acked[k] == e;
      assert e in p.batch && p.batch[..p.sent] == p.batch;
    }
  }

  lemma OutstandingAfterEnd<E>(s: State<E>, step: Step<E>, r: nat, acked: seq<nat>, e: nat)
    requires s.locks && Safe(s) && Exclusive(s) && Enabled(s, step) && e < |s.rows|
    requires step == Record(r, acked) || (step == Abandon(r) && acked == [])
    ensures e in SentBy(s.relays[r]) ==> !Outstanding(Do(s, step), e) && e in s.relays[r].batch
    ensures e !in SentBy(s.relays[r]) ==> (Outstanding(Do(s, step), e) <==> Outstanding(s, e))
  {
    var relays := Do(s, step).relays;
    assert relays == s.relays[r := Idle];
    if e in SentBy(s.relays[r]) {
      forall q: nat | q < |relays| ensures e !in SentBy(relays[q]) {
        NotSentTwice(s, q, r, e);
      }
    } else if q :| 0 <= q < |s.relays| && e in SentBy(s.relays[q]) {
      assert e in SentBy(relays[q]);
    }
  }

  /** A row that one open pass has sent is not in any other open pass. */
  lemma NotSentTwice<E>(s: State<E>, q: nat, r: nat, e: nat)
    requires Exclusive(s) && q < |s.relays| && r < |s.relays| && e in SentBy(s.relays[r])
    ensures e in s.relays[r].batch
    ensures q != r ==> e !in SentBy(s.relays[q])
  {
    assert Holds(s, r, e) && (Holds(s, q, e) ==> q == r);
  }

  lemma {:induction false} LockedRunsAreExclusive<E>(states: seq<State<E>>, steps: seq<Step<E>>, i: nat)
    requires Run(states, steps) && states[0].locks && i < |states|
    ensures states[i].locks && Exclusive(states[i]) && Accounted(states[i])
  {
    if i != 0 {
      LockedRunsAreExclusive(states, steps, i - 1);
      RunsAreSafe(states, steps, i - 1);
      StepExtends(states[i - 1], steps[i - 1]);
      LockedClaimIsClear(states[i - 1], steps[i - 1]);
      StepKeepsExclusiveIffClear(states[i - 1], steps[i - 1]);
      StepKeepsAccounted(states[i - 1], steps[i - 1]);
    }
  }

  /** Over any number of relays, a row is sent at most once more than passes that sent it ended without recording it. */
  lemma DuplicatesAreBounded<E>(states: seq<State<E>>, steps: seq<Step<E>>, i: nat, e: nat)
    requires Run(states, steps) && states[0].locks && i < |states| && e < |states[i].rows|
    ensures |states[i].sends| == |states[i].lapses| == |states[i].rows|
    ensures states[i].sends[e] <= 1 + states[i].lapses[e]
  {
    var s := states[i];
    RunsAreSafe(states, steps, i);
    LockedRunsAreExclusive(states, steps, i);
    assert Balanced(s, e);
    if Outstanding(s, e) {
      var r: nat :| r < |s.relays| && e in SentBy(s.relays[r]);
      assert Holds(s, r, e);
    }
  }

  // ---- Exclusion, whatever the locks

  ghost predicate ExclusiveUpTo<E>(states: seq<State<E>>, i: nat)
    requires i < |states|
  {
    forall j :: 0 <= j <= i ==> Exclusive(states[j])
  }

  ghost predicate ClearUpTo<E>(states: seq<State<E>>, steps: seq<Step<E>>, i: nat)
    requires i <= |steps| < |states|
  {
    forall j :: 0 <= j < i ==> ClaimIsClear(states[j], steps[j])
  }

  /** Claims exclude each other up to a point of a run if and only if each claim made before it was clear. */
  lemma {:induction false} RunsExcludeIffClaimsAreClear<E>(states: seq<State<E>>, steps: seq<Step<E>>, i: nat)
    requires Run(states, steps) && i < |states|
    ensures ExclusiveUpTo(states, i) <==> ClearUpTo(states, steps, i)
  {
    if i != 0 {
      RunsExcludeIffClaimsAreClear(states, steps, i - 1);
      assert ExclusiveUpTo(states, i) <==> ExclusiveUpTo(states, i - 1) && Exclusive(states[i]);
      assert ClearUpTo(states, steps, i)
        <==> ClearUpTo(states, steps, i - 1) && ClaimIsClear(states[i - 1], steps[i - 1]);
      if ExclusiveUpTo(states, i - 1) {
        RunsAreSafe(states, steps, i - 1);
        StepKeepsExclusiveIffClear(states[i - 1], steps[i - 1]);
      }
    }
  }

  ghost predicate OneAtMost<E>(s: State<E>) {
    forall q, r :: 0 <= q < r < |s.relays| ==> !(s.relays[q].Open? && s.relays[r].Open?)
  }

  /** Nobody else is open once the claim has begun, so nobody holds what it takes. */
  lemma LoneClaimIsClear<E>(s: State<E>, step: Step<E>)
    requires Enabled(s, step) && OneAtMost(Do(s, step))
    ensures ClaimIsClear(s, step)
  {
    if step.Claim? {
      var s', r := Do(s, step), step.relay;
      forall q: nat, e: nat | Holds(s, q, e) ensures e !in Claimed(s.rows, Held(s, r), step.limit) {
        assert q != r && s'.relays[q].Open?;
        assert !s'.relays[r].Open? by {
          assert q < r || r < q;
        }
      }
    }
  }

  /** Where passes never overlap, claims exclude each other, with locks or without. */
  lemma LoneRunsAreExclusive<E>(states: seq<State<E>>, steps: seq<Step<E>>, i: nat)
    requires Run(states, steps) && i < |states|
    requires forall j :: 0 <= j <= i ==> OneAtMost(states[j])
    ensures Exclusive(states[i])
  {
    forall j | 0 <= j < i ensures ClaimIsClear(states[j], steps[j]) {
      assert OneAtMost(states[j + 1]);
      LoneClaimIsClear(states[j], steps[j]);
    }
    RunsExcludeIffClaimsAreClear(states, steps, i);
    assert ClearUpTo(states, steps, i);
  }

  // ---- Exclusion without locks, when claim statements do not overlap in time

  ghost predicate NoneClaiming<E>(s: State<E>) {
    forall r :: 0 <= r < |s.relays| && s.relays[r].Open? ==> !s.relays[r].claiming
  }

  /** Up to step i no claim begins while another is running. */
  ghost predicate ClaimsInTurn<E>(states: seq<State<E>>, steps: seq<Step<E>>, i: nat)
    requires i <= |steps| < |states|
  {
    forall j :: 0 <= j < i && steps[j].Claim? ==> NoneClaiming(states[j])
  }

  /** Nothing older than the first row of an open pass is pending. */
  ghost predicate StartsAtOldest<E>(s: State<E>, p: Pass) {
    p.Open? ==>
      p.batch != [] && p.batch[0] < |s.rows| && forall e: nat :: e < p.batch[0] ==> s.rows[e].published
  }

  ghost predicate AllStartAtOldest<E>(s: State<E>) {
    forall r :: 0 <= r < |s.relays| ==> StartsAtOldest(s, s.relays[r])
  }

  lemma StartStays<E>(s: State<E>, later: State<E>, p: Pass)
    requires Extends(s, later) && StartsAtOldest(s, p)
    ensures StartsAtOldest(later, p)
  {
  }

  lemma ClaimStartsAtOldest<E>(s: State<E>, r: nat, limit: nat)
    requires !s.locks && Enabled(s, Claim(r, limit)) && NoneClaiming(s)
    ensures StartsAtOldest(Do(s, Claim(r, limit)), Do(s, Claim(r, limit)).relays[r])
  {
    assert Held(s, r) == {};
    var batch := Claimed(s.rows, {}, limit);
    ClaimTakesTheOldest(s.rows, {}, limit);
    if batch != [] {
      assert batch[0] in batch;
      forall e: nat | e < batch[0] ensures s.rows[e].published {
        assert forall k :: 0 <= k < |batch| ==> batch[0] <= batch[k];
        assert e !in batch && !Free(s.rows, {}, e);
      }
    }
  }

  lemma StepKeepsStarts<E>(s: State<E>, step: Step<E>)
    requires !s.locks && AllStartAtOldest(s) && Enabled(s, step) && (step.Claim? ==> NoneClaiming(s))
    ensures AllStartAtOldest(Do(s, step))
  {
    var s' := Do(s, step);
    StepExtends(s, step);
    forall r | 0 <= r < |s'.relays| ensures StartsAtOldest(s', s'.relays[r]) {
      if step.Claim? && step.relay == r {
        ClaimStartsAtOldest(s, r, step.limit);
      } else {
        StartStays(s, s', s.relays[r]);
      }
    }
  }

  lemma {:induction false} RunsStartAtOldest<E>(states: seq<State<E>>, steps: seq<Step<E>>, i: nat)
    requires Run(states, steps) && !states[0].locks && i < |states| && ClaimsInTurn(states, steps, i)
    ensures !states[i].locks && AllStartAtOldest(states[i])
  {
    if i != 0 {
      RunsStartAtOldest(states, steps, i - 1);
      StepExtends(states[i - 1], steps[i - 1]);
      StepKeepsStarts(states[i - 1], steps[i - 1]);
    }
  }

  /** Two passes that both start at the oldest pending row share it. */
  lemma ExclusiveMeansOneAtMost<E>(s: State<E>)
    requires AllStartAtOldest(s) && Exclusive(s)
    ensures OneAtMost(s)
  {
    forall q: nat, r: nat | q < r < |s.relays| ensures !(s.relays[q].Open? && s.relays[r].Open?) {
      if s.relays[q].Open? && s.relays[r].Open? {
        StartIsPending(s, q);
        StartIsPending(s, r);
        OldestIsShared(s, s.relays[q], s.relays[r]);
      }
    }
  }

  lemma StartIsPending<E>(s: State<E>, r: nat)
    requires AllStartAtOldest(s) && Exclusive(s) && IsOpen(s, r)
    ensures StartsAtOldest(s, s.relays[r])
    ensures Holds(s, r, s.relays[r].batch[0]) && Pending(s, s.relays[r].batch[0])
  {
    assert StartsAtOldest(s, s.relays[r]);
    assert Holds(s, r, s.relays[r].batch[0]);
  }

  lemma OldestIsShared<E>(s: State<E>, p: Pass, q: Pass)
    requires p.Open? && q.Open? && StartsAtOldest(s, p) && StartsAtOldest(s, q)
    requires !s.rows[p.batch[0]].published && !s.rows[q.batch[0]].published
    ensures p.batch[0] == q.batch[0]
  {
  }

  /**
   When locks end with the claim and no claim begins while another runs, claims exclude each other
   up to a point if and only if no two passes were open at once up to that point.
   */
  lemma UnlockedRunsExcludeIffPassesNeverOverlap<E>(states: seq<State<E>>, steps: seq<Step<E>>, i: nat)
    requires Run(states, steps) && !states[0].locks && i < |states| && ClaimsInTurn(states, steps, i)
    ensures ExclusiveUpTo(states, i) <==> forall j :: 0 <= j <= i ==> OneAtMost(states[j])
  {
    if ExclusiveUpTo(states, i) {
      forall j | 0 <= j <= i ensures OneAtMost(states[j]) {
        RunsStartAtOldest(states, steps, j);
        ExclusiveMeansOneAtMost(states[j]);
      }
    }
    if forall j :: 0 <= j <= i ==> OneAtMost(states[j]) {
      forall j | 0 <= j <= i ensures Exclusive(states[j]) {
        LoneRunsAreExclusive(states, steps, j);
      }
    }
  }

  /** A run from the empty system: one row is written, and two relays that claim in turn both hold it. */
  lemma ClaimsWithoutLocksOverlap<E>(event: E) returns (states: seq<State<E>>, steps: seq<Step<E>>)
    ensures Run(states, steps) && !states[0].locks
    ensures steps == [Write(event), Claim(0, 1), Fetch(0), Claim(1, 1)]
    ensures Holds(states[4], 0, 0) && Holds(states[4], 1, 0) && !Exclusive(states[4])
  {
    var s0 := State(false, [], [], [Idle, Idle], [], []);
    var s1 := Do(s0, Write(event));
    var s2 := Do(s1, Claim(0, 1));
    FirstClaim(event, s1);
    var s3 := Do(s2, Fetch(0));
    var s4 := Do(s3, Claim(1, 1));
    SecondClaim(event, s3);
    states := [s0, s1, s2, s3, s4];
    steps := [Write(event), Claim(0, 1), Fetch(0), Claim(1, 1)];
  }

  lemma FirstClaim<E>(event: E, s: State<E>)
    requires s == State(false, [OutboxRow(event, false)], [], [Idle, Idle], [0], [0])
    ensures Do(s, Claim(0, 1)) == s.(relays := [Open(true, [0], 0, []), Idle])
    ensures Do(Do(s, Claim(0, 1)), Fetch(0)) == s.(relays := [Open(false, [0], 0, []), Idle])
  {
    OneRowIsClaimed(event);
    assert Held(s, 0) == {};
    assert [Idle, Idle][0 := Open(true, [0], 0, [])] == [Open(true, [0], 0, []), Idle];
    assert [Open(true, [0], 0, []), Idle][0 := Open(false, [0], 0, [])] == [Open(false, [0], 0, []), Idle];
  }

  lemma SecondClaim<E>(event: E, s: State<E>)
    requires s == State(false, [OutboxRow(event, false)], [], [Open(false, [0], 0, []), Idle], [0], [0])
    ensures var t := Do(s, Claim(1, 1)); Holds(t, 0, 0) && Holds(t, 1, 0) && !Exclusive(t)
  {
    OneRowIsClaimed(event);
    assert Held(s, 1) == {};
    var t := Do(s, Claim(1, 1));
    assert t.relays[0].batch == [0] && t.relays[1].batch == [0];
    assert Holds(t, 0, 0) && Holds(t, 1, 0);
  }

  lemma OneRowIsClaimed<E>(event: E)
    ensures Claimed([OutboxRow(event, false)], {}, 1) == [0]
  {
    var rows := [OutboxRow(event, false)];
    assert rows[..0] == [];
    assert PendingIds(rows, {}) == PendingIds(rows[..0], {}) + [0];
  }

  /** A claim that begins while another runs skips its rows: then two open passes share nothing. */
  lemma RunningClaimsAreSkipped<E>(s: State<E>, q: nat, r: nat, limit: nat)
    requires IsOpen(s, q) && s.relays[q].claiming && Enabled(s, Claim(r, limit))
    ensures q != r && forall e :: e in s.relays[q].batch ==> e !in Claimed(s.rows, Held(s, r), limit)
  {
    ClaimTakesTheOldest(s.rows, Held(s, r), limit);
    forall e | e in s.relays[q].batch ensures e in Held(s, r) {
      assert Locking(s, q);
    }
  }

  // ---- Order of first publication, with one relay

  /**
   What the order theorem asks of a step, for a division of events into lanes: within each lane
   the rows the broker takes from a pass are a prefix of that lane's part of the batch, the rows
   acknowledged are a prefix of that lane's part again, and nothing arrives after its pass ended.
   */
  ghost predicate Disciplined<E, L>(lane: E -> L, s: State<E>, step: Step<E>) {
    match step
    case Take(r, i) =>
      IsOpen(s, r) && i < |s.relays[r].batch| ==>
        forall j :: 0 <= j < i && SameLane(lane, s, s.relays[r].batch[j], s.relays[r].batch[i]) ==>
          s.relays[r].batch[j] in s.relays[r].taken
    case TakeLate(_) => false
    case Record(r, acked) =>
      IsOpen(s, r) ==>
        forall a: nat, b: nat :: b in acked && a in s.relays[r].batch && a < b && SameLane(lane, s, a, b) ==> a in acked
    case _ => true
  }

  ghost predicate SameLane<E, L>(lane: E -> L, s: State<E>, a: nat, b: nat) {
    a < |s.rows| && b < |s.rows| && lane(s.rows[a].event) == lane(s.rows[b].event)
  }

  /** Within a lane, first occurrences in the log, published marks and claims all follow outbox order. */
  ghost predicate Ordered<E, L>(lane: E -> L, s: State<E>) {
    && |s.relays| == 1
    && (forall a: nat, b: nat :: a < b && SameLane(lane, s, a, b) && b in s.log ==> Before(s.log, a, b))
    && (forall a: nat, b: nat :: a < b && SameLane(lane, s, a, b) && s.rows[b].published ==> s.rows[a].published)
    && (forall a: nat, b: nat :: a < b && SameLane(lane, s, a, b) && s.relays[0].Open? && b in s.relays[0].batch ==>
          s.rows[a].published || a in s.relays[0].batch)
  }

  lemma StepKeepsOrdered<E, L>(lane: E -> L, s: State<E>, step: Step<E>)
    requires Safe(s) && Ordered(lane, s) && Enabled(s, step) && Disciplined(lane, s, step)
    ensures Ordered(lane, Do(s, step))
  {
    match step
    case Write(e) => WriteKeepsOrdered(lane, s, e);
    case Claim(r, limit) => ClaimKeepsOrdered(lane, s, limit);
    case Fetch(r) => FetchKeepsOrdered(lane, s);
    case Send(r) => SendKeepsOrdered(lane, s);
    case Take(r, i) => TakeKeepsOrdered(lane, s, i);
    case Record(r, acked) => RecordKeepsOrdered(lane, s, acked);
    case Abandon(r) => AbandonKeepsOrdered(lane, s);
  }

  lemma WriteKeepsOrdered<E, L>(lane: E -> L, s: State<E>, e: E)
    requires Safe(s) && Ordered(lane, s)
    ensures Ordered(lane, Do(s, Write(e)))
  {
    var s' := Do(s, Write(e));
    assert PassSafe(s, s.relays[0]);
    assert forall a: nat, b: nat :: SameLane(lane, s', a, b) && a < b < |s.rows| ==> SameLane(lane, s, a, b);
    assert |s.rows| !in s.log;
  }

  lemma ClaimKeepsOrdered<E, L>(lane: E -> L, s: State<E>, limit: nat)
    requires Safe(s) && Ordered(lane, s) && Enabled(s, Claim(0, limit))
    ensures Ordered(lane, Do(s, Claim(0, limit)))
  {
    assert Held(s, 0) == {};
    ClaimTakesTheOldest(s.rows, {}, limit);
    var s', batch := Do(s, Claim(0, limit)), Claimed(s.rows, {}, limit);
    forall a: nat, b: nat | a < b && SameLane(lane, s, a, b) && b in batch ensures s.rows[a].published || a in batch {
      assert Free(s.rows, {}, a) && a !in batch ==> b < a;
    }
    assert forall a: nat, b: nat :: SameLane(lane, s', a, b) <==> SameLane(lane, s, a, b);
  }

  lemma FetchKeepsOrdered<E, L>(lane: E -> L, s: State<E>)
    requires Safe(s) && Ordered(lane, s) && Enabled(s, Fetch(0))
    ensures Ordered(lane, Do(s, Fetch(0)))
  {
    var s' := Do(s, Fetch(0));
    assert forall a: nat, b: nat :: SameLane(lane, s', a, b) <==> SameLane(lane, s, a, b);
  }

  lemma SendKeepsOrdered<E, L>(lane: E -> L, s: State<E>)
    requires Safe(s) && Ordered(lane, s) && Enabled(s, Send(0))
    ensures Ordered(lane, Do(s, Send(0)))
  {
    var s' := Do(s, Send(0));
    assert forall a: nat, b: nat :: SameLane(lane, s', a, b) <==> SameLane(lane, s, a, b);
  }

  lemma TakeKeepsOrdered<E, L>(lane: E -> L, s: State<E>, i: nat)
    requires Safe(s) && Ordered(lane, s) && Enabled(s, Take(0, i)) && Disciplined(lane, s, Take(0, i))
    ensures Ordered(lane, Do(s, Take(0, i)))
  {
    var s' := Do(s, Take(0, i));
    var p := s.relays[0];
    assert PassSafe(s, p);
    assert forall a: nat, b: nat :: SameLane(lane, s', a, b) <==> SameLane(lane, s, a, b);
    forall a: nat, b: nat | a < b && SameLane(lane, s, a, b) && b in s'.log ensures Before(s'.log, a, b) {
      if b in s.log {
        BeforeSurvivesGrowth(s.log, s'.log, a, b);
      } else {
        EarlierIsLogged(lane, s, i, a);
        AppendedComesAfter(s.log, a, b);
      }
    }
  }

  lemma EarlierIsLogged<E, L>(lane: E -> L, s: State<E>, i: nat, a: nat)
    requires Safe(s) && Ordered(lane, s) && Enabled(s, Take(0, i)) && Disciplined(lane, s, Take(0, i))
    requires a < s.relays[0].batch[i] && SameLane(lane, s, a, s.relays[0].batch[i])
    ensures a in s.log
  {
    var p := s.relays[0];
    assert PassSafe(s, p) && p.batch[i] in p.batch;
    if a in p.batch {
      var j :| 0 <= j < |p.batch| && p.batch[j] == a;
      assert j < i;
      assert a in p.taken;
    }
  }

  lemma RecordKeepsOrdered<E, L>(lane: E -> L, s: State<E>, acked: seq<nat>)
    requires Safe(s) && Ordered(lane, s) && Enabled(s, Record(0, acked)) && Disciplined(lane, s, Record(0, acked))
    ensures Ordered(lane, Do(s, Record(0, acked)))
  {
    var s' := Do(s, Record(0, acked));
    var p := s.relays[0];
    assert PassSafe(s, p);
    assert forall a: nat, b: nat :: SameLane(lane, s', a, b) <==> SameLane(lane, s, a, b);
    forall a: nat, b: nat | a < b && SameLane(lane, s, a, b) && s'.rows[b].published ensures s'.rows[a].published {
      if !s.rows[b].published {
        AckedWereSent(s, Record(0, acked), 0, acked, b);
        assert b in p.batch;
        assert s.rows[a].published || a in acked;
      }
    }
  }

  lemma AbandonKeepsOrdered<E, L>(lane: E -> L, s: State<E>)
    requires Safe(s) && Ordered(lane, s) && Enabled(s, Abandon(0))
    ensures Ordered(lane, Do(s, Abandon(0)))
  {
    var s' := Do(s, Abandon(0));
    assert forall a: nat, b: nat :: SameLane(lane, s', a, b) <==> SameLane(lane, s, a, b);
  }

  /**
   One relay, any number of crashes and republications: within a lane the first occurrences in the
   log follow outbox order. With a single lane this is the order of the whole outbox; with a lane
   for each partition it is the order each partition's readers see.
   */
  lemma {:induction false} FirstPublicationFollowsOutbox<E, L>(
      lane: E -> L, states: seq<State<E>>, steps: seq<Step<E>>, i: nat)
    requires Run(states, steps) && |states[0].relays| == 1 && i < |states|
    requires forall k :: 0 <= k < |steps| ==> Disciplined(lane, states[k], steps[k])
    ensures Ordered(lane, states[i])
  {
    if i != 0 {
      FirstPublicationFollowsOutbox(lane, states, steps, i - 1);
      RunsAreSafe(states, steps, i - 1);
      StepKeepsOrdered(lane, states[i - 1], steps[i - 1]);
    }
  }

  // ---- The relay process takes these steps

  /** Taking the steps one after the other, each enabled, leads from s to t. */
  ghost predicate Leads<E>(s: State<E>, steps: seq<Step<E>>, t: State<E>)
    decreases |steps|
  {
    if steps == [] then s == t else Enabled(s, steps[0]) && Leads(Do(s, steps[0]), steps[1..], t)
  }

  lemma {:induction false} LeadsOn<E>(s: State<E>, first: seq<Step<E>>, t: State<E>, second: seq<Step<E>>, u: State<E>)
    requires Leads(s, first, t) && Leads(t, second, u)
    ensures Leads(s, first + second, u)
    decreases |first|
  {
    if first == [] {
      assert first + second == second;
    } else {
      LeadsOn(Do(s, first[0]), first[1..], t, second, u);
      assert (first + second)[1..] == first[1..] + second;
    }
  }

  lemma LeadsByOne<E>(s: State<E>, step: Step<E>)
    requires Enabled(s, step)
    ensures Leads(s, [step], Do(s, step))
  {
    assert [step][1..] == [];
  }

  /** Sending the rows of a batch from the k-th on. */
  lemma {:induction false} SendsLead<E>(s: State<E>, r: nat, k: nat) returns (steps: seq<Step<E>>, t: State<E>)
    requires Safe(s) && IsOpen(s, r) && !s.relays[r].claiming && s.relays[r].sent == k <= |s.relays[r].batch|
    ensures Leads(s, steps, t)
    ensures t == s.(relays := s.relays[r := s.relays[r].(sent := |s.relays[r].batch|)], sends := t.sends)
    decreases |s.relays[r].batch| - k
  {
    if k == |s.relays[r].batch| {
      steps, t := [], s;
    } else {
      var next := Do(s, Send(r));
      StepKeepsSafe(s, Send(r));
      var rest;
      rest, t := SendsLead(next, r, k + 1);
      steps := [Send(r)] + rest;
      LeadsByOne(s, Send(r));
      LeadsOn(s, [Send(r)], next, rest, t);
      assert t.relays == s.relays[r := s.relays[r].(sent := |s.relays[r].batch|)];
    }
  }

  /** The broker taking the first k rows of a fully sent batch, the lost ones apart, in order. */
  lemma {:induction false} TakesLead<E>(s: State<E>, r: nat, k: nat, fate: nat -> Fate)
    returns (steps: seq<Step<E>>, t: State<E>)
    requires IsOpen(s, r) && s.relays[r].taken == [] && k <= s.relays[r].sent == |s.relays[r].batch|
    ensures Leads(s, steps, t)
    ensures var taken := Appended(s.relays[r].batch[..k], fate);
            t == s.(relays := s.relays[r := s.relays[r].(taken := taken)], log := s.log + taken)
    decreases k
  {
    var batch := s.relays[r].batch;
    if k == 0 {
      steps, t := [], s;
      assert s.log + [] == s.log && s.relays[r := s.relays[r]] == s.relays;
    } else {
      var first, mid := TakesLead(s, r, k - 1, fate);
      var before := Appended(batch[..k - 1], fate);
      assert batch[..k][..k - 1] == batch[..k - 1] && batch[..k][k - 1] == batch[k - 1];
      if fate(batch[k - 1]).Lost? {
        assert Appended(batch[..k], fate) == before;
        steps, t := first, mid;
      } else {
        assert Appended(batch[..k], fate) == before + [batch[k - 1]];
        t := Do(mid, Take(r, k - 1));
        LeadsByOne(mid, Take(r, k - 1));
        LeadsOn(s, first, mid, [Take(r, k - 1)], t);
        steps := first + [Take(r, k - 1)];
        assert t.log == s.log + Appended(batch[..k], fate);
        assert t.relays == s.relays[r := s.relays[r].(taken := before + [batch[k - 1]])];
      }
    }
  }

  lemma HeldDependsOnOthers<E>(s: State<E>, t: State<E>, r: nat)
    requires s.locks == t.locks && |s.relays| == |t.relays|
    requires forall q :: 0 <= q < |s.relays| && q != r ==> t.relays[q] == s.relays[q]
    ensures Held(t, r) == Held(s, r)
  {
    assert forall q: nat :: q < |s.relays| && q != r ==> (Locking(t, q) <==> Locking(s, q));
  }

  /** Claiming, fetching and sending a whole batch. */
  lemma ClaimAndSendsLead<E>(s: State<E>, r: nat, limit: nat) returns (steps: seq<Step<E>>, t: State<E>)
    requires Safe(s) && r < |s.relays| && s.relays[r].Idle? && Claimed(s.rows, Held(s, r), limit) != []
    ensures Leads(s, steps, t)
    ensures var batch := Claimed(s.rows, Held(s, r), limit);
            t == s.(relays := s.relays[r := Open(false, batch, |batch|, [])], sends := t.sends)
  {
    var batch := Claimed(s.rows, Held(s, r), limit);
    var claimed := Do(s, Claim(r, limit));
    LeadsByOne(s, Claim(r, limit));
    StepKeepsSafe(s, Claim(r, limit));
    var fetched := Do(claimed, Fetch(r));
    LeadsByOne(claimed, Fetch(r));
    StepKeepsSafe(claimed, Fetch(r));
    LeadsOn(s, [Claim(r, limit)], claimed, [Fetch(r)], fetched);
    var sends;
    sends, t := SendsLead(fetched, r, 0);
    steps := [Claim(r, limit)] + [Fetch(r)] + sends;
    LeadsOn(s, [Claim(r, limit)] + [Fetch(r)], fetched, sends, t);
    assert t.relays == s.relays[r := Open(false, batch, |batch|, [])];
  }

  /** How a pass ends: with these rows recorded, or abandoned. */
  datatype Ending = Recorded(ids: seq<nat>) | Abandoned

  function AfterEnding<E>(rows: seq<OutboxRow<E>>, ending: Ending): seq<OutboxRow<E>> {
    match ending
    case Recorded(ids) => Marked(rows, ids)
    case Abandoned => rows
  }

  lemma EndLeads<E>(s: State<E>, r: nat, ending: Ending) returns (step: Step<E>, t: State<E>)
    requires IsOpen(s, r) && !s.relays[r].claiming && s.relays[r].sent == |s.relays[r].batch|
    requires ending.Recorded? ==> forall e :: e in ending.ids ==> e in s.relays[r].taken && e !in Held(s, r)
    ensures Leads(s, [step], t)
    ensures t == s.(rows := AfterEnding(s.rows, ending), relays := s.relays[r := Idle], lapses := t.lapses)
  {
    step := if ending.Recorded? then Record(r, ending.ids) else Abandon(r);
    assert ending.Recorded? ==> forall k :: 0 <= k < |ending.ids| ==> ending.ids[k] in ending.ids;
    t := Do(s, step);
    LeadsByOne(s, step);
  }

  /**
   A pass that claims, sends all, meets the given fates and ends as given is a run of the machine, from
   any safe state in which its relay is idle, whatever the other relays are in the middle of.
   */
  lemma PassLeads<E>(s: State<E>, r: nat, limit: nat, fate: nat -> Fate, ending: Ending)
    returns (steps: seq<Step<E>>, t: State<E>)
    requires Safe(s) && r < |s.relays| && s.relays[r].Idle? && Claimed(s.rows, Held(s, r), limit) != []
    requires ending.Recorded? ==>
               forall e :: e in ending.ids ==> e in Appended(Claimed(s.rows, Held(s, r), limit), fate)
    ensures Leads(s, steps, t)
    ensures t.rows == AfterEnding(s.rows, ending) && t.relays == s.relays
    ensures t.log == s.log + Appended(Claimed(s.rows, Held(s, r), limit), fate)
  {
    var batch := Claimed(s.rows, Held(s, r), limit);
    var sends, sent := ClaimAndSendsLead(s, r, limit);
    var takes, taken := TakesLead(sent, r, |batch|, fate);
    assert batch[..|batch|] == batch;
    LeadsOn(s, sends, sent, takes, taken);
    HeldDependsOnOthers(s, taken, r);
    ClaimTakesTheOldest(s.rows, Held(s, r), limit);
    DeliveredRowsWereAppended(batch, fate);
    var last;
    last, t := EndLeads(taken, r, ending);
    LeadsOn(s, sends + takes, taken, [last], t);
    steps := sends + takes + [last];
    assert t.relays == s.relays;
  }

  /**
   A pass of the relay process, committed or rolled back, is a run of the machine: there are steps that
   leave the rows and the log exactly as `RunOnce` does, and the relay idle again.
   */
  lemma RunOnceIsARun<E>(s: State<E>, r: nat, limit: nat, fate: nat -> Fate, commits: bool)
    returns (steps: seq<Step<E>>, t: State<E>)
    requires Safe(s) && r < |s.relays| && s.relays[r].Idle?
    ensures Leads(s, steps, t)
    ensures var batch := Claimed(s.rows, Held(s, r), limit);
            && t.rows == (if commits then Marked(s.rows, Delivered(batch, fate)) else s.rows)
            && t.log == s.log + Appended(batch, fate) && t.relays == s.relays
  {
    var batch := Claimed(s.rows, Held(s, r), limit);
    if batch == [] {
      steps, t := [], s;
      assert Marked(s.rows, []) == s.rows && s.log + [] == s.log;
    } else {
      ClaimTakesTheOldest(s.rows, Held(s, r), limit);
      DeliveredRowsWereAppended(batch, fate);
      steps, t := PassLeads(s, r, limit, fate, if commits then Recorded(Delivered(batch, fate)) else Abandoned);
    }
  }
}
