/**
 The consuming side as a step machine: any number of consumers of one group, each handling one
 message at a time, with the gap between duplicate check and commit, failures, lost commit
 confirmations, rebalances, restarts and offset commits all as separate steps.

 An offset commit covers every position the consumer has reached in every partition it owns.
 */
module Consuming {
  import opened Common
  import opened RelatedTable
  import opened Replay

  datatype Partition = Partition(topic: Topic, index: nat)

  /** What the broker offers: outbox events, the log of row ids, and the partition each event goes to. */
  datatype Feed = Feed(events: seq<Event>, log: seq<nat>, home: Event -> Partition)

  datatype Handling =
    | Waiting
    | Received(at: nat)
    | Applying(at: nat)
    | Succeeded(at: nat)

  /** `failed` are the log places whose handling returned False since the consumer last started afresh. */
  datatype Consumer = Consumer(position: map<Partition, nat>, handling: Handling, failed: set<nat>)

  /**
   `applied` lists the row ids whose effects committed, in commit order; `everFailed` the places
   handled with result False; `passedOver` the failed places an offset commit has gone past.
   */
  datatype State = State(
    consumers: seq<Consumer>, committed: map<Partition, nat>,
    table: Table, processed: set<nat>, applied: seq<nat>, everFailed: set<nat>, passedOver: set<nat>)

  datatype Step =
    | Deliver(consumer: nat, partition: Partition, at: nat)
    | Check(consumer: nat)
    | Apply(consumer: nat, confirmed: bool)
    | Fault(consumer: nat)
    | CommitOffsets(consumer: nat)
    | Lose(consumer: nat)
    | Restart(consumer: nat)
    | Assign(consumer: nat, partition: Partition)

  predicate ValidFeed(f: Feed) {
    forall k :: 0 <= k < |f.log| ==> f.log[k] < |f.events|
  }

  ghost predicate LivesIn(f: Feed, k: int, p: Partition)
    requires ValidFeed(f)
  {
    0 <= k < |f.log| && f.home(f.events[f.log[k]]) == p
  }

  ghost predicate FeedGrows(f: Feed, g: Feed) {
    f.events <= g.events && f.log <= g.log && f.home == g.home
  }

  function CommittedIn(s: State, p: Partition): nat {
    if p in s.committed then s.committed[p] else 0
  }

  predicate InHand(c: Consumer) {
    c.handling.Received? || c.handling.Applying?
  }

  predicate Owned(s: State, p: Partition) {
    exists c :: 0 <= c < |s.consumers| && p in s.consumers[c].position
  }

  ghost predicate Init(s: State) {
    && s.committed == map[] && s.table == map[] && s.processed == {} && s.applied == []
    && s.everFailed == {} && s.passedOver == {}
    && forall c :: 0 <= c < |s.consumers| ==> s.consumers[c] == Consumer(map[], Waiting, {})
  }

  ghost predicate Enabled(f: Feed, s: State, step: Step)
    requires ValidFeed(f)
  {
    && step.consumer < |s.consumers|
    && var c := s.consumers[step.consumer];
       match step
       case Deliver(_, p, at) =>
         && c.handling.Waiting? && p in c.position && c.position[p] <= at && LivesIn(f, at, p)
         && forall k :: c.position[p] <= k < at ==> !LivesIn(f, k, p)
       case Check(_) => c.handling.Received?
       case Apply(_, _) => c.handling.Applying?
       case Fault(_) => InHand(c)
       case CommitOffsets(_) => c.handling.Succeeded?
       case Lose(_) => true
       case Restart(_) => true
       case Assign(_, p) => c.handling.Waiting? && !Owned(s, p)
  }

  function WithConsumer(s: State, i: nat, c: Consumer): State {
    if i < |s.consumers| then s.(consumers := s.consumers[i := c]) else s
  }

  /** `handle` returned False: the session was rolled back and the position stays where it is. */
  function Failing(s: State, i: nat, c: Consumer, at: nat): State {
    WithConsumer(s, i, c.(handling := Waiting, failed := c.failed + {at})).(everFailed := s.everFailed + {at})
  }

  ghost function Do(f: Feed, s: State, step: Step): State
    requires ValidFeed(f) && Enabled(f, s, step) && Unique(s.table) && Inside(f, s)
  {
    var i, c := step.consumer, s.consumers[step.consumer];
    match step
    case Deliver(_, p, at) => WithConsumer(s, i, c.(handling := Received(at), position := c.position[p := at + 1]))
    case Check(_) =>
      var at := c.handling.at;
      WithConsumer(s, i, c.(handling := if f.log[at] in s.processed then Succeeded(at) else Applying(at)))
    case Apply(_, confirmed) => Committing(f, s, i, confirmed)
    case Fault(_) => Failing(s, i, c, c.handling.at)
    case CommitOffsets(_) =>
      WithConsumer(s, i, c.(handling := Waiting))
      .(committed := s.committed + c.position, passedOver := s.passedOver + c.failed)
    case Lose(_) => WithConsumer(s, i, c.(position := map[], failed := {}))
    case Restart(_) => WithConsumer(s, i, Consumer(map[], Waiting, {}))
    case Assign(_, p) => WithConsumer(s, i, c.(position := c.position[p := CommittedIn(s, p)]))
  }

  /** The transaction commits the effect with the event id, unless the id is there already or the handler faults. */
  ghost function Committing(f: Feed, s: State, i: nat, confirmed: bool): State
    requires ValidFeed(f) && Unique(s.table) && Inside(f, s)
    requires i < |s.consumers| && s.consumers[i].handling.Applying?
  {
    var c := s.consumers[i];
    var at := c.handling.at;
    var e := f.log[at];
    var outcome := RelatedTable.Apply(s.table, f.events[e]);
    if e in s.processed || outcome.Failure? then Failing(s, i, c, at)
    else
      var done := s.(table := outcome.value, processed := s.processed + {e}, applied := s.applied + [e]);
      if confirmed then WithConsumer(done, i, c.(handling := Succeeded(at))) else Failing(done, i, c, at)
  }

  /** Every message in some consumer's hands is in the log. */
  ghost predicate Inside(f: Feed, s: State) {
    forall c :: 0 <= c < |s.consumers| && !s.consumers[c].handling.Waiting? ==> s.consumers[c].handling.at < |f.log|
  }

  // ---- Exactly-once effect, and the table as a replay of the effects

  ghost function Picked(events: seq<Event>, ids: seq<nat>): (r: seq<Event>)
    requires forall k :: 0 <= k < |ids| ==> ids[k] < |events|
    ensures |r| == |ids| && forall k :: 0 <= k < |ids| ==> r[k] == events[ids[k]]
  {
    seq(|ids|, k requires 0 <= k < |ids| => events[ids[k]])
  }

  /** Each event id has at most one committed effect, the processed set is those ids, and the table is their replay. */
  ghost predicate ExactlyOnce(f: Feed, s: State) {
    && Inside(f, s)
    && Distinct(s.applied)
    && (forall e :: e in s.processed <==> e in s.applied)
    && (forall k :: 0 <= k < |s.applied| ==> s.applied[k] in f.log && s.applied[k] < |f.events|)
    && Replays(s.table, Picked(f.events, s.applied))
  }

  /** The table is what these events leave when each is applied without a fault. */
  ghost predicate Replays(t: Table, events: seq<Event>) {
    t == TableAfter(events) && AllSucceed(events)
  }

  lemma ReplayOneMore(t: Table, events: seq<Event>, ids: seq<nat>, e: nat)
    requires (forall k :: 0 <= k < |ids| ==> ids[k] < |events|) && e < |events|
    requires Replays(t, Picked(events, ids)) && Unique(t) && RelatedTable.Apply(t, events[e]).Success?
    ensures Replays(RelatedTable.Apply(t, events[e]).value, Picked(events, ids + [e]))
  {
    assert Picked(events, ids + [e]) == Picked(events, ids) + [events[e]];
    TableAfterOneMore(Picked(events, ids), events[e]);
    AllSucceedGrows(Picked(events, ids), events[e]);
  }

  lemma StepKeepsExactlyOnce(f: Feed, s: State, step: Step)
    requires ValidFeed(f) && ExactlyOnce(f, s) && Enabled(f, s, step)
    ensures ExactlyOnce(f, Do(f, s, step))
  {
    if step.Apply? {
      CommittingKeepsExactlyOnce(f, s, step.consumer, step.confirmed);
    }
  }

  lemma CommittingKeepsExactlyOnce(f: Feed, s: State, i: nat, confirmed: bool)
    requires ValidFeed(f) && ExactlyOnce(f, s)
    requires i < |s.consumers| && s.consumers[i].handling.Applying?
    ensures ExactlyOnce(f, Committing(f, s, i, confirmed))
  {
    var e := f.log[s.consumers[i].handling.at];
    var s' := Committing(f, s, i, confirmed);
    if e !in s.processed && RelatedTable.Apply(s.table, f.events[e]).Success? {
      ReplayOneMore(s.table, f.events, s.applied, e);
      assert e !in s.applied;
    }
  }

  // ---- Offset safety

  /** The message at place k has been applied, or an offset commit has passed over its failure. */
  ghost predicate Settled(f: Feed, s: State, k: int) {
    0 <= k < |f.log| && (f.log[k] in s.processed || k in s.passedOver)
  }

  ghost predicate Behind(f: Feed, s: State, c: Consumer)
    requires ValidFeed(f)
  {
    forall p, k :: p in c.position && k < c.position[p] && LivesIn(f, k, p) ==>
      Settled(f, s, k) || k in c.failed || (InHand(c) && c.handling.at == k)
  }

  /**
   Below a committed offset every message was applied or failed and was passed over; below a
   position the only others are failures since the last restart and the message in hand.
   */
  ghost predicate OffsetsSafe(f: Feed, s: State)
    requires ValidFeed(f)
  {
    && s.passedOver <= s.everFailed
    && (forall p, k :: k < CommittedIn(s, p) && LivesIn(f, k, p) ==> Settled(f, s, k))
    && (forall p :: CommittedIn(s, p) <= |f.log|)
    && (forall c :: 0 <= c < |s.consumers| ==> Behind(f, s, s.consumers[c]) && Placed(f, s, s.consumers[c]))
  }

  /** The places a consumer refers to: failures that happened, positions in the log, a success that was applied. */
  ghost predicate Placed(f: Feed, s: State, c: Consumer) {
    && c.failed <= s.everFailed
    && (forall p :: p in c.position ==> c.position[p] <= |f.log|)
    && (c.handling.Succeeded? ==> c.handling.at < |f.log| && f.log[c.handling.at] in s.processed)
  }

  lemma StepKeepsOffsetsSafe(f: Feed, s: State, step: Step)
    requires ValidFeed(f) && ExactlyOnce(f, s) && OffsetsSafe(f, s) && Enabled(f, s, step)
    ensures OffsetsSafe(f, Do(f, s, step))
  {
    var s' := Do(f, s, step);
    var i := step.consumer;
    forall c | 0 <= c < |s.consumers| ensures Behind(f, s', s'.consumers[c]) && Placed(f, s', s'.consumers[c]) {
      assert Behind(f, s, s.consumers[c]) && Placed(f, s, s.consumers[c]);
      if c == i {
        OwnStepKeepsBehind(f, s, step);
        OwnStepKeepsPlaced(f, s, step);
      } else {
        assert s'.consumers[c] == s.consumers[c];
        assert forall k :: Settled(f, s, k) ==> Settled(f, s', k);
      }
    }
    if step.CommitOffsets? {
      CommitKeepsOffsetsSafe(f, s, i);
    } else {
      OtherStepsKeepCommitted(f, s, step);
    }
  }

  lemma OtherStepsKeepCommitted(f: Feed, s: State, step: Step)
    requires ValidFeed(f) && ExactlyOnce(f, s) && OffsetsSafe(f, s) && Enabled(f, s, step) && !step.CommitOffsets?
    ensures var s' := Do(f, s, step);
            && (forall p, k :: k < CommittedIn(s', p) && LivesIn(f, k, p) ==> Settled(f, s', k))
            && (forall p :: CommittedIn(s', p) <= |f.log|)
  {
    var s' := Do(f, s, step);
    assert s'.committed == s.committed;
    assert forall p :: CommittedIn(s', p) == CommittedIn(s, p);
    assert forall k :: Settled(f, s, k) ==> Settled(f, s', k);
  }

  lemma OwnStepKeepsPlaced(f: Feed, s: State, step: Step)
    requires ValidFeed(f) && ExactlyOnce(f, s) && OffsetsSafe(f, s) && Enabled(f, s, step)
    ensures Placed(f, Do(f, s, step), Do(f, s, step).consumers[step.consumer])
  {
    assert Placed(f, s, s.consumers[step.consumer]);
    if step.Assign? {
      assert CommittedIn(s, step.partition) <= |f.log|;
    }
  }

  lemma OwnStepKeepsBehind(f: Feed, s: State, step: Step)
    requires ValidFeed(f) && ExactlyOnce(f, s) && OffsetsSafe(f, s) && Enabled(f, s, step)
    ensures Behind(f, Do(f, s, step), Do(f, s, step).consumers[step.consumer])
  {
    var s' := Do(f, s, step);
    var c, c' := s.consumers[step.consumer], s'.consumers[step.consumer];
    assert Behind(f, s, c);
    forall p, k | p in c'.position && k < c'.position[p] && LivesIn(f, k, p)
      ensures Settled(f, s', k) || k in c'.failed || (InHand(c') && c'.handling.at == k)
    {
      assert Settled(f, s, k) ==> Settled(f, s', k);
    }
  }

  lemma CommitKeepsOffsetsSafe(f: Feed, s: State, i: nat)
    requires ValidFeed(f) && ExactlyOnce(f, s) && OffsetsSafe(f, s) && Enabled(f, s, CommitOffsets(i))
    ensures var s' := Do(f, s, CommitOffsets(i));
            && (forall p, k :: k < CommittedIn(s', p) && LivesIn(f, k, p) ==> Settled(f, s', k))
            && (forall p :: CommittedIn(s', p) <= |f.log|)
  {
    var s' := Do(f, s, CommitOffsets(i));
    var c := s.consumers[i];
    forall p, k | k < CommittedIn(s', p) && LivesIn(f, k, p) ensures Settled(f, s', k) {
      assert Settled(f, s, k) ==> Settled(f, s', k);
      if p in c.position {
        assert Behind(f, s, c);
      } else {
        assert CommittedIn(s', p) == CommittedIn(s, p);
      }
    }
    forall p ensures CommittedIn(s', p) <= |f.log| {
      assert p in c.position ==> CommittedIn(s', p) == c.position[p];
      assert p !in c.position ==> CommittedIn(s', p) == CommittedIn(s, p);
    }
  }

  /** What one offset commit loses: exactly the failed, unapplied messages of its partitions behind its positions. */
  lemma CommitSkipsExactlyOutstandingFailures(f: Feed, s: State, i: nat, p: Partition, k: nat)
    requires ValidFeed(f) && ExactlyOnce(f, s) && OffsetsSafe(f, s) && Enabled(f, s, CommitOffsets(i))
    requires p in s.consumers[i].position && LivesIn(f, k, p) && f.log[k] !in s.processed && k !in s.passedOver
    ensures k < CommittedIn(Do(f, s, CommitOffsets(i)), p)
       <==> k in s.consumers[i].failed && k < s.consumers[i].position[p]
  {
    assert Behind(f, s, s.consumers[i]);
  }

  /** From any state, a consumer that was handed a message and failed on it stands behind that message. */
  lemma FailureLeavesPositionAhead(f: Feed, s: State, i: nat, p: Partition, at: nat)
    requires ValidFeed(f) && ExactlyOnce(f, s) && Enabled(f, s, Deliver(i, p, at))
    ensures var received := Do(f, s, Deliver(i, p, at));
            && ExactlyOnce(f, received) && Enabled(f, received, Fault(i))
            && var c := Do(f, received, Fault(i)).consumers[i];
               c.handling.Waiting? && at in c.failed && p in c.position && c.position[p] == at + 1
  {
    StepKeepsExactlyOnce(f, s, Deliver(i, p, at));
  }

  /** Nothing but losing the partition or starting afresh takes a consumer's position back. */
  lemma PositionsOnlyAdvance(f: Feed, s: State, step: Step, i: nat, p: Partition)
    requires ValidFeed(f) && Unique(s.table) && Inside(f, s) && Enabled(f, s, step)
    requires i < |s.consumers| && p in s.consumers[i].position && step != Lose(i) && step != Restart(i)
    ensures var c := Do(f, s, step).consumers[i];
            p in c.position && s.consumers[i].position[p] <= c.position[p]
  {
    if step.Assign? && step.consumer == i {
      assert Owned(s, p) && step.partition != p;
    }
  }

  lemma StartIsExactlyOnce(f: Feed, s: State)
    requires ValidFeed(f) && Init(s)
    ensures ExactlyOnce(f, s)
  {
    assert Picked(f.events, []) == [];
  }

  /** A consumer that has just started is handed the first message of its partition, and fails on it. */
  lemma FirstIsFailed(f: Feed, s: State, p: Partition) returns (begun: State, received: State, failed: State)
    requires ValidFeed(f) && Init(s) && |s.consumers| == 1 && LivesIn(f, 0, p)
    ensures ExactlyOnce(f, s) && Enabled(f, s, Assign(0, p)) && begun == Do(f, s, Assign(0, p))
    ensures ExactlyOnce(f, begun) && Enabled(f, begun, Deliver(0, p, 0))
    ensures received == Do(f, begun, Deliver(0, p, 0)) && ExactlyOnce(f, received)
    ensures Enabled(f, received, Fault(0)) && failed == Do(f, received, Fault(0)) && ExactlyOnce(f, failed)
    ensures failed == s.(consumers := [Consumer(map[p := 1], Waiting, {0})], everFailed := {0})
  {
    StartIsExactlyOnce(f, s);
    begun := Do(f, s, Assign(0, p));
    StepKeepsExactlyOnce(f, s, Assign(0, p));
    assert map[][p := 0] == map[p := 0] && begun.consumers == [Consumer(map[p := 0], Waiting, {})];
    received := Do(f, begun, Deliver(0, p, 0));
    StepKeepsExactlyOnce(f, begun, Deliver(0, p, 0));
    assert map[p := 0][p := 1] == map[p := 1];
    assert received.consumers == [Consumer(map[p := 1], Received(0), {})];
    failed := Do(f, received, Fault(0));
    StepKeepsExactlyOnce(f, received, Fault(0));
    assert {} + {0} == {0} && failed.consumers == [Consumer(map[p := 1], Waiting, {0})];
  }

  /**
   From a fresh start: a failure, then a success, then its commit. The message that failed is passed
   over without having been applied.
   */
  lemma LaterSuccessPassesOverFailure(f: Feed, s: State, p: Partition)
    returns (failed: State, received: State, applying: State, succeeded: State, committed: State)
    requires ValidFeed(f) && Init(s) && |s.consumers| == 1
    requires |f.log| == 2 && LivesIn(f, 0, p) && LivesIn(f, 1, p) && f.log[0] != f.log[1]
    requires RelatedTable.Apply(map[], f.events[f.log[1]]).Success?
    ensures failed == s.(consumers := [Consumer(map[p := 1], Waiting, {0})], everFailed := {0})
    ensures ExactlyOnce(f, failed)
    ensures Enabled(f, failed, Deliver(0, p, 1)) && received == Do(f, failed, Deliver(0, p, 1))
    ensures ExactlyOnce(f, received) && Enabled(f, received, Check(0)) && applying == Do(f, received, Check(0))
    ensures ExactlyOnce(f, applying) && Enabled(f, applying, Apply(0, true))
    ensures succeeded == Do(f, applying, Apply(0, true))
    ensures ExactlyOnce(f, succeeded) && Enabled(f, succeeded, CommitOffsets(0))
    ensures committed == Do(f, succeeded, CommitOffsets(0))
    ensures CommittedIn(committed, p) == 2 && f.log[0] !in committed.processed
  {
    var begun, first;
    begun, first, failed := FirstIsFailed(f, s, p);
    received, applying := SecondIsChecked(f, failed, p);
    succeeded, committed := SecondIsCommitted(f, applying, p);
  }

  lemma SecondIsChecked(f: Feed, s: State, p: Partition) returns (received: State, applying: State)
    requires ValidFeed(f) && ExactlyOnce(f, s) && |f.log| == 2 && LivesIn(f, 1, p) && s.processed == {}
    requires s.consumers == [Consumer(map[p := 1], Waiting, {0})]
    ensures Enabled(f, s, Deliver(0, p, 1)) && received == Do(f, s, Deliver(0, p, 1)) && ExactlyOnce(f, received)
    ensures Enabled(f, received, Check(0)) && applying == Do(f, received, Check(0)) && ExactlyOnce(f, applying)
    ensures applying == s.(consumers := [Consumer(map[p := 2], Applying(1), {0})])
  {
    received := Do(f, s, Deliver(0, p, 1));
    StepKeepsExactlyOnce(f, s, Deliver(0, p, 1));
    assert map[p := 1][p := 2] == map[p := 2];
    assert received.consumers == [Consumer(map[p := 2], Received(1), {0})];
    applying := Do(f, received, Check(0));
    StepKeepsExactlyOnce(f, received, Check(0));
    assert applying.consumers == [Consumer(map[p := 2], Applying(1), {0})];
  }

  lemma SecondIsCommitted(f: Feed, s: State, p: Partition) returns (succeeded: State, committed: State)
    requires ValidFeed(f) && ExactlyOnce(f, s) && |f.log| == 2 && f.log[0] != f.log[1] && s.processed == {}
    requires RelatedTable.Apply(s.table, f.events[f.log[1]]).Success?
    requires s.consumers == [Consumer(map[p := 2], Applying(1), {0})]
    ensures Enabled(f, s, Apply(0, true)) && succeeded == Do(f, s, Apply(0, true)) && ExactlyOnce(f, succeeded)
    ensures Enabled(f, succeeded, CommitOffsets(0)) && committed == Do(f, succeeded, CommitOffsets(0))
    ensures CommittedIn(committed, p) == 2 && f.log[0] !in committed.processed
  {
    succeeded := Do(f, s, Apply(0, true));
    StepKeepsExactlyOnce(f, s, Apply(0, true));
    assert succeeded.processed == {f.log[1]};
    assert succeeded.consumers[0] == Consumer(map[p := 2], Succeeded(1), {0});
    committed := Do(f, succeeded, CommitOffsets(0));
  }

  /** A consumer that starts afresh after each failure: no delivery or offset commit while one is outstanding. */
  ghost predicate Careful(s: State, step: Step) {
    (step.Deliver? || step.CommitOffsets?) && step.consumer < |s.consumers| ==> s.consumers[step.consumer].failed == {}
  }

  /** The weaker habit offset safety needs: no success is committed while a failure is outstanding. */
  ghost predicate RestartsBeforeSuccess(s: State, step: Step) {
    step.CommitOffsets? && step.consumer < |s.consumers| ==> s.consumers[step.consumer].failed == {}
  }

  // ---- Order of effects within a partition, for careful consumers

  ghost predicate DoneBefore(f: Feed, s: State, at: nat)
    requires ValidFeed(f)
  {
    at < |f.log| && forall k :: 0 <= k < at && LivesIn(f, k, f.home(f.events[f.log[at]])) ==> f.log[k] in s.processed
  }

  /** What this consumer has in hand comes after everything before it, with no failure outstanding. */
  ghost predicate Fresh(f: Feed, s: State, c: nat)
    requires ValidFeed(f) && c < |s.consumers| && InHand(s.consumers[c])
  {
    s.consumers[c].failed == {} && DoneBefore(f, s, s.consumers[c].handling.at)
  }

  ghost predicate SameHome(f: Feed, a: nat, b: nat) {
    a < |f.events| && b < |f.events| && f.home(f.events[a]) == f.home(f.events[b])
  }

  /** Nothing was passed over, whatever is in hand comes after everything before it, and effects follow the log. */
  ghost predicate InSequence(f: Feed, s: State)
    requires ValidFeed(f)
  {
    && s.passedOver == {}
    && (forall c: nat :: c < |s.consumers| && InHand(s.consumers[c]) ==> Fresh(f, s, c))
    && (forall a: nat, b: nat :: a != b && SameHome(f, a, b) && b in s.applied && Before(f.log, a, b) ==>
          Before(s.applied, a, b))
  }

  lemma StepKeepsInSequence(f: Feed, s: State, step: Step)
    requires ValidFeed(f) && ExactlyOnce(f, s) && OffsetsSafe(f, s) && InSequence(f, s)
    requires Enabled(f, s, step) && Careful(s, step)
    ensures InSequence(f, Do(f, s, step))
  {
    var s' := Do(f, s, step);
    forall c: nat | c < |s.consumers| && InHand(s'.consumers[c]) ensures Fresh(f, s', c) {
      HandStaysInSequence(f, s, step, c);
    }
    if step.Apply? {
      AppliedInSequence(f, s, step.consumer, step.confirmed);
    }
  }

  lemma HandStaysInSequence(f: Feed, s: State, step: Step, c: nat)
    requires ValidFeed(f) && ExactlyOnce(f, s) && OffsetsSafe(f, s) && InSequence(f, s)
    requires Enabled(f, s, step) && Careful(s, step)
    requires c < |s.consumers| && InHand(Do(f, s, step).consumers[c])
    ensures Fresh(f, Do(f, s, step), c)
  {
    var s' := Do(f, s, step);
    if c == step.consumer && step.Deliver? {
      DeliveredInSequence(f, s, step);
    } else {
      HeldStaysInHand(f, s, step, c);
      assert Fresh(f, s, c);
    }
  }

  /** Only a delivery puts a message into a consumer's hands. */
  lemma HeldStaysInHand(f: Feed, s: State, step: Step, c: nat)
    requires ValidFeed(f) && ExactlyOnce(f, s) && Enabled(f, s, step)
    requires c < |s.consumers| && InHand(Do(f, s, step).consumers[c]) && !(c == step.consumer && step.Deliver?)
    ensures var before, after := s.consumers[c], Do(f, s, step).consumers[c];
            InHand(before) && before.handling.at == after.handling.at && (before.failed == {} ==> after.failed == {})
    ensures s.processed <= Do(f, s, step).processed
  {
  }

  lemma DeliveredInSequence(f: Feed, s: State, step: Step)
    requires ValidFeed(f) && ExactlyOnce(f, s) && OffsetsSafe(f, s) && s.passedOver == {}
    requires step.Deliver? && Enabled(f, s, step) && Careful(s, step)
    ensures DoneBefore(f, Do(f, s, step), step.at)
  {
    var c := s.consumers[step.consumer];
    forall k | 0 <= k < step.at && LivesIn(f, k, step.partition) ensures f.log[k] in s.processed {
      assert k < c.position[step.partition];
      assert Behind(f, s, c);
    }
  }

  lemma AppliedInSequence(f: Feed, s: State, i: nat, confirmed: bool)
    requires ValidFeed(f) && ExactlyOnce(f, s) && InSequence(f, s)
    requires i < |s.consumers| && s.consumers[i].handling.Applying?
    ensures var s' := Committing(f, s, i, confirmed);
            forall a: nat, b: nat :: a != b && SameHome(f, a, b) && b in s'.applied && Before(f.log, a, b) ==>
              Before(s'.applied, a, b)
  {
    var s' := Committing(f, s, i, confirmed);
    var at := s.consumers[i].handling.at;
    var e := f.log[at];
    assert s'.applied == s.applied || (e !in s.applied && s'.applied == s.applied + [e]);
    assert Fresh(f, s, i) && DoneBefore(f, s, at);
    forall a: nat, b: nat | a != b && SameHome(f, a, b) && b in s'.applied && Before(f.log, a, b)
      ensures Before(s'.applied, a, b)
    {
      if b in s.applied {
        BeforeSurvivesGrowth(s.applied, s'.applied, a, b);
      } else {
        PrecedingIsApplied(f, s, at, a);
        AppendedComesAfter(s.applied, a, e);
      }
    }
  }

  lemma PrecedingIsApplied(f: Feed, s: State, at: nat, a: nat)
    requires ValidFeed(f) && ExactlyOnce(f, s) && DoneBefore(f, s, at)
    requires SameHome(f, a, f.log[at]) && Before(f.log, a, f.log[at])
    ensures a in s.applied
  {
    var k :| 0 <= k < |f.log| && f.log[k] == a && f.log[at] !in f.log[..k + 1];
    assert forall m :: 0 <= m <= k ==> f.log[m] in f.log[..k + 1];
    assert LivesIn(f, k, f.home(f.events[f.log[at]]));
  }

  // ---- A growing feed changes none of this

  lemma GrowthKeepsAll(f: Feed, g: Feed, s: State)
    requires ValidFeed(f) && ValidFeed(g) && FeedGrows(f, g)
    requires ExactlyOnce(f, s)
    ensures ExactlyOnce(g, s)
    ensures OffsetsSafe(f, s) ==> OffsetsSafe(g, s)
    ensures InSequence(f, s) ==> InSequence(g, s)
  {
    assert Picked(g.events, s.applied) == Picked(f.events, s.applied);
    assert forall k, p :: k < |f.log| ==> (LivesIn(f, k, p) <==> LivesIn(g, k, p));
    if OffsetsSafe(f, s) {
      GrowthKeepsOffsetsSafe(f, g, s);
    }
    if InSequence(f, s) {
      GrowthKeepsInSequence(f, g, s);
    }
  }

  lemma GrowthKeepsOffsetsSafe(f: Feed, g: Feed, s: State)
    requires ValidFeed(f) && ValidFeed(g) && FeedGrows(f, g) && OffsetsSafe(f, s)
    ensures OffsetsSafe(g, s)
  {
    assert forall k, p :: k < |f.log| ==> (LivesIn(f, k, p) <==> LivesIn(g, k, p));
    assert forall k :: Settled(f, s, k) ==> Settled(g, s, k);
    forall c | 0 <= c < |s.consumers| ensures Behind(g, s, s.consumers[c]) && Placed(g, s, s.consumers[c]) {
      assert Behind(f, s, s.consumers[c]) && Placed(f, s, s.consumers[c]);
    }
  }

  lemma GrowthKeepsInSequence(f: Feed, g: Feed, s: State)
    requires ValidFeed(f) && ValidFeed(g) && FeedGrows(f, g) && ExactlyOnce(f, s) && InSequence(f, s)
    ensures InSequence(g, s)
  {
    assert forall k, p :: k < |f.log| ==> (LivesIn(f, k, p) <==> LivesIn(g, k, p));
    forall c: nat | c < |s.consumers| && InHand(s.consumers[c]) ensures Fresh(g, s, c) {
      assert Fresh(f, s, c) && DoneBefore(f, s, s.consumers[c].handling.at);
    }
    forall a: nat, b: nat | a != b && SameHome(g, a, b) && b in s.applied && Before(g.log, a, b)
      ensures Before(s.applied, a, b)
    {
      BeforeWasDecided(f.log, g.log, a, b);
      var k :| 0 <= k < |f.log| && f.log[k] == a && b !in f.log[..k + 1];
      assert SameHome(f, a, b);
    }
  }
}
