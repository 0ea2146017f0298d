/**
 The two services, the relays, the broker and the consumers as one system, and what holds in
 every run of it.
 */
module Pipeline {
  import opened Common
  import opened RelatedTable
  import opened PostsService
  import opened Replay
  import opened SlugReuse
  import opened RelatedConsumer
  import Publishing
  import Consuming

  datatype System = System(posts: Posts, pub: Publishing.State<Event>, con: Consuming.State)

  datatype Step =
    | Publish(publishing: Publishing.Step<Event>)
    | Consume(consuming: Consuming.Step)

  /** Events are keyed by slug. */
  function KeyOf(e: Event): string {
    if e.payload.slug.Some? then e.payload.slug.value else ""
  }

  /** The topic and the hash of the key pick the partition. */
  function Home(hash: string -> nat): Event -> Consuming.Partition {
    (e: Event) => Consuming.Partition(e.topic, hash(KeyOf(e)))
  }

  function FeedOf(hash: string -> nat, p: Publishing.State<Event>): Consuming.Feed {
    Consuming.Feed(Events(p.rows), p.log, Home(hash))
  }

  ghost predicate Ready(hash: string -> nat, s: System) {
    && Consuming.ValidFeed(FeedOf(hash, s.pub))
    && Unique(s.con.table) && Consuming.Inside(FeedOf(hash, s.pub), s.con)
  }

  /** The posts table after a publishing step: a request's write commits together with its outbox row. */
  function PostsThrough(posts: Posts, step: Publishing.Step<Event>): Posts {
    if step.Write? then Replayed(posts, step.event) else posts
  }

  ghost predicate Next(hash: string -> nat, s: System, step: Step, s': System) {
    match step
    case Publish(p) =>
      && Publishing.Enabled(s.pub, p)
      && (p.Write? ==> Recordable(Events(s.pub.rows), p.event))
      && s' == s.(posts := PostsThrough(s.posts, p), pub := Publishing.Do(s.pub, p))
    case Consume(c) =>
      && Ready(hash, s) && Consuming.Enabled(FeedOf(hash, s.pub), s.con, c)
      && s' == s.(con := Consuming.Do(FeedOf(hash, s.pub), s.con, c))
  }

  ghost predicate Run(hash: string -> nat, states: seq<System>, steps: seq<Step>) {
    && |states| == |steps| + 1
    && states[0].posts == map[] && Publishing.Init(states[0].pub) && Consuming.Init(states[0].con)
    && forall i :: 0 <= i < |steps| ==> Next(hash, states[i], steps[i], states[i + 1])
  }

  // ---- Every run

  ghost predicate PublishingSound(s: System) {
    Publishing.Safe(s.pub) && Consistent(s.posts, s.pub.rows)
  }

  ghost predicate AppliesOnce(hash: string -> nat, s: System) {
    Consuming.ValidFeed(FeedOf(hash, s.pub)) && Consuming.ExactlyOnce(FeedOf(hash, s.pub), s.con)
  }

  ghost predicate KeepsOffsets(hash: string -> nat, s: System) {
    Consuming.ValidFeed(FeedOf(hash, s.pub)) && Consuming.OffsetsSafe(FeedOf(hash, s.pub), s.con)
  }

  ghost predicate Sound(hash: string -> nat, s: System) {
    PublishingSound(s) && AppliesOnce(hash, s) && KeepsOffsets(hash, s)
  }

  lemma FeedFollows(hash: string -> nat, p: Publishing.State<Event>, step: Publishing.Step<Event>)
    requires Publishing.Safe(p) && Publishing.Enabled(p, step)
    ensures var f, g := FeedOf(hash, p), FeedOf(hash, Publishing.Do(p, step));
            Consuming.ValidFeed(f) && Consuming.ValidFeed(g) && Consuming.FeedGrows(f, g)
  {
    Publishing.StepKeepsSafe(p, step);
    Publishing.StepExtends(p, step);
  }

  lemma StepKeepsConsistent(posts: Posts, p: Publishing.State<Event>, step: Publishing.Step<Event>)
    requires Consistent(posts, p.rows) && Publishing.Enabled(p, step)
    requires step.Write? ==> Recordable(Events(p.rows), step.event)
    ensures Consistent(PostsThrough(posts, step), Publishing.Do(p, step).rows)
  {
    if step.Write? {
      RecordingKeepsConsistent(posts, p.rows, step.event);
    } else {
      assert Events(Publishing.Do(p, step).rows) == Events(p.rows);
    }
  }

  lemma StepKeepsPublishingSound(hash: string -> nat, s: System, step: Step, s': System)
    requires PublishingSound(s) && Next(hash, s, step, s')
    ensures PublishingSound(s')
  {
    if step.Publish? {
      Publishing.StepKeepsSafe(s.pub, step.publishing);
      StepKeepsConsistent(s.posts, s.pub, step.publishing);
    }
  }

  lemma StepKeepsAppliesOnce(hash: string -> nat, s: System, step: Step, s': System)
    requires PublishingSound(s) && AppliesOnce(hash, s) && Next(hash, s, step, s')
    ensures AppliesOnce(hash, s')
  {
    var feed := FeedOf(hash, s.pub);
    match step
    case Publish(p) =>
      FeedFollows(hash, s.pub, p);
      Consuming.GrowthKeepsAll(feed, FeedOf(hash, s'.pub), s.con);
    case Consume(c) =>
      Consuming.StepKeepsExactlyOnce(feed, s.con, c);
  }

  lemma StepKeepsOffsets(hash: string -> nat, s: System, step: Step, s': System)
    requires PublishingSound(s) && AppliesOnce(hash, s) && KeepsOffsets(hash, s) && Next(hash, s, step, s')
    ensures KeepsOffsets(hash, s')
  {
    var feed := FeedOf(hash, s.pub);
    match step
    case Publish(p) =>
      FeedFollows(hash, s.pub, p);
      Consuming.GrowthKeepsAll(feed, FeedOf(hash, s'.pub), s.con);
    case Consume(c) =>
      Consuming.StepKeepsOffsetsSafe(feed, s.con, c);
  }

  lemma StepKeepsSound(hash: string -> nat, s: System, step: Step, s': System)
    requires Sound(hash, s) && Next(hash, s, step, s')
    ensures Sound(hash, s')
  {
    StepKeepsPublishingSound(hash, s, step, s');
    StepKeepsAppliesOnce(hash, s, step, s');
    StepKeepsOffsets(hash, s, step, s');
  }

  lemma StartIsSound(hash: string -> nat, s: System)
    requires s.posts == map[] && Publishing.Init(s.pub) && Consuming.Init(s.con)
    ensures Sound(hash, s)
  {
    assert Events([]) == [];
    Consuming.StartIsExactlyOnce(FeedOf(hash, s.pub), s.con);
  }

  /** Every state of the run so far is sound. */
  ghost predicate SoundUpTo(hash: string -> nat, states: seq<System>, i: nat)
    requires i < |states|
    decreases i
  {
    Sound(hash, states[i]) && (0 < i ==> SoundUpTo(hash, states, i - 1))
  }

  lemma RunStartsSound(hash: string -> nat, states: seq<System>, steps: seq<Step>)
    requires Run(hash, states, steps)
    ensures SoundUpTo(hash, states, 0)
  {
    StartIsSound(hash, states[0]);
  }

  lemma SoundGoesOn(hash: string -> nat, states: seq<System>, steps: seq<Step>, i: nat)
    requires Run(hash, states, steps) && 0 < i < |states| && SoundUpTo(hash, states, i - 1)
    ensures SoundUpTo(hash, states, i)
  {
    assert Next(hash, states[i - 1], steps[i - 1], states[i]);
    StepKeepsSound(hash, states[i - 1], steps[i - 1], states[i]);
  }

  lemma {:induction false} RunsStaySound(hash: string -> nat, states: seq<System>, steps: seq<Step>, i: nat)
    requires Run(hash, states, steps) && i < |states|
    ensures SoundUpTo(hash, states, i)
  {
    if i == 0 {
      RunStartsSound(hash, states, steps);
    } else {
      RunsStaySound(hash, states, steps, i - 1);
      SoundGoesOn(hash, states, steps, i);
    }
  }

  /**
   Outbox safety, exactly-once effect and offset safety together, in every run with any number of
   relays and consumers, duplicates, rollbacks, crashes and rebalances.
   */
  lemma EveryRunIsSound(hash: string -> nat, states: seq<System>, steps: seq<Step>, i: nat)
    requires Run(hash, states, steps) && i < |states|
    ensures Sound(hash, states[i])
  {
    RunsStaySound(hash, states, steps, i);
  }

  // ---- Refinement when first applications follow outbox order

  /**
   In any reachable state whose effects so far are the first k outbox rows in order, the related
   table is the from-scratch view of the posts table as it stood after those k writes.
   */
  lemma RelatedTableIsTheView(hash: string -> nat, states: seq<System>, steps: seq<Step>, i: nat, k: nat)
    requires Run(hash, states, steps) && i < |states|
    requires states[i].con.applied == UpTo(k) && k <= |states[i].pub.rows|
    requires SlugKeeping(Events(states[i].pub.rows)[..k])
    ensures LegalHistory(Events(states[i].pub.rows)) && PostsAfter(Events(states[i].pub.rows)) == states[i].posts
    ensures var writes := Events(states[i].pub.rows)[..k];
            UniqueSlugs(PostsAfter(writes)) && states[i].con.table == View(PostsAfter(writes))
  {
    var events := Events(states[i].pub.rows);
    EveryRunIsSound(hash, states, steps, i);
    LegalPrefix(events, k);
    InOrderGivesView(events[..k]);
    assert Consuming.Picked(events, UpTo(k)) == events[..k];
  }

  // ---- The related maps are right in every state

  /**
   With one slug per post for good, in every reachable state, whatever the order in which creates,
   updates and deletes arrived, every related map is exact.
   */
  lemma ReachableTablesAreExact(
      hash: string -> nat, slugOf: map<int, string>, states: seq<System>, steps: seq<Step>, i: nat)
    requires Run(hash, states, steps) && i < |states|
    requires forall k :: 0 <= k < |states[i].pub.rows| ==> NamesItsSlug(slugOf, states[i].pub.rows[k].event)
    ensures Exact(states[i].con.table)
  {
    EveryRunIsSound(hash, states, steps, i);
    var s := states[i];
    var arrived := Consuming.Picked(Events(s.pub.rows), s.con.applied);
    forall k | 0 <= k < |arrived| ensures NamesItsSlug(slugOf, arrived[k]) {
      assert arrived[k] == s.pub.rows[s.con.applied[k]].event;
    }
    AnyOrderStaysExact(slugOf, arrived);
  }

  // ---- A failed message is not redelivered by itself

  ghost predicate PastIt(s: Consuming.State, c: nat, p: Consuming.Partition, at: nat) {
    c < |s.consumers| && p in s.consumers[c].position && at < s.consumers[c].position[p]
  }

  lemma StepStaysPast(hash: string -> nat, s: System, step: Step, s': System, c: nat, p: Consuming.Partition, at: nat)
    requires Next(hash, s, step, s') && PastIt(s.con, c, p, at)
    requires step != Consume(Consuming.Lose(c)) && step != Consume(Consuming.Restart(c))
    ensures PastIt(s'.con, c, p, at)
  {
    if step.Consume? {
      Consuming.PositionsOnlyAdvance(FeedOf(hash, s.pub), s.con, step.consuming, c, p);
    }
  }

  lemma {:induction false} StaysPast(
      hash: string -> nat, states: seq<System>, steps: seq<Step>, i: nat, j: nat,
      c: nat, p: Consuming.Partition, at: nat)
    requires Run(hash, states, steps) && i <= j < |states| && PastIt(states[i].con, c, p, at)
    requires forall k :: i <= k < j ==>
               steps[k] != Consume(Consuming.Lose(c)) && steps[k] != Consume(Consuming.Restart(c))
    ensures PastIt(states[j].con, c, p, at)
    decreases j - i
  {
    if i < j {
      StaysPast(hash, states, steps, i, j - 1, c, p, at);
      assert Next(hash, states[j - 1], steps[j - 1], states[j]);
      StepStaysPast(hash, states[j - 1], steps[j - 1], states[j], c, p, at);
    }
  }

  /**
   Over any stretch of a run in which a consumer neither loses its partitions nor starts afresh, it
   stays past a message once it is past it: a failed message is not handed to it again.
   */
  lemma OnlyAFreshStartRedelivers(
      hash: string -> nat, states: seq<System>, steps: seq<Step>, i: nat, j: nat,
      c: nat, p: Consuming.Partition, at: nat)
    requires Run(hash, states, steps) && i <= j < |states| && PastIt(states[i].con, c, p, at)
    requires forall k :: i <= k < j ==>
               steps[k] != Consume(Consuming.Lose(c)) && steps[k] != Consume(Consuming.Restart(c))
    ensures PastIt(states[j].con, c, p, at)
    ensures Consuming.ValidFeed(FeedOf(hash, states[j].pub))
    ensures NotHandedOver(FeedOf(hash, states[j].pub), states[j].con, c, p, at)
  {
    StaysPast(hash, states, steps, i, j, c, p, at);
    EveryRunIsSound(hash, states, steps, j);
    PastIsNotHandedOver(FeedOf(hash, states[j].pub), states[j].con, c, p, at);
  }

  ghost predicate NotHandedOver(f: Consuming.Feed, s: Consuming.State, c: nat, p: Consuming.Partition, at: nat)
    requires Consuming.ValidFeed(f)
  {
    !Consuming.Enabled(f, s, Consuming.Deliver(c, p, at))
  }

  lemma PastIsNotHandedOver(f: Consuming.Feed, s: Consuming.State, c: nat, p: Consuming.Partition, at: nat)
    requires Consuming.ValidFeed(f) && PastIt(s, c, p, at)
    ensures NotHandedOver(f, s, c, p, at)
  {
  }

  // ---- Offsets when failures are followed by a restart

  ghost predicate RestartingRun(hash: string -> nat, states: seq<System>, steps: seq<Step>) {
    && Run(hash, states, steps)
    && forall k :: 0 <= k < |steps| && steps[k].Consume? ==>
         Consuming.RestartsBeforeSuccess(states[k].con, steps[k].consuming)
  }

  lemma {:induction false} NothingIsPassedOver(hash: string -> nat, states: seq<System>, steps: seq<Step>, i: nat)
    requires RestartingRun(hash, states, steps) && i < |states|
    ensures states[i].con.passedOver == {}
  {
    if i != 0 {
      NothingIsPassedOver(hash, states, steps, i - 1);
      assert Next(hash, states[i - 1], steps[i - 1], states[i]);
    }
  }

  /** If no success is committed while a failure is outstanding, no message is ever skipped. */
  lemma RestartingConsumersSkipNothing(
      hash: string -> nat, states: seq<System>, steps: seq<Step>, i: nat, p: Consuming.Partition, k: nat)
    requires RestartingRun(hash, states, steps) && i < |states|
    ensures Consuming.ValidFeed(FeedOf(hash, states[i].pub))
    ensures k < Consuming.CommittedIn(states[i].con, p) && Consuming.LivesIn(FeedOf(hash, states[i].pub), k, p) ==>
              states[i].pub.log[k] in states[i].con.processed
  {
    EveryRunIsSound(hash, states, steps, i);
    NothingIsPassedOver(hash, states, steps, i);
    if k < Consuming.CommittedIn(states[i].con, p) && Consuming.LivesIn(FeedOf(hash, states[i].pub), k, p) {
      assert Consuming.Settled(FeedOf(hash, states[i].pub), states[i].con, k);
    }
  }

  // ---- Order within a partition, from the outbox to the related table

  /** One relay that keeps each partition's order in its batches, and consumers that restart after failures. */
  ghost predicate Orderly(hash: string -> nat, s: System, step: Step) {
    match step
    case Publish(p) => Publishing.Disciplined(Home(hash), s.pub, p)
    case Consume(c) => Consuming.Careful(s.con, c)
  }

  ghost predicate OrderlyRun(hash: string -> nat, states: seq<System>, steps: seq<Step>) {
    && Run(hash, states, steps) && |states[0].pub.relays| == 1
    && forall k :: 0 <= k < |steps| ==> Orderly(hash, states[k], steps[k])
  }

  ghost predicate Sequenced(hash: string -> nat, s: System) {
    Sound(hash, s) && OrderedOut(hash, s) && OrderedIn(hash, s)
  }

  ghost predicate OrderedOut(hash: string -> nat, s: System) {
    Publishing.Ordered(Home(hash), s.pub)
  }

  ghost predicate OrderedIn(hash: string -> nat, s: System) {
    Consuming.ValidFeed(FeedOf(hash, s.pub)) && Consuming.InSequence(FeedOf(hash, s.pub), s.con)
  }

  lemma StepKeepsOrderedOut(hash: string -> nat, s: System, step: Step, s': System)
    requires PublishingSound(s) && OrderedOut(hash, s) && Next(hash, s, step, s') && Orderly(hash, s, step)
    ensures OrderedOut(hash, s')
  {
    if step.Publish? {
      Publishing.StepKeepsOrdered(Home(hash), s.pub, step.publishing);
    }
  }

  lemma StepKeepsOrderedIn(hash: string -> nat, s: System, step: Step, s': System)
    requires Sound(hash, s) && OrderedIn(hash, s) && Next(hash, s, step, s') && Orderly(hash, s, step)
    ensures OrderedIn(hash, s')
  {
    match step
    case Publish(p) =>
      FeedFollows(hash, s.pub, p);
      Consuming.GrowthKeepsAll(FeedOf(hash, s.pub), FeedOf(hash, s'.pub), s.con);
    case Consume(c) =>
      Consuming.StepKeepsInSequence(FeedOf(hash, s.pub), s.con, c);
  }

  /** Every state up to i publishes in order and applies in order. */
  ghost predicate SequencedUpTo(hash: string -> nat, states: seq<System>, i: nat)
    requires i < |states|
    decreases i
  {
    OrderedOut(hash, states[i]) && OrderedIn(hash, states[i]) && (0 < i ==> SequencedUpTo(hash, states, i - 1))
  }

  lemma RunStartsSequenced(hash: string -> nat, states: seq<System>, steps: seq<Step>)
    requires OrderlyRun(hash, states, steps)
    ensures SequencedUpTo(hash, states, 0)
  {
    StartIsSound(hash, states[0]);
  }

  lemma SequenceGoesOn(hash: string -> nat, states: seq<System>, steps: seq<Step>, i: nat)
    requires OrderlyRun(hash, states, steps) && 0 < i < |states| && SequencedUpTo(hash, states, i - 1)
    ensures SequencedUpTo(hash, states, i)
  {
    EveryRunIsSound(hash, states, steps, i - 1);
    assert Next(hash, states[i - 1], steps[i - 1], states[i]) && Orderly(hash, states[i - 1], steps[i - 1]);
    StepKeepsOrderedOut(hash, states[i - 1], steps[i - 1], states[i]);
    StepKeepsOrderedIn(hash, states[i - 1], steps[i - 1], states[i]);
  }

  lemma {:induction false} RunsStaySequenced(hash: string -> nat, states: seq<System>, steps: seq<Step>, i: nat)
    requires OrderlyRun(hash, states, steps) && i < |states|
    ensures SequencedUpTo(hash, states, i)
  {
    if i == 0 {
      RunStartsSequenced(hash, states, steps);
    } else {
      RunsStaySequenced(hash, states, steps, i - 1);
      SequenceGoesOn(hash, states, steps, i);
    }
  }

  lemma OrderlyRunsAreSequenced(hash: string -> nat, states: seq<System>, steps: seq<Step>, i: nat)
    requires OrderlyRun(hash, states, steps) && i < |states|
    ensures Sequenced(hash, states[i])
  {
    EveryRunIsSound(hash, states, steps, i);
    RunsStaySequenced(hash, states, steps, i);
  }

  /** Rows of one partition take effect in the order they were written. */
  lemma EffectsFollowWrites(hash: string -> nat, states: seq<System>, steps: seq<Step>, i: nat, a: nat, b: nat)
    requires OrderlyRun(hash, states, steps) && i < |states|
    requires a < b < |states[i].pub.rows| && b in states[i].con.applied
    requires Home(hash)(states[i].pub.rows[a].event) == Home(hash)(states[i].pub.rows[b].event)
    ensures Before(states[i].con.applied, a, b)
  {
    OrderlyRunsAreSequenced(hash, states, steps, i);
    var s := states[i];
    var k :| 0 <= k < |s.con.applied| && s.con.applied[k] == b;
    assert Publishing.SameLane(Home(hash), s.pub, a, b);
    assert Consuming.SameHome(FeedOf(hash, s.pub), a, b);
  }

  // ---- Convergence

  /** The applied rows that one topic carries for one post. */
  function Selected(events: seq<Event>, ids: seq<nat>, topic: Topic, id: int): seq<nat> {
    if ids == [] then []
    else
      var last := ids[|ids| - 1];
      Selected(events, ids[..|ids| - 1], topic, id)
      + (if last < |events| && Concerns(events[last], topic, id) then [last] else [])
  }

  ghost predicate Valid(events: seq<Event>, ids: seq<nat>) {
    forall k :: 0 <= k < |ids| ==> ids[k] < |events|
  }

  lemma {:induction false} SelectedMembers(events: seq<Event>, ids: seq<nat>, topic: Topic, id: int)
    ensures forall e :: e in Selected(events, ids, topic, id) <==>
                          e in ids && e < |events| && Concerns(events[e], topic, id)
  {
    if ids != [] {
      SelectedMembers(events, ids[..|ids| - 1], topic, id);
      assert ids == ids[..|ids| - 1] + [ids[|ids| - 1]];
    }
  }

  /** What was carried is the payloads of the selected rows. */
  lemma {:induction false} CarriedIsSelected(events: seq<Event>, ids: seq<nat>, topic: Topic, id: int)
    requires Valid(events, ids)
    ensures var chosen := Selected(events, ids, topic, id);
            && Valid(events, chosen)
            && Carried(Consuming.Picked(events, ids), topic, id) == Payloads(events, chosen)
  {
    if ids != [] {
      var body := ids[..|ids| - 1];
      CarriedIsSelected(events, body, topic, id);
      assert Consuming.Picked(events, ids)[..|ids| - 1] == Consuming.Picked(events, body);
    }
  }

  ghost function Payloads(events: seq<Event>, ids: seq<nat>): seq<Payload>
    requires Valid(events, ids)
  {
    seq(|ids|, k requires 0 <= k < |ids| => events[ids[k]].payload)
  }

  /** Rows in the given order respect outbox order wherever two of them concern one post in one topic. */
  ghost predicate RespectsOutbox(events: seq<Event>, ids: seq<nat>, topic: Topic, id: int) {
    forall a: nat, b: nat ::
      (a < b < |events| && b in ids && Concerns(events[a], topic, id) && Concerns(events[b], topic, id)) ==>
        Before(ids, a, b)
  }

  lemma {:induction false} SelectedIsIncreasing(events: seq<Event>, ids: seq<nat>, topic: Topic, id: int)
    requires Valid(events, ids) && Distinct(ids) && RespectsOutbox(events, ids, topic, id)
    ensures forall i, j :: 0 <= i < j < |Selected(events, ids, topic, id)| ==>
              Selected(events, ids, topic, id)[i] < Selected(events, ids, topic, id)[j]
  {
    if ids != [] {
      var body, last := ids[..|ids| - 1], ids[|ids| - 1];
      forall a: nat, b: nat | a < b < |events| && b in body
        && Concerns(events[a], topic, id) && Concerns(events[b], topic, id)
        ensures Before(body, a, b)
      {
        BeforeWasDecided(body, ids, a, b);
      }
      SelectedIsIncreasing(events, body, topic, id);
      var earlier := Selected(events, body, topic, id);
      SelectedMembers(events, body, topic, id);
      forall k | 0 <= k < |earlier| && Concerns(events[last], topic, id) ensures earlier[k] < last {
        LastIsLargest(events, ids, topic, id, earlier[k]);
      }
    }
  }

  lemma LastIsLargest(events: seq<Event>, ids: seq<nat>, topic: Topic, id: int, x: nat)
    requires Valid(events, ids) && Distinct(ids) && RespectsOutbox(events, ids, topic, id)
    requires ids != [] && x in ids[..|ids| - 1] && Concerns(events[ids[|ids| - 1]], topic, id)
    requires x < |events| && Concerns(events[x], topic, id)
    ensures x < ids[|ids| - 1]
  {
    LastPrecedesNothing(ids, x);
  }

  lemma LastPrecedesNothing(ids: seq<nat>, x: nat)
    requires Distinct(ids) && ids != [] && x in ids[..|ids| - 1]
    ensures x != ids[|ids| - 1] && !Before(ids, ids[|ids| - 1], x)
  {
    var i :| 0 <= i < |ids| - 1 && ids[i] == x;
    assert ids[..|ids|][i] == x;
  }

  /** Once every row is applied, each topic has carried for each post what the outbox holds for it, in order. */
  lemma CarriedAgrees(events: seq<Event>, applied: seq<nat>, topic: Topic, id: int)
    requires Valid(events, applied) && Distinct(applied) && RespectsOutbox(events, applied, topic, id)
    requires forall e: nat :: e < |events| ==> e in applied
    ensures Carried(Consuming.Picked(events, applied), topic, id) == Carried(events, topic, id)
  {
    var all := UpTo(|events|);
    UpToInOrder(|events|);
    SelectedMembers(events, applied, topic, id);
    SelectedMembers(events, all, topic, id);
    SelectedIsIncreasing(events, applied, topic, id);
    SelectedIsIncreasing(events, all, topic, id);
    SameIncreasing(Selected(events, applied, topic, id), Selected(events, all, topic, id));
    CarriedIsSelected(events, applied, topic, id);
    CarriedIsSelected(events, all, topic, id);
    assert Consuming.Picked(events, all) == events;
  }

  lemma OrderlyEffectsRespectOutbox(
      hash: string -> nat, slugOf: map<int, string>, states: seq<System>, steps: seq<Step>, i: nat,
      topic: Topic, id: int)
    requires OrderlyRun(hash, states, steps) && i < |states|
    requires OwnSlugs(slugOf, Events(states[i].pub.rows))
    ensures RespectsOutbox(Events(states[i].pub.rows), states[i].con.applied, topic, id)
  {
    var events, applied := Events(states[i].pub.rows), states[i].con.applied;
    forall a: nat, b: nat | a < b < |events| && b in applied
      && Concerns(events[a], topic, id) && Concerns(events[b], topic, id)
      ensures Before(applied, a, b)
    {
      assert FixedSlug(slugOf, events[a]) && FixedSlug(slugOf, events[b]);
      assert KeyOf(events[a]) == KeyOf(events[b]);
      EffectsFollowWrites(hash, states, steps, i, a, b);
    }
  }

  /** Once every row is applied, the effects carry what the outbox holds: for each post each topic's events in order. */
  lemma AppliedCarriesTheOutbox(
      hash: string -> nat, slugOf: map<int, string>, states: seq<System>, steps: seq<Step>, i: nat)
    requires OrderlyRun(hash, states, steps) && i < |states|
    requires OwnSlugs(slugOf, Events(states[i].pub.rows))
    requires forall e: nat :: e < |states[i].pub.rows| ==> e in states[i].con.processed
    ensures Valid(Events(states[i].pub.rows), states[i].con.applied)
    ensures var arrived := Consuming.Picked(Events(states[i].pub.rows), states[i].con.applied);
            SameTopics(Events(states[i].pub.rows), arrived) && OwnSlugs(slugOf, arrived)
  {
    var s := states[i];
    var events := Events(s.pub.rows);
    OrderlyRunsAreSequenced(hash, states, steps, i);
    var arrived := Consuming.Picked(events, s.con.applied);
    forall topic, id ensures Carried(events, topic, id) == Carried(arrived, topic, id) {
      OrderlyEffectsRespectOutbox(hash, slugOf, states, steps, i, topic, id);
      CarriedAgrees(events, s.con.applied, topic, id);
    }
    forall k | 0 <= k < |arrived| ensures FixedSlug(slugOf, arrived[k]) {
      assert arrived[k] == events[s.con.applied[k]];
    }
  }

  /**
   Eventual agreement, exactly: in an orderly run of a history in which every post keeps its slug,
   whatever the interleaving of topics, partitions, retries and crashes, once every outbox row has
   been applied the related table is the from-scratch view of the posts table if and only if no
   delete was overtaken by another event of its post.
   */
  lemma AppliedEverythingConvergesIffDeletesCameLast(
      hash: string -> nat, slugOf: map<int, string>, states: seq<System>, steps: seq<Step>, i: nat)
    requires OrderlyRun(hash, states, steps) && i < |states|
    requires FixedSlugs(slugOf, Events(states[i].pub.rows))
    requires forall e: nat :: e < |states[i].pub.rows| ==> e in states[i].con.processed
    ensures UniqueSlugs(states[i].posts) && Valid(Events(states[i].pub.rows), states[i].con.applied)
    ensures states[i].con.table == View(states[i].posts)
       <==> DeletesComeLast(Consuming.Picked(Events(states[i].pub.rows), states[i].con.applied))
  {
    var s := states[i];
    var events := Events(s.pub.rows);
    OrderlyRunsAreSequenced(hash, states, steps, i);
    var arrived := Consuming.Picked(events, s.con.applied);
    AppliedCarriesTheOutbox(hash, slugOf, states, steps, i);
    ConvergedIffDeletesCameLast(slugOf, events, arrived);
  }

  /**
   With slugs that pass to new posts after a delete, where events that met a taken slug were rolled back
   and applied later: such a run has converged if and only if the last word on every living post stands
   and nothing of a dead post does. It has if no delete was overtaken.
   */
  lemma RunsConvergeDespiteReuse(
      hash: string -> nat, slugOf: map<int, string>, states: seq<System>, steps: seq<Step>, i: nat)
    requires OrderlyRun(hash, states, steps) && i < |states|
    requires OwnSlugs(slugOf, Events(states[i].pub.rows))
    requires forall e: nat :: e < |states[i].pub.rows| ==> e in states[i].con.processed
    ensures UniqueSlugs(states[i].posts) && Valid(Events(states[i].pub.rows), states[i].con.applied)
    ensures states[i].con.table == View(states[i].posts)
       <==> LastWordsStand(slugOf, states[i].posts, Consuming.Picked(Events(states[i].pub.rows), states[i].con.applied))
    ensures DeletesComeLast(Consuming.Picked(Events(states[i].pub.rows), states[i].con.applied)) ==>
              states[i].con.table == View(states[i].posts)
  {
    var s := states[i];
    var events := Events(s.pub.rows);
    OrderlyRunsAreSequenced(hash, states, steps, i);
    SlugsStayUnique(events);
    var arrived := Consuming.Picked(events, s.con.applied);
    AppliedCarriesTheOutbox(hash, slugOf, states, steps, i);
    ConvergedIffLastWordsStand(slugOf, events, arrived);
    if DeletesComeLast(arrived) {
      ConvergedDespiteReuse(slugOf, events, arrived);
    }
  }

  /** Without deletes every such run converges. */
  lemma DeleteFreeRunsConverge(
      hash: string -> nat, slugOf: map<int, string>, states: seq<System>, steps: seq<Step>, i: nat)
    requires OrderlyRun(hash, states, steps) && i < |states|
    requires FixedSlugs(slugOf, Events(states[i].pub.rows))
    requires forall e: nat :: e < |states[i].pub.rows| ==>
               e in states[i].con.processed && !states[i].pub.rows[e].event.topic.PostDeleted?
    ensures UniqueSlugs(states[i].posts) && states[i].con.table == View(states[i].posts)
  {
    AppliedEverythingConvergesIffDeletesCameLast(hash, slugOf, states, steps, i);
    var events, applied := Events(states[i].pub.rows), states[i].con.applied;
    var arrived := Consuming.Picked(events, applied);
    assert forall k :: 0 <= k < |arrived| ==> arrived[k] == events[applied[k]];
  }

  // ---- The message handler takes the machine's steps

  /** The consumer is waiting with its success to commit, or is waiting with this failure noted. */
  ghost predicate Answered(s: Consuming.State, consumer: nat, at: nat, ok: bool) {
    consumer < |s.consumers| &&
    if ok then s.consumers[consumer].handling == Consuming.Succeeded(at)
    else s.consumers[consumer].handling.Waiting? && at in s.consumers[consumer].failed
  }

  ghost function Names(name: nat -> string, ids: set<nat>): set<string> {
    set e | e in ids :: name(e)
  }

  /**
   One call of `Handle` on a received message is one or two steps of the consuming machine: they
   leave the table and the processed ids exactly as the call does, and the same verdict.
   */
  lemma HandlingIsCheckAndApply(
      f: Consuming.Feed, s: Consuming.State, i: nat, name: nat -> string, m: Message, available: bool)
    returns (first: Consuming.Step, mid: Consuming.State, s': Consuming.State)
    requires Consuming.ValidFeed(f) && Consuming.ExactlyOnce(f, s)
    requires i < |s.consumers| && s.consumers[i].handling.Received?
    requires forall a: nat, b: nat :: name(a) == name(b) ==> a == b
    requires var e := f.log[s.consumers[i].handling.at];
             EventId(m) == name(e) && RelatedTable.Event(m.topic, m.payload) == f.events[e]
    ensures Consuming.Enabled(f, s, first) && mid == Consuming.Do(f, s, first) && Consuming.ExactlyOnce(f, mid)
    ensures s' == mid || (Consuming.Enabled(f, mid, Consuming.Apply(i, true))
                          && s' == Consuming.Do(f, mid, Consuming.Apply(i, true)))
    ensures var outcome := Handled(s.table, Names(name, s.processed), m, available);
            && s'.table == outcome.posts && Names(name, s'.processed) == outcome.processed
            && Answered(s', i, s.consumers[i].handling.at, outcome.ok)
  {
    var e := f.log[s.consumers[i].handling.at];
    assert name(e) in Names(name, s.processed) <==> e in s.processed;
    first := if available then Consuming.Check(i) else Consuming.Fault(i);
    mid := Consuming.Do(f, s, first);
    Consuming.StepKeepsExactlyOnce(f, s, first);
    s' := mid;
    if available && e !in s.processed {
      s' := Consuming.Do(f, mid, Consuming.Apply(i, true));
      assert Names(name, s.processed + {e}) == Names(name, s.processed) + {name(e)};
    }
  }
}
