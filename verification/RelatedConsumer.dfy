/**
 The related service's consumer as it runs: handlers that rewrite rows one at a time inside a
 session, a message handler that commits or rolls back, and the loop that commits offsets.
 */
module RelatedConsumer {
  import opened Common
  import opened TitleText
  import opened Similarity
  import opened RelatedTable
  import Decimal

  /** One delivery. `header` is the event id header, if the record has one. */
  datatype Message = Message(topic: Topic, partition: nat, offset: nat, header: Option<string>, payload: Payload)

  function TopicName(topic: Topic): string {
    match topic
    case PostCreated => "post_created"
    case PostUpdated => "post_updated"
    case PostDeleted => "post_deleted"
  }

  function EventId(m: Message): string {
    if m.header.Some? && m.header.value != "" then m.header.value
    else TopicName(m.topic) + ":" + (Decimal.Print(m.partition) + ":" + Decimal.Print(m.offset))
  }

  // ---- Identities

  lemma CutAtSeparator(a: string, b: string, x: string, y: string)
    requires ':' !in a && ':' !in x && a + ":" + b == x + ":" + y
    ensures a == x && b == y
  {
    var s := a + ":" + b;
    assert s[|a|] == ':' && s[|x|] == ':';
    assert forall i :: 0 <= i < |a| ==> s[i] == a[i];
    assert forall i :: 0 <= i < |x| ==> s[i] == x[i];
    assert |a| == |x|;
    assert a == s[..|a|] && x == s[..|a|];
    assert b == s[|a| + 1..] && y == s[|a| + 1..];
  }

  /** The message carries a usable id header. */
  predicate HasHeader(m: Message) {
    m.header.Some? && m.header.value != ""
  }

  /** The header is the id; without one it is topic, partition and offset, printed with colons between. */
  lemma EventIdIs(m: Message)
    ensures HasHeader(m) ==> EventId(m) == m.header.value
    ensures !HasHeader(m) && m.topic == PostCreated ==>
              EventId(m) == "post_created" + ":" + (Decimal.Print(m.partition) + ":" + Decimal.Print(m.offset))
    ensures !HasHeader(m) && m.topic == PostUpdated ==>
              EventId(m) == "post_updated" + ":" + (Decimal.Print(m.partition) + ":" + Decimal.Print(m.offset))
    ensures !HasHeader(m) && m.topic == PostDeleted ==>
              EventId(m) == "post_deleted" + ":" + (Decimal.Print(m.partition) + ":" + Decimal.Print(m.offset))
  {
  }

  /** Two messages with a header are the same event exactly when the headers agree. */
  lemma HeaderIdsAgreeIff(m: Message, n: Message)
    requires HasHeader(m) && HasHeader(n)
    ensures EventId(m) == EventId(n) <==> m.header.value == n.header.value
  {
  }

  /** Records without the header are told apart by where they sit, so no two share an id. */
  lemma FallbackIdsAreDistinct(m: Message, n: Message)
    requires !HasHeader(m) && !HasHeader(n) && EventId(m) == EventId(n)
    ensures m.topic == n.topic && m.partition == n.partition && m.offset == n.offset
  {
    var pm, om := Decimal.Print(m.partition), Decimal.Print(m.offset);
    var pn, on := Decimal.Print(n.partition), Decimal.Print(n.offset);
    CutAtSeparator(TopicName(m.topic), pm + ":" + om, TopicName(n.topic), pn + ":" + on);
    assert TopicName(m.topic)[5] == TopicName(n.topic)[5];
    CutAtSeparator(pm, om, pn, on);
    Decimal.PrintIsInjective(m.partition, n.partition);
    Decimal.PrintIsInjective(m.offset, n.offset);
  }

  /** A header id, which is a UUID and so has no colon, is never mistaken for a fallback id. */
  lemma HeaderIdsNeverMeetFallbackIds(m: Message, n: Message)
    requires HasHeader(m) && ':' !in m.header.value && !HasHeader(n)
    ensures EventId(m) != EventId(n)
  {
    assert EventId(n)[|TopicName(n.topic)|] == ':';
  }

  /** The same event: the same header, or no header and the same place in the same topic. */
  predicate SameEvent(m: Message, n: Message) {
    if HasHeader(m) || HasHeader(n) then HasHeader(m) && HasHeader(n) && m.header.value == n.header.value
    else m.topic == n.topic && m.partition == n.partition && m.offset == n.offset
  }

  lemma IdsAgreeIffSameEvent(m: Message, n: Message)
    requires HasHeader(m) ==> ':' !in m.header.value
    requires HasHeader(n) ==> ':' !in n.header.value
    ensures EventId(m) == EventId(n) <==> SameEvent(m, n)
  {
    if !HasHeader(m) && !HasHeader(n) {
      if EventId(m) == EventId(n) {
        FallbackIdsAreDistinct(m, n);
      }
    } else if HasHeader(m) && !HasHeader(n) {
      HeaderIdsNeverMeetFallbackIds(m, n);
    } else if !HasHeader(m) && HasHeader(n) {
      HeaderIdsNeverMeetFallbackIds(n, m);
    }
  }

  // ---- One message, as a whole

  datatype Outcome = Outcome(ok: bool, posts: Table, processed: set<string>)

  /** The effect and the event id together, or neither; a message already applied is a success without effect. */
  ghost function Handled(posts: Table, processed: set<string>, m: Message, available: bool): (outcome: Outcome)
    requires Unique(posts)
    ensures Unique(outcome.posts) && processed <= outcome.processed
  {
    HandlingKeepsUnique(posts, Event(m.topic, m.payload));
    var applied := Apply(posts, Event(m.topic, m.payload));
    if !available then Outcome(false, posts, processed)
    else if EventId(m) in processed then Outcome(true, posts, processed)
    else if applied.Failure? then Outcome(false, posts, processed)
    else Outcome(true, applied.value, processed + {EventId(m)})
  }

  lemma HandlingKeepsUnique(posts: Table, e: Event)
    requires Unique(posts)
    ensures Apply(posts, e).Success? ==> Unique(Apply(posts, e).value)
  {
    if Apply(posts, e).Success? {
      ApplyKeepsUnique(posts, e);
    }
  }

  /** Where a consumer stands: its tables, the offset it committed, and the offsets whose handling failed. */
  datatype Progress = Progress(posts: Table, processed: set<string>, committed: nat, failed: set<nat>)

  /** After the messages from `start` up to `end`, each handled once, in order. */
  ghost function Progressed(
      posts: Table, processed: set<string>, log: seq<Message>, start: nat, end: nat, available: seq<bool>)
    : (p: Progress)
    requires Unique(posts) && start <= end <= |log| == |available|
    ensures Unique(p.posts)
    decreases end
  {
    if end == start then Progress(posts, processed, start, {})
    else
      var p := Progressed(posts, processed, log, start, end - 1, available);
      OneMore(p, end, Handled(p.posts, p.processed, log[end - 1], available[end - 1]))
  }

  /** A success commits the position reached; a failure is only noted. */
  function OneMore(p: Progress, end: nat, outcome: Outcome): Progress
    requires 0 < end
  {
    if outcome.ok then Progress(outcome.posts, outcome.processed, end, p.failed)
    else Progress(outcome.posts, outcome.processed, p.committed, p.failed + {end - 1})
  }

  /**
   What committing the position reached means: below the committed offset every message was applied
   or failed on the way, and everything from it on failed.
   */
  lemma {:induction false} CommittedWasAppliedOrFailed(
      posts: Table, processed: set<string>, log: seq<Message>, start: nat, end: nat, available: seq<bool>)
    requires Unique(posts) && start <= end <= |log| == |available|
    ensures var p := Progressed(posts, processed, log, start, end, available);
            && start <= p.committed <= end
            && (forall i :: i in p.failed ==> start <= i < end)
            && (forall i :: start <= i < p.committed ==> EventId(log[i]) in p.processed || i in p.failed)
            && (forall i :: p.committed <= i < end ==> i in p.failed)
            && (start < p.committed ==> p.committed - 1 !in p.failed && EventId(log[p.committed - 1]) in p.processed)
    decreases end
  {
    if start < end {
      CommittedWasAppliedOrFailed(posts, processed, log, start, end - 1, available);
    }
  }

  /** When a message succeeds, when it changes anything, and what: its handler's effect and its own id. */
  lemma HandledMeans(posts: Table, processed: set<string>, m: Message, available: bool)
    requires Unique(posts)
    ensures var outcome, applied := Handled(posts, processed, m, available), Apply(posts, Event(m.topic, m.payload));
            && (outcome.ok <==> available && (EventId(m) in processed || applied.Success?))
            && (available && EventId(m) !in processed && applied.Success? ==>
                  outcome.posts == applied.value && outcome.processed == processed + {EventId(m)})
            && (!(available && EventId(m) !in processed && applied.Success?) ==>
                  outcome.posts == posts && outcome.processed == processed)
  {
  }

  /** Handing in a message again after it succeeded succeeds and changes nothing. */
  lemma RedeliveryIsNoOp(posts: Table, processed: set<string>, m: Message, again: Message, available: bool)
    requires Unique(posts) && EventId(again) == EventId(m)
    ensures var first := Handled(posts, processed, m, available);
            first.ok ==> Unique(first.posts) && Handled(first.posts, first.processed, again, true) == first
  {
    HandlingKeepsUnique(posts, Event(m.topic, m.payload));
  }

  lemma {:induction false} ProcessedAreHandled(
      posts: Table, processed: set<string>, log: seq<Message>, start: nat, end: nat, available: seq<bool>)
    requires Unique(posts) && start <= end <= |log| == |available|
    ensures forall id :: id in Progressed(posts, processed, log, start, end, available).processed ==>
              id in processed || exists k :: start <= k < end && EventId(log[k]) == id
    decreases end
  {
    if start < end {
      ProcessedAreHandled(posts, processed, log, start, end - 1, available);
    }
  }

  /**
   No event is lost to deduplication: a message that is not the same event as any handled so far, whose
   handler does not fault, has its effect applied.
   */
  lemma NewEventsAreApplied(
      posts: Table, processed: set<string>, log: seq<Message>, start: nat, end: nat, available: seq<bool>)
    requires Unique(posts) && start < end <= |log| == |available| && processed == {} && available[end - 1]
    requires forall k :: start <= k < end && HasHeader(log[k]) ==> ':' !in log[k].header.value
    requires forall k :: start <= k < end - 1 ==> !SameEvent(log[k], log[end - 1])
    ensures var before := Progressed(posts, processed, log, start, end - 1, available);
            var after := Progressed(posts, processed, log, start, end, available);
            var applied := Apply(before.posts, Event(log[end - 1].topic, log[end - 1].payload));
            applied.Success? ==> after.posts == applied.value && after.committed == end
  {
    var m := log[end - 1];
    var before := Progressed(posts, processed, log, start, end - 1, available);
    NewIdIsNotProcessed(posts, processed, log, start, end, available);
    HandledMeans(before.posts, before.processed, m, true);
    assert Progressed(posts, processed, log, start, end, available)
        == OneMore(before, end, Handled(before.posts, before.processed, m, true));
  }

  lemma NewIdIsNotProcessed(
      posts: Table, processed: set<string>, log: seq<Message>, start: nat, end: nat, available: seq<bool>)
    requires Unique(posts) && start < end <= |log| == |available| && processed == {}
    requires forall k :: start <= k < end && HasHeader(log[k]) ==> ':' !in log[k].header.value
    requires forall k :: start <= k < end - 1 ==> !SameEvent(log[k], log[end - 1])
    ensures EventId(log[end - 1]) !in Progressed(posts, processed, log, start, end - 1, available).processed
  {
    ProcessedAreHandled(posts, processed, log, start, end - 1, available);
    forall k | start <= k < end - 1 ensures EventId(log[k]) != EventId(log[end - 1]) {
      IdsAgreeIffSameEvent(log[k], log[end - 1]);
    }
  }

  // ---- Progress of the loops over rows

  /** A row after the scoring loop has reached it. */
  function ScoredOther(row: Row, title: string, slug: string): Row {
    row.(related := row.related[slug := Similar(row.content.title, title)])
  }

  /** A row after the deleting loop has reached it. */
  function ForgottenIn(row: Row, slug: string): Row {
    row.(related := row.related - {slug})
  }

  /** `related` holds the scores of exactly the first k listed rows, keyed by their slugs. */
  ghost predicate Gathered(t: Table, ids: seq<int>, k: nat, title: string, related: map<string, Score>)
    requires k <= |ids| && forall m :: 0 <= m < |ids| ==> ids[m] in t
  {
    KeysGathered(t, ids, k, related) && forall m :: 0 <= m < k ==> HasScore(t[ids[m]], title, related)
  }

  ghost predicate KeysGathered(t: Table, ids: seq<int>, k: nat, related: map<string, Score>)
    requires k <= |ids| && forall m :: 0 <= m < |ids| ==> ids[m] in t
  {
    forall s :: s in related ==> exists m :: 0 <= m < k && t[ids[m]].content.slug == s
  }

  predicate HasScore(row: Row, title: string, related: map<string, Score>) {
    row.content.slug in related && related[row.content.slug] == Similar(row.content.title, title)
  }

  /** The loop has rescored the first k listed rows and none of the others. */
  ghost predicate ScoredUpTo(before: Table, now: Table, ids: seq<int>, k: nat, title: string, slug: string)
    requires k <= |ids| && forall m :: 0 <= m < |ids| ==> ids[m] in before
  {
    && now.Keys == before.Keys
    && (forall m :: 0 <= m < k ==> now[ids[m]] == ScoredOther(before[ids[m]], title, slug))
    && (forall m :: k <= m < |ids| ==> now[ids[m]] == before[ids[m]])
  }

  lemma ScoreOneMore(before: Table, now: Table, ids: seq<int>, k: nat, title: string, slug: string)
    requires Distinct(ids) && k < |ids| && forall m :: 0 <= m < |ids| ==> ids[m] in before
    requires ScoredUpTo(before, now, ids, k, title, slug)
    ensures now[ids[k]] == before[ids[k]]
    ensures ScoredUpTo(before, now[ids[k] := ScoredOther(before[ids[k]], title, slug)], ids, k + 1, title, slug)
  {
    var next := now[ids[k] := ScoredOther(now[ids[k]], title, slug)];
    assert next.Keys == now.Keys;
    assert forall m :: 0 <= m < |ids| && m != k ==> next[ids[m]] == now[ids[m]];
  }

  lemma GatherOneMore(t: Table, ids: seq<int>, k: nat, title: string, related: map<string, Score>, score: Score)
    requires Unique(t) && Distinct(ids) && k < |ids| && forall m :: 0 <= m < |ids| ==> ids[m] in t
    requires Gathered(t, ids, k, title, related) && score == Similar(t[ids[k]].content.title, title)
    ensures Gathered(t, ids, k + 1, title, related[t[ids[k]].content.slug := score])
  {
    var slug := t[ids[k]].content.slug;
    GatherOneMoreKey(t, ids, k, related, score);
    forall m | 0 <= m < k ensures HasScore(t[ids[m]], title, related[slug := score]) {
      SlugsDiffer(t, ids[m], ids[k]);
      ScoreStays(t[ids[m]], title, related, slug, score);
    }
  }

  lemma GatherOneMoreKey(t: Table, ids: seq<int>, k: nat, related: map<string, Score>, score: Score)
    requires k < |ids| && forall m :: 0 <= m < |ids| ==> ids[m] in t
    requires KeysGathered(t, ids, k, related)
    ensures KeysGathered(t, ids, k + 1, related[t[ids[k]].content.slug := score])
  {
    var slug := t[ids[k]].content.slug;
    var more := related[slug := score];
    forall s | s in more ensures exists m :: 0 <= m < k + 1 && t[ids[m]].content.slug == s {
      if s == slug {
        assert t[ids[k]].content.slug == s;
      } else {
        var m :| 0 <= m < k && t[ids[m]].content.slug == s;
      }
    }
  }

  lemma ScoreStays(row: Row, title: string, related: map<string, Score>, slug: string, score: Score)
    requires HasScore(row, title, related) && row.content.slug != slug
    ensures HasScore(row, title, related[slug := score])
  {
  }

  lemma SlugsDiffer(t: Table, i: int, j: int)
    requires Unique(t) && i in t && j in t && i != j
    ensures t[i].content.slug != t[j].content.slug
  {
    assert Contents(t)[i].slug == t[i].content.slug && Contents(t)[j].slug == t[j].content.slug;
  }

  /** What the loop and the final insert leave behind is the table the specification names. */
  lemma LoopGivesScored(
      before: Table, ids: seq<int>, after: Table, id: int, content: Content, related: map<string, Score>)
    requires Unique(before) && after.Keys == before.Keys && Lists(ids, before.Keys - {id})
    requires forall k :: 0 <= k < |ids| ==> after[ids[k]] == ScoredOther(before[ids[k]], content.title, content.slug)
    requires Gathered(before, ids, |ids|, content.title, related)
    ensures after[id := Row(content, related)] == Scored(before, id, content)
  {
    GatheredIsComplete(before, ids, id, content.title, related);
    EveryRowWasReached(before, ids, after, id, content);
    InsertGivesScored(before, after, id, content);
  }

  lemma InsertGivesScored(before: Table, after: Table, id: int, content: Content)
    requires Unique(before) && after.Keys == before.Keys
    requires forall j :: j in before && j != id ==> after[j] == ScoredOther(before[j], content.title, content.slug)
    ensures after[id := Row(content, ScoresAgainst(Contents(before), id, content.title))] == Scored(before, id, content)
  {
    var row := Row(content, ScoresAgainst(Contents(before), id, content.title));
    SameRowsAsScored(before, after[id := row], id, content);
  }

  lemma SameRowsAsScored(before: Table, after: Table, id: int, content: Content)
    requires Unique(before) && after.Keys == before.Keys + {id}
    requires after[id] == Row(content, ScoresAgainst(Contents(before), id, content.title))
    requires forall j :: j in before && j != id ==> after[j] == ScoredOther(before[j], content.title, content.slug)
    ensures after == Scored(before, id, content)
  {
    ScoredKeys(before, id, content);
    var expected := Scored(before, id, content);
    forall j | j in before.Keys + {id} ensures after[j] == expected[j] {
      ScoredAt(before, id, content, j);
    }
    SameMap(after, expected);
  }

  lemma ScoredKeys(t: Table, id: int, content: Content)
    requires Unique(t)
    ensures Scored(t, id, content).Keys == t.Keys + {id}
  {
  }

  lemma ScoredAt(t: Table, id: int, content: Content, j: int)
    requires Unique(t) && (j in t || j == id)
    ensures j in Scored(t, id, content)
    ensures Scored(t, id, content)[j]
         == if j == id then Row(content, ScoresAgainst(Contents(t), id, content.title))
            else ScoredOther(t[j], content.title, content.slug)
  {
  }

  lemma EveryRowWasReached(before: Table, ids: seq<int>, after: Table, id: int, content: Content)
    requires after.Keys == before.Keys && Lists(ids, before.Keys - {id})
    requires forall k :: 0 <= k < |ids| ==> after[ids[k]] == ScoredOther(before[ids[k]], content.title, content.slug)
    ensures forall j :: j in before && j != id ==> after[j] == ScoredOther(before[j], content.title, content.slug)
  {
    forall j | j in before && j != id ensures after[j] == ScoredOther(before[j], content.title, content.slug) {
      assert j in before.Keys - {id};
      var k :| 0 <= k < |ids| && ids[k] == j;
    }
  }

  lemma GatheredIsComplete(before: Table, ids: seq<int>, id: int, title: string, related: map<string, Score>)
    requires Unique(before) && Lists(ids, before.Keys - {id})
    requires Gathered(before, ids, |ids|, title, related)
    ensures related == ScoresAgainst(Contents(before), id, title)
  {
    var full := ScoresAgainst(Contents(before), id, title);
    forall s | s in related ensures s in full && related[s] == full[s] {
      GatheredIsSound(before, ids, id, title, related, s);
    }
    forall s | s in full ensures s in related {
      EverySlugIsGathered(before, ids, id, title, related, s);
    }
  }

  lemma GatheredIsSound(before: Table, ids: seq<int>, id: int, title: string, related: map<string, Score>, s: string)
    requires Unique(before) && Lists(ids, before.Keys - {id})
    requires Gathered(before, ids, |ids|, title, related) && s in related
    ensures var full := ScoresAgainst(Contents(before), id, title); s in full && related[s] == full[s]
  {
    var k :| 0 <= k < |ids| && before[ids[k]].content.slug == s;
    var j, posts := ids[k], Contents(before);
    assert HasScore(before[j], title, related) && j in before.Keys - {id};
    assert j in posts && j != id && posts[j].slug == s;
  }

  lemma EverySlugIsGathered(
      before: Table, ids: seq<int>, id: int, title: string, related: map<string, Score>, s: string)
    requires Lists(ids, before.Keys - {id})
    requires Gathered(before, ids, |ids|, title, related) && HasOther(Contents(before), id, s)
    ensures s in related
  {
    var j :| j in before && j != id && Contents(before)[j].slug == s;
    assert j in before.Keys - {id};
    var k :| 0 <= k < |ids| && ids[k] == j;
    assert HasScore(before[ids[k]], title, related);
  }

  // ---- The service

  class RelatedService {
    var posts: Table
    var processed: set<string>

    /** The one thing the database itself guarantees: slugs are unique. */
    ghost predicate Valid()
      reads this
    {
      Unique(posts)
    }

    constructor ()
      ensures Valid() && posts == map[] && processed == {}
    {
      posts, processed := map[], {};
    }

    /** A query for rows other than `id`: their ids, in an order the database chooses. */
    method OtherIds(id: int) returns (ids: seq<int>)
      ensures Lists(ids, posts.Keys - {id})
    {
      ids := ListOf(posts.Keys - {id});
    }

    /** Gives every listed row its score for the title, and collects those scores. */
    method ScoreOthers(ids: seq<int>, title: string, slug: string) returns (related: map<string, Score>)
      requires Valid() && Distinct(ids) && forall k :: 0 <= k < |ids| ==> ids[k] in posts
      modifies this`posts
      ensures ScoredUpTo(old(posts), posts, ids, |ids|, title, slug)
      ensures Gathered(old(posts), ids, |ids|, title, related)
    {
      ghost var before := posts;
      related := map[];
      for k := 0 to |ids|
        invariant ScoredUpTo(before, posts, ids, k, title, slug)
        invariant Gathered(before, ids, k, title, related)
      {
        GatherOneMore(before, ids, k, title, related, Similar(before[ids[k]].content.title, title));
        ScoreOneMore(before, posts, ids, k, title, slug);
        var row := posts[ids[k]];
        var score := Similar(row.content.title, title);
        related := related[row.content.slug := score];
        posts := posts[ids[k] := row.(related := row.related[slug := score])];
      }
    }

    /** Takes the slug out of every listed row that has it. */
    method ForgetSlug(ids: seq<int>, slug: string)
      requires Distinct(ids) && forall k :: 0 <= k < |ids| ==> ids[k] in posts
      modifies this`posts
      ensures posts.Keys == old(posts).Keys
      ensures forall k :: 0 <= k < |ids| ==> posts[ids[k]] == ForgottenIn(old(posts)[ids[k]], slug)
    {
      for k := 0 to |ids|
        invariant posts.Keys == old(posts).Keys
        invariant forall m :: 0 <= m < k ==> posts[ids[m]] == ForgottenIn(old(posts)[ids[m]], slug)
        invariant forall m :: k <= m < |ids| ==> posts[ids[m]] == old(posts)[ids[m]]
      {
        var row := posts[ids[k]];
        if slug in row.related {
          posts := posts[ids[k] := row.(related := row.related - {slug})];
        } else {
          RemovingAbsentKey(row.related, slug);
        }
      }
    }

    method ApplyCreated(p: Payload) returns (fault: Option<Fault>)
      requires Valid()
      modifies this`posts
      ensures Created(old(posts), p).Success? ==> fault.None? && posts == Created(old(posts), p).value
      ensures Created(old(posts), p).Failure? ==> fault == Some(Created(old(posts), p).error)
    {
      if p.id.None? {
        return Some(MissingKey);
      }
      if p.id.value in posts {
        return None;
      }
      if p.title.None? || p.slug.None? {
        return Some(MissingKey);
      }
      var conflict := SlugTaken(posts, p.id.value, p.slug.value);
      assert posts.Keys - {p.id.value} == posts.Keys;
      var others := ListOf(posts.Keys);
      var related := ScoreOthers(others, p.title.value, p.slug.value);
      // The unique column rejects the row only now, after the others were rewritten.
      if conflict {
        return Some(IntegrityViolation);
      }
      LoopGivesScored(old(posts), others, posts, p.id.value, ContentOf(p), related);
      posts := posts[p.id.value := Row(ContentOf(p), related)];
      fault := None;
    }

    method ApplyUpdated(p: Payload) returns (fault: Option<Fault>)
      requires Valid()
      modifies this`posts
      ensures Updated(old(posts), p).Success? ==> fault.None? && posts == Updated(old(posts), p).value
      ensures Updated(old(posts), p).Failure? ==> fault == Some(Updated(old(posts), p).error)
    {
      if p.id.None? {
        return Some(MissingKey);
      }
      var id := p.id.value;
      if id !in posts {
        fault := ApplyCreated(p);
        return;
      }
      if p.title.None? || p.slug.None? {
        return Some(MissingKey);
      }
      if SlugTaken(posts, id, p.slug.value) {
        return Some(IntegrityViolation);
      }
      var titleChanged := Strip(p.title.value) != Strip(posts[id].content.title);
      var stored := posts[id];
      if titleChanged {
        var others := OtherIds(id);
        var related := ScoreOthers(others, p.title.value, p.slug.value);
        LoopGivesScored(old(posts), others, posts, id, ContentOf(p), related);
        posts := posts[id := Row(ContentOf(p), related)];
      } else {
        posts := posts[id := Row(ContentOf(p), stored.related)];
      }
      fault := None;
    }

    method ApplyDeleted(p: Payload) returns (fault: Option<Fault>)
      requires Valid()
      modifies this`posts
      ensures Deleted(old(posts), p).Success? ==> fault.None? && posts == Deleted(old(posts), p).value
      ensures Deleted(old(posts), p).Failure? ==> fault == Some(Deleted(old(posts), p).error)
    {
      if p.slug.None? {
        return Some(MissingKey);
      }
      var slug := p.slug.value;
      posts := map j | j in posts && posts[j].content.slug != slug :: posts[j];
      ghost var before := posts;
      var others := ListOf(posts.Keys);
      ForgetSlug(others, slug);
      forall j | j in before ensures posts[j] == ForgottenIn(before[j], slug) {
        var k :| 0 <= k < |others| && others[k] == j;
      }
      assert posts == Without(old(posts), slug);
      fault := None;
    }

    /**
     One message. The effect and the event id land together or not at all; `true` says the
     offset may be committed. `available` is false when the database fails during the call.
     */
    method Handle(m: Message, available: bool) returns (ok: bool)
      requires Valid()
      modifies this
      ensures Valid()
      ensures Outcome(ok, posts, processed) == Handled(old(posts), old(processed), m, available)
    {
      if !available {
        return false;
      }
      var id := EventId(m);
      if id in processed {
        return true;
      }
      var snapshot := posts;
      var fault;
      match m.topic {
        case PostCreated => fault := ApplyCreated(m.payload);
        case PostUpdated => fault := ApplyUpdated(m.payload);
        case PostDeleted => fault := ApplyDeleted(m.payload);
      }
      if fault.Some? {
        posts := snapshot;
        return false;
      }
      ApplyKeepsUnique(snapshot, Event(m.topic, m.payload));
      processed := processed + {id};
      ok := true;
    }

    /**
     The consuming loop over one partition: messages are handed to `Handle` in offset order, and
     a success commits the position reached, failures passed on the way included.
     */
    method Consume(log: seq<Message>, start: nat, available: seq<bool>)
      returns (committed: nat, failed: set<nat>)
      requires Valid() && start <= |log| && |available| == |log|
      modifies this
      ensures Valid()
      ensures Progress(posts, processed, committed, failed)
           == Progressed(old(posts), old(processed), log, start, |log|, available)
    {
      committed, failed := start, {};
      var position := start;
      while position < |log|
        invariant Valid() && start <= position <= |log|
        invariant Progress(posts, processed, committed, failed)
               == Progressed(old(posts), old(processed), log, start, position, available)
      {
        var ok := Handle(log[position], available[position]);
        position := position + 1;
        if ok {
          committed := position;
        } else {
          failed := failed + {position - 1};
        }
      }
    }
  }
}
