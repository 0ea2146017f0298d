/**
 What the related table holds after events have been applied: in outbox order it is the view of
 the posts table, and in any other order it is that view exactly when no delete is overtaken.
 */
module Replay {
  import opened Common
  import opened RelatedTable
  import opened PostsService

  /** The related table after these events were applied, starting from an empty one. */
  ghost function TableAfter(events: seq<Event>): (t: Table)
    ensures Unique(t)
  {
    StepAll(map[], events)
  }

  lemma TableAfterOneMore(events: seq<Event>, e: Event)
    ensures TableAfter(events + [e]) == Step(TableAfter(events), e)
  {
    assert (events + [e])[..|events|] == events;
  }

  /** Each event was applied without a fault when its turn came. */
  ghost predicate AllSucceed(events: seq<Event>) {
    events == [] ||
    var earlier := events[..|events| - 1];
    AllSucceed(earlier) && Apply(TableAfter(earlier), events[|events| - 1]).Success?
  }

  lemma AllSucceedGrows(events: seq<Event>, e: Event)
    requires AllSucceed(events) && Apply(TableAfter(events), e).Success?
    ensures AllSucceed(events + [e])
  {
    assert (events + [e])[..|events|] == events;
  }

  // ---- In outbox order

  /** An update names the slug the post already has. */
  predicate KeepsSlug(posts: Posts, e: Event) {
    e.topic.PostUpdated? && e.payload.id.Some? && e.payload.id.value in posts ==>
      e.payload.slug == Some(posts[e.payload.id.value].slug)
  }

  predicate SlugKeeping(events: seq<Event>) {
    events == [] ||
    (SlugKeeping(events[..|events| - 1]) && KeepsSlug(PostsAfter(events[..|events| - 1]), events[|events| - 1]))
  }

  lemma SlugKeepingGrows(events: seq<Event>, e: Event)
    requires SlugKeeping(events) && KeepsSlug(PostsAfter(events), e)
    ensures SlugKeeping(events + [e])
  {
    assert (events + [e])[..|events|] == events;
  }

  /** Applying the next event to the view gives the view of the next posts table, without a fault. */
  lemma InOrderStep(posts: Posts, e: Event)
    requires UniqueSlugs(posts) && Legal(posts, e) && KeepsSlug(posts, e)
    ensures UniqueSlugs(Replayed(posts, e))
    ensures Apply(View(posts), e) == Success(View(Replayed(posts, e)))
  {
    var t := View(posts);
    ExactIsView(t);
    assert forall j :: j in t ==> t[j].content == posts[j];
    assert SlugTaken(t, e.payload.id.value, e.payload.slug.value)
        == SlugInUse(posts, e.payload.id.value, e.payload.slug.value);
    assert Apply(t, e).Success?;
    ApplyKeepsExact(t, e);
    ApplyWritesTheEvent(posts, e);
    ExactIsView(Apply(t, e).value);
  }

  /** A handler does to the content columns what the write did to the posts table. */
  lemma ApplyWritesTheEvent(posts: Posts, e: Event)
    requires UniqueSlugs(posts) && Legal(posts, e) && Apply(View(posts), e).Success?
    ensures Contents(Apply(View(posts), e).value) == Replayed(posts, e)
  {
    var t := View(posts);
    match e.topic
    case PostCreated => CreatedContents(t, e.payload);
    case PostUpdated => UpdatedContents(t, e.payload);
    case PostDeleted => WithoutContents(t, e.payload.id.value);
  }

  /** Refinement: events applied in outbox order leave the view of the posts table they came from. */
  lemma {:induction false} InOrderGivesView(events: seq<Event>)
    requires LegalHistory(events) && SlugKeeping(events)
    ensures UniqueSlugs(PostsAfter(events))
    ensures TableAfter(events) == View(PostsAfter(events))
  {
    if events == [] {
      assert View(map[]) == map[];
    } else {
      var earlier := events[..|events| - 1];
      InOrderGivesView(earlier);
      InOrderStep(PostsAfter(earlier), events[|events| - 1]);
    }
  }

  // ---- In any order, deletes included

  /** The event names the one slug its post ever has. */
  ghost predicate NamesItsSlug(slugOf: map<int, string>, e: Event) {
    e.payload.id.Some? ==> e.payload.id.value in slugOf && e.payload.slug == Some(slugOf[e.payload.id.value])
  }

  /** Late creates, early updates, resurrected posts, faults that roll back: the related maps stay exact. */
  lemma {:induction false} AnyOrderStaysExact(slugOf: map<int, string>, events: seq<Event>)
    requires forall k :: 0 <= k < |events| ==> NamesItsSlug(slugOf, events[k])
    ensures Exact(TableAfter(events))
    ensures forall i :: i in TableAfter(events) ==> i in slugOf && TableAfter(events)[i].content.slug == slugOf[i]
  {
    if events != [] {
      var earlier, e := events[..|events| - 1], events[|events| - 1];
      AnyOrderStaysExact(slugOf, earlier);
      assert NamesItsSlug(slugOf, e);
      var t := TableAfter(earlier);
      assert forall i :: i in t ==> t[i].content.slug == slugOf[i];
      assert CarriesStoredSlug(t, e);
      StepKeepsExact(t, e);
      StepKeepsSlugs(slugOf, t, e);
    }
  }

  lemma StepKeepsSlugs(slugOf: map<int, string>, t: Table, e: Event)
    requires Unique(t) && NamesItsSlug(slugOf, e)
    requires forall i :: i in t ==> i in slugOf && t[i].content.slug == slugOf[i]
    ensures forall i :: i in Step(t, e) ==> i in slugOf && Step(t, e)[i].content.slug == slugOf[i]
  {
  }

  // ---- In any order, with one slug a post

  /** Complete events of posts whose slugs never change. */
  ghost predicate OwnSlugs(slugOf: map<int, string>, events: seq<Event>) {
    forall k :: 0 <= k < |events| ==> FixedSlug(slugOf, events[k])
  }

  /** ... and are never another post's. */
  ghost predicate FixedSlugs(slugOf: map<int, string>, events: seq<Event>) {
    && (forall i, j :: i in slugOf && j in slugOf && slugOf[i] == slugOf[j] ==> i == j)
    && OwnSlugs(slugOf, events)
  }

  ghost predicate FixedSlug(slugOf: map<int, string>, e: Event) {
    && e.payload.id.Some? && (e.payload.title.Some? || e.topic.PostDeleted?)
    && e.payload.id.value in slugOf && e.payload.slug == Some(slugOf[e.payload.id.value])
  }

  /** The posts as last written: an update wins, a create only when nothing was there. */
  function Latest(events: seq<Event>): Posts {
    if events == [] then map[]
    else
      var earlier, e := Latest(events[..|events| - 1]), events[|events| - 1];
      if e.topic.PostCreated? && e.payload.id.Some? && e.payload.id.value in earlier then earlier
      else Replayed(earlier, e)
  }

  lemma {:induction false} LatestHasOwnSlugs(slugOf: map<int, string>, events: seq<Event>)
    requires OwnSlugs(slugOf, events)
    ensures forall i :: i in Latest(events) ==> i in slugOf && Latest(events)[i].slug == slugOf[i]
  {
    if events != [] {
      LatestHasOwnSlugs(slugOf, events[..|events| - 1]);
      assert FixedSlug(slugOf, events[|events| - 1]);
    }
  }

  /**
   Every interleaving of events, partial or complete, leaves the view of the posts as last written:
   a late create changes nothing, an early update does the create's work, a delete counts until the
   next create or update.
   */
  lemma {:induction false} AnyOrderGivesViewOfLatest(slugOf: map<int, string>, events: seq<Event>)
    requires FixedSlugs(slugOf, events)
    ensures UniqueSlugs(Latest(events))
    ensures TableAfter(events) == View(Latest(events))
  {
    LatestHasOwnSlugs(slugOf, events);
    if events == [] {
      assert View(map[]) == map[];
    } else {
      var earlier, e := events[..|events| - 1], events[|events| - 1];
      AnyOrderGivesViewOfLatest(slugOf, earlier);
      assert FixedSlug(slugOf, e);
      LatestHasOwnSlugs(slugOf, earlier);
      AnyOrderStep(slugOf, Latest(earlier), e);
    }
  }

  lemma AnyOrderStep(slugOf: map<int, string>, posts: Posts, e: Event)
    requires forall i, j :: i in slugOf && j in slugOf && slugOf[i] == slugOf[j] ==> i == j
    requires forall i :: i in posts ==> i in slugOf && posts[i].slug == slugOf[i]
    requires FixedSlug(slugOf, e) && UniqueSlugs(posts)
    ensures var next := if e.topic.PostCreated? && e.payload.id.value in posts then posts else Replayed(posts, e);
            UniqueSlugs(next) && Step(View(posts), e) == View(next)
  {
    var id := e.payload.id.value;
    if id in posts {
      KnownPostStep(slugOf, posts, e);
    } else if e.topic.PostDeleted? {
      UnknownDeleteStep(posts, e);
    } else {
      FirstEventStep(posts, e);
    }
  }

  /** A post in neither topic's past: whichever of its create and updates comes first creates it. */
  lemma FirstEventStep(posts: Posts, e: Event)
    requires UniqueSlugs(posts) && !e.topic.PostDeleted?
    requires e.payload.id.Some? && e.payload.title.Some? && e.payload.slug.Some?
    requires e.payload.id.value !in posts && forall i :: i in posts ==> posts[i].slug != e.payload.slug.value
    ensures UniqueSlugs(Replayed(posts, e)) && Step(View(posts), e) == View(Replayed(posts, e))
  {
    var t, create := View(posts), Event(PostCreated, e.payload);
    assert Legal(posts, create);
    InOrderStep(posts, create);
    assert Replayed(posts, e) == Replayed(posts, create);
    UpdateOfUnknownCreates(t, e.payload);
  }

  lemma UpdateOfUnknownCreates(t: Table, p: Payload)
    requires Unique(t) && p.id.Some? && p.id.value !in t
    ensures Apply(t, Event(PostUpdated, p)) == Apply(t, Event(PostCreated, p))
  {
  }

  lemma KnownPostStep(slugOf: map<int, string>, posts: Posts, e: Event)
    requires forall i, j :: i in slugOf && j in slugOf && slugOf[i] == slugOf[j] ==> i == j
    requires forall i :: i in posts ==> i in slugOf && posts[i].slug == slugOf[i]
    requires FixedSlug(slugOf, e) && UniqueSlugs(posts) && e.payload.id.value in posts
    ensures e.topic.PostCreated? ==> Step(View(posts), e) == View(posts)
    ensures !e.topic.PostCreated? ==>
              UniqueSlugs(Replayed(posts, e)) && Step(View(posts), e) == View(Replayed(posts, e))
  {
    assert e.payload.id.value in View(posts);
    if !e.topic.PostCreated? {
      assert Legal(posts, e) && KeepsSlug(posts, e);
      InOrderStep(posts, e);
    }
  }

  lemma UnknownDeleteStep(posts: Posts, e: Event)
    requires UniqueSlugs(posts) && e.topic.PostDeleted? && e.payload.id.Some? && e.payload.slug.Some?
    requires e.payload.id.value !in posts && forall i :: i in posts ==> posts[i].slug != e.payload.slug.value
    ensures Replayed(posts, e) == posts && Step(View(posts), e) == View(posts)
  {
    var t := View(posts);
    ExactIsView(t);
    assert forall j :: j in t ==> t[j].content == posts[j];
    DeletingUnknownSlugChangesNothing(t, e.payload.slug.value);
    RemovingAbsentKey(posts, e.payload.id.value);
  }

  // ---- Which orders agree

  predicate Concerns(e: Event, topic: Topic, id: int) {
    e.topic == topic && e.payload.id == Some(id)
  }

  /** The payloads one topic carries for one post, in order. */
  function Carried(events: seq<Event>, topic: Topic, id: int): seq<Payload> {
    if events == [] then []
    else
      var e := events[|events| - 1];
      Carried(events[..|events| - 1], topic, id) + (if Concerns(e, topic, id) then [e.payload] else [])
  }

  /** The last update wins; a post never updated is as its first create wrote it. */
  function Winner(updates: seq<Payload>, creates: seq<Payload>): Option<Payload> {
    if updates != [] then Some(updates[|updates| - 1])
    else if creates != [] then Some(creates[0])
    else None
  }

  /** The latest content of a post never deleted depends only on what each topic carried for that post. */
  lemma {:induction false} LatestIsTheWinner(slugOf: map<int, string>, events: seq<Event>, id: int)
    requires OwnSlugs(slugOf, events) && Carried(events, PostDeleted, id) == []
    ensures var winner := Winner(Carried(events, PostUpdated, id), Carried(events, PostCreated, id));
            && (id in Latest(events) <==> winner.Some?)
            && (winner.Some? ==> winner.value.title.Some? && winner.value.slug.Some?)
            && (winner.Some? ==> Latest(events)[id] == ContentOf(winner.value))
  {
    if events != [] {
      var earlier, e := events[..|events| - 1], events[|events| - 1];
      LatestIsTheWinner(slugOf, earlier, id);
      assert FixedSlug(slugOf, e);
      if Concerns(e, PostUpdated, id) {
        assert Carried(events, PostUpdated, id) == Carried(earlier, PostUpdated, id) + [e.payload];
      } else if Concerns(e, PostCreated, id) {
        assert Carried(events, PostCreated, id) == Carried(earlier, PostCreated, id) + [e.payload];
      } else {
        assert id in Latest(events) <==> id in Latest(earlier);
      }
    }
  }

  /** For a history the posts service recorded, the posts as last written are the posts table. */
  lemma {:induction false} LatestOfHistory(events: seq<Event>)
    requires LegalHistory(events)
    ensures Latest(events) == PostsAfter(events)
  {
    if events != [] {
      LatestOfHistory(events[..|events| - 1]);
    }
  }

  // ---- Deletes

  /** The post was created or updated, and has not been deleted since. */
  predicate Written(events: seq<Event>, id: int) {
    events != [] &&
    var e := events[|events| - 1];
    if e.payload.id == Some(id) then !e.topic.PostDeleted? else Written(events[..|events| - 1], id)
  }

  lemma {:induction false} LatestHoldsTheWritten(slugOf: map<int, string>, events: seq<Event>, id: int)
    requires OwnSlugs(slugOf, events)
    ensures id in Latest(events) <==> Written(events, id)
  {
    if events != [] {
      LatestHoldsTheWritten(slugOf, events[..|events| - 1], id);
      assert FixedSlug(slugOf, events[|events| - 1]);
    }
  }

  lemma {:induction false} CarriedMeansPresent(events: seq<Event>, topic: Topic, id: int)
    ensures Carried(events, topic, id) != [] <==> exists k :: 0 <= k < |events| && Concerns(events[k], topic, id)
  {
    if events != [] {
      var earlier := events[..|events| - 1];
      CarriedMeansPresent(earlier, topic, id);
      assert forall k :: 0 <= k < |earlier| ==> earlier[k] == events[k];
    }
  }

  /** Where deletes come last a deleted post is deleted once, and it is gone. */
  lemma {:induction false} DeletedIsGone(events: seq<Event>, id: int)
    requires DeletesComeLast(events)
    ensures |Carried(events, PostDeleted, id)| <= 1
    ensures Carried(events, PostDeleted, id) != [] ==> !Written(events, id)
  {
    if events != [] {
      var earlier := events[..|events| - 1];
      DeletedIsGone(earlier, id);
      CarriedMeansPresent(earlier, PostDeleted, id);
      if Carried(earlier, PostDeleted, id) != [] {
        var j :| 0 <= j < |earlier| && Concerns(earlier[j], PostDeleted, id);
        assert events[j] == earlier[j];
      }
    }
  }

  /** A post with one delete that was not its last event is back. */
  lemma {:induction false} WriteAfterDeleteRevives(events: seq<Event>, id: int, j: nat, k: nat)
    requires j < k < |events| && Concerns(events[j], PostDeleted, id) && events[k].payload.id == Some(id)
    requires |Carried(events, PostDeleted, id)| <= 1
    ensures Written(events, id)
  {
    var earlier := events[..|events| - 1];
    CarriedMeansPresent(earlier, PostDeleted, id);
    assert earlier[j] == events[j];
    if k < |events| - 1 {
      WriteAfterDeleteRevives(earlier, id, j, k);
    }
  }

  // ---- Convergence

  /** For each post each topic carried the same things in the same order. */
  ghost predicate SameTopics(events: seq<Event>, others: seq<Event>) {
    forall topic, id :: Carried(events, topic, id) == Carried(others, topic, id)
  }

  /** The latest content of a post is the same in both, unless one of them has it deleted before its last event. */
  lemma SameLatest(slugOf: map<int, string>, events: seq<Event>, others: seq<Event>, id: int)
    requires OwnSlugs(slugOf, events) && OwnSlugs(slugOf, others) && SameTopics(events, others)
    requires DeletesComeLast(events) && DeletesComeLast(others)
    ensures id in Latest(events) <==> id in Latest(others)
    ensures id in Latest(events) ==> Latest(events)[id] == Latest(others)[id]
  {
    assert forall topic :: Carried(events, topic, id) == Carried(others, topic, id);
    if Carried(events, PostDeleted, id) == [] {
      LatestIsTheWinner(slugOf, events, id);
      LatestIsTheWinner(slugOf, others, id);
    } else {
      DeletedIsGone(events, id);
      DeletedIsGone(others, id);
      LatestHoldsTheWritten(slugOf, events, id);
      LatestHoldsTheWritten(slugOf, others, id);
    }
  }

  /** Views of different posts tables differ. */
  lemma ViewIsInjective(posts: Posts, others: Posts)
    requires UniqueSlugs(posts) && UniqueSlugs(others)
    ensures View(posts) == View(others) <==> posts == others
  {
    assert Contents(View(posts)) == posts && Contents(View(others)) == others;
  }

  /**
   Convergence across the topics, exactly: whatever the interleaving in which a history's events
   arrive, the table ends as the view of the posts table if and only if no post's delete was
   overtaken by that post's create or one of its updates.
   */
  lemma ConvergedIffDeletesCameLast(slugOf: map<int, string>, history: seq<Event>, arrived: seq<Event>)
    requires LegalHistory(history)
    requires FixedSlugs(slugOf, history) && FixedSlugs(slugOf, arrived) && SameTopics(history, arrived)
    ensures UniqueSlugs(PostsAfter(history))
    ensures TableAfter(arrived) == View(PostsAfter(history)) <==> DeletesComeLast(arrived)
  {
    SlugsStayUnique(history);
    HistoriesDeleteLast(history);
    LatestOfHistory(history);
    AnyOrderGivesViewOfLatest(slugOf, arrived);
    ViewIsInjective(Latest(arrived), Latest(history));
    SameLatestIffDeletesCameLast(slugOf, history, arrived);
  }

  lemma SameLatestIffDeletesCameLast(slugOf: map<int, string>, history: seq<Event>, arrived: seq<Event>)
    requires DeletesComeLast(history)
    requires OwnSlugs(slugOf, history) && OwnSlugs(slugOf, arrived) && SameTopics(history, arrived)
    ensures Latest(arrived) == Latest(history) <==> DeletesComeLast(arrived)
  {
    var h, a := Latest(history), Latest(arrived);
    if DeletesComeLast(arrived) {
      forall id ensures id in h.Keys <==> id in a.Keys
                ensures id in h.Keys ==> h[id] == a[id]
      {
        SameLatest(slugOf, history, arrived, id);
      }
      SameMap(h, a);
    } else {
      var id := OvertakenPostIsBack(slugOf, history, arrived);
      assert id in a && id !in h;
    }
  }

  lemma OvertakenPostIsBack(slugOf: map<int, string>, history: seq<Event>, arrived: seq<Event>) returns (id: int)
    requires DeletesComeLast(history) && !DeletesComeLast(arrived)
    requires OwnSlugs(slugOf, history) && OwnSlugs(slugOf, arrived) && SameTopics(history, arrived)
    ensures id in Latest(arrived) && id !in Latest(history)
  {
    var j, k :| && 0 <= j < k < |arrived| && arrived[j].topic.PostDeleted?
                && arrived[k].payload.id == arrived[j].payload.id;
    assert FixedSlug(slugOf, arrived[j]);
    id := arrived[j].payload.id.value;
    assert Carried(history, PostDeleted, id) == Carried(arrived, PostDeleted, id);
    CarriedMeansPresent(arrived, PostDeleted, id);
    DeletedIsGone(history, id);
    WriteAfterDeleteRevives(arrived, id, j, k);
    LatestHoldsTheWritten(slugOf, arrived, id);
    LatestHoldsTheWritten(slugOf, history, id);
  }

  // ---- Where agreement ends

  const DRAFT := Content("Kafka basics", Some(""), Some("body"), "a")

  /** With a delete the order across topics matters: a create that arrives late brings the post back. */
  lemma LateCreateResurrects()
    ensures var create := Event(PostCreated, FullPayload(1, DRAFT));
            var delete := Event(PostDeleted, DeletePayload(1, DRAFT.slug));
            && LegalHistory([create, delete]) && SlugKeeping([create, delete])
            && PostsAfter([create, delete]) == map[]
            && 1 in TableAfter([delete, create])
  {
    var create := Event(PostCreated, FullPayload(1, DRAFT));
    var delete := Event(PostDeleted, DeletePayload(1, DRAFT.slug));
    assert [] + [create] == [create] && [create] + [delete] == [create, delete];
    assert [] + [delete] == [delete] && [delete] + [create] == [delete, create];
    LegalHistoryGrows([], create);
    LegalHistoryGrows([create], delete);
    SlugKeepingGrows([], create);
    SlugKeepingGrows([create], delete);
    TableAfterOneMore([], delete);
    TableAfterOneMore([delete], create);
    assert Step(map[], delete) == map[];
  }

  /** A rename in a table of two posts leaves the other post pointing at a slug nobody has. */
  lemma RenameBreaksTheView()
    ensures var posts := map[1 := DRAFT, 2 := DRAFT.(slug := "b")];
            var rename := Event(PostUpdated, FullPayload(1, DRAFT.(slug := "c")));
            && UniqueSlugs(posts) && Legal(posts, rename) && UniqueSlugs(Replayed(posts, rename))
            && Updated(View(posts), rename.payload).Success?
            && Updated(View(posts), rename.payload).value != View(Replayed(posts, rename))
  {
    var posts := map[1 := DRAFT, 2 := DRAFT.(slug := "b")];
    var rename := Event(PostUpdated, FullPayload(1, DRAFT.(slug := "c")));
    assert 2 in posts.Keys && 2 !in {1};
    UpdatedIsViewIffSlugKept(posts, rename);
  }

  lemma LegalUpdateSucceeds(posts: Posts, e: Event)
    requires UniqueSlugs(posts) && Legal(posts, e) && e.topic.PostUpdated?
    ensures UniqueSlugs(Replayed(posts, e))
    ensures Updated(View(posts), e.payload).Success?
  {
    var t := View(posts);
    assert forall j :: j in t ==> t[j].content == posts[j];
    assert SlugTaken(t, e.payload.id.value, e.payload.slug.value)
        == SlugInUse(posts, e.payload.id.value, e.payload.slug.value);
  }

  /** When applying a legal update to the view gives the view: exactly when it keeps the slug, or the post is alone. */
  lemma UpdatedIsViewIffSlugKept(posts: Posts, e: Event)
    requires UniqueSlugs(posts) && Legal(posts, e) && e.topic.PostUpdated?
    ensures UniqueSlugs(Replayed(posts, e)) && Updated(View(posts), e.payload).Success?
    ensures Updated(View(posts), e.payload).value == View(Replayed(posts, e))
       <==> KeepsSlug(posts, e) || posts.Keys == {e.payload.id.value}
  {
    LegalUpdateSucceeds(posts, e);
    var t, id := View(posts), e.payload.id.value;
    var r := Updated(t, e.payload).value;
    assert t[id].content == posts[id] && t.Keys == posts.Keys;
    ExactIsView(t);
    UpdateKeepsExactIffSlugKept(t, e.payload);
    UpdatedContents(t, e.payload);
    ApplyKeepsUnique(t, e);
    ExactIsView(r);
  }
}
