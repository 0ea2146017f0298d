/**
 Convergence when a slug passes from a deleted post to a new one. A delete is applied by slug, so one
 that arrives early can remove the wrong post; and a create that arrives early meets a taken slug and
 is rolled back until the delete has been applied.
 */
module SlugReuse {
  import opened Common
  import opened RelatedTable
  import opened PostsService
  import opened Replay

  /** Each delete follows a create or update of its post. */
  ghost predicate DeletesFollowWrites(events: seq<Event>) {
    forall k :: 0 <= k < |events| && events[k].topic.PostDeleted? ==>
      exists j :: 0 <= j < k && IsWriteOf(events[j], events[k].payload.id)
  }

  ghost predicate IsWriteOf(e: Event, id: Option<int>) {
    !e.topic.PostDeleted? && e.payload.id == id
  }

  lemma PrefixKeepsOrder(events: seq<Event>)
    requires events != [] && DeletesComeLast(events) && DeletesFollowWrites(events)
    ensures DeletesComeLast(events[..|events| - 1]) && DeletesFollowWrites(events[..|events| - 1])
  {
    var earlier := events[..|events| - 1];
    forall k | 0 <= k < |earlier| && earlier[k].topic.PostDeleted?
      ensures exists j :: 0 <= j < k && IsWriteOf(earlier[j], earlier[k].payload.id)
    {
      var j :| 0 <= j < k && IsWriteOf(events[j], events[k].payload.id);
      assert earlier[j] == events[j];
    }
  }

  /** A post that was written and not deleted is still there. */
  lemma {:induction false} WrittenStays(events: seq<Event>, id: int, j: nat)
    requires j < |events| && IsWriteOf(events[j], Some(id))
    requires forall k :: 0 <= k < |events| ==> !Concerns(events[k], PostDeleted, id)
    ensures Written(events, id)
  {
    if events[|events| - 1].payload.id != Some(id) {
      var earlier := events[..|events| - 1];
      assert earlier[j] == events[j];
      WrittenStays(earlier, id, j);
    }
  }

  /**
   Where every event was applied without a fault, each delete after all of its post's other events,
   the table is the view of the posts as last written, although slugs pass from post to post.
   */
  lemma {:induction false} OrderedDeletesGiveViewOfLatest(slugOf: map<int, string>, events: seq<Event>)
    requires OwnSlugs(slugOf, events) && AllSucceed(events)
    requires DeletesComeLast(events) && DeletesFollowWrites(events)
    ensures UniqueSlugs(Latest(events)) && TableAfter(events) == View(Latest(events))
  {
    if events == [] {
      assert View(map[]) == map[];
    } else {
      var earlier, e := events[..|events| - 1], events[|events| - 1];
      PrefixKeepsOrder(events);
      OrderedDeletesGiveViewOfLatest(slugOf, earlier);
      LatestHasOwnSlugs(slugOf, earlier);
      assert FixedSlug(slugOf, e);
      if e.topic.PostDeleted? {
        DeletedIsThere(slugOf, events);
      }
      SuccessfulStep(slugOf, Latest(earlier), e);
    }
  }

  lemma DeletedIsThere(slugOf: map<int, string>, events: seq<Event>)
    requires events != [] && OwnSlugs(slugOf, events) && DeletesComeLast(events) && DeletesFollowWrites(events)
    requires events[|events| - 1].topic.PostDeleted? && events[|events| - 1].payload.id.Some?
    ensures events[|events| - 1].payload.id.value in Latest(events[..|events| - 1])
  {
    var earlier, id := events[..|events| - 1], events[|events| - 1].payload.id.value;
    var j :| 0 <= j < |earlier| && IsWriteOf(events[j], Some(id));
    assert earlier[j] == events[j];
    assert forall k :: 0 <= k < |earlier| ==> earlier[k] == events[k];
    WrittenStays(earlier, id, j);
    LatestHoldsTheWritten(slugOf, earlier, id);
  }

  /** One event that is applied without a fault, and whose post is there if it is a delete. */
  lemma SuccessfulStep(slugOf: map<int, string>, posts: Posts, e: Event)
    requires UniqueSlugs(posts) && FixedSlug(slugOf, e) && Apply(View(posts), e).Success?
    requires forall i :: i in posts ==> i in slugOf && posts[i].slug == slugOf[i]
    requires e.topic.PostDeleted? ==> e.payload.id.value in posts
    ensures var next := if e.topic.PostCreated? && e.payload.id.value in posts then posts else Replayed(posts, e);
            UniqueSlugs(next) && Step(View(posts), e) == View(next)
  {
    var id := e.payload.id.value;
    if e.topic.PostCreated? && id in posts {
      KnownCreateStep(posts, e);
    } else {
      SuccessMeansSlugFree(posts, e);
      if id in posts {
        InOrderStep(posts, e);
      } else {
        FirstEventStep(posts, e);
      }
    }
  }

  lemma KnownCreateStep(posts: Posts, e: Event)
    requires UniqueSlugs(posts) && e.topic.PostCreated? && e.payload.id.Some? && e.payload.id.value in posts
    ensures Step(View(posts), e) == View(posts)
  {
    assert e.payload.id.value in View(posts);
  }

  lemma SuccessMeansSlugFree(posts: Posts, e: Event)
    requires UniqueSlugs(posts) && Apply(View(posts), e).Success? && e.payload.id.Some? && e.payload.slug.Some?
    requires e.topic.PostCreated? ==> e.payload.id.value !in posts
    ensures !e.topic.PostDeleted? ==> !SlugInUse(posts, e.payload.id.value, e.payload.slug.value)
  {
    var t := View(posts);
    assert forall j :: j in t ==> t[j].content == posts[j];
    assert SlugTaken(t, e.payload.id.value, e.payload.slug.value)
        == SlugInUse(posts, e.payload.id.value, e.payload.slug.value);
  }

  // ---- From the history

  lemma {:induction false} PresentWasCreated(history: seq<Event>, id: int)
    requires LegalHistory(history) && id in PostsAfter(history)
    ensures Carried(history, PostCreated, id) != []
  {
    var earlier, e := history[..|history| - 1], history[|history| - 1];
    if !Concerns(e, PostCreated, id) {
      PresentWasCreated(earlier, id);
    }
  }

  lemma {:induction false} DeletedWasCreated(history: seq<Event>, id: int)
    requires LegalHistory(history) && Carried(history, PostDeleted, id) != []
    ensures Carried(history, PostCreated, id) != []
  {
    var earlier, e := history[..|history| - 1], history[|history| - 1];
    if Concerns(e, PostDeleted, id) {
      PresentWasCreated(earlier, id);
    } else {
      DeletedWasCreated(earlier, id);
    }
  }

  lemma ArrivedDeletesFollowWrites(slugOf: map<int, string>, history: seq<Event>, arrived: seq<Event>)
    requires LegalHistory(history) && OwnSlugs(slugOf, arrived) && SameTopics(history, arrived)
    requires DeletesComeLast(arrived)
    ensures DeletesFollowWrites(arrived)
  {
    forall k | 0 <= k < |arrived| && arrived[k].topic.PostDeleted?
      ensures exists j :: 0 <= j < k && IsWriteOf(arrived[j], arrived[k].payload.id)
    {
      assert FixedSlug(slugOf, arrived[k]);
      var j := CreateArrivedBefore(history, arrived, k);
    }
  }

  lemma CreateArrivedBefore(history: seq<Event>, arrived: seq<Event>, k: nat) returns (j: nat)
    requires LegalHistory(history) && SameTopics(history, arrived) && DeletesComeLast(arrived)
    requires k < |arrived| && arrived[k].topic.PostDeleted? && arrived[k].payload.id.Some?
    ensures j < k && IsWriteOf(arrived[j], arrived[k].payload.id)
  {
    var id := arrived[k].payload.id.value;
    assert Carried(history, PostDeleted, id) == Carried(arrived, PostDeleted, id);
    assert Carried(history, PostCreated, id) == Carried(arrived, PostCreated, id);
    CarriedMeansPresent(arrived, PostDeleted, id);
    assert Concerns(arrived[k], PostDeleted, id);
    DeletedWasCreated(history, id);
    CarriedMeansPresent(arrived, PostCreated, id);
    j :| 0 <= j < |arrived| && Concerns(arrived[j], PostCreated, id);
  }

  /**
   Convergence with slugs used again: a history's events, each applied without a fault and no delete
   overtaken by another event of its post, leave the view of the posts table.
   */
  lemma ConvergedDespiteReuse(slugOf: map<int, string>, history: seq<Event>, arrived: seq<Event>)
    requires LegalHistory(history) && OwnSlugs(slugOf, history) && OwnSlugs(slugOf, arrived)
    requires SameTopics(history, arrived) && AllSucceed(arrived) && DeletesComeLast(arrived)
    ensures UniqueSlugs(PostsAfter(history)) && TableAfter(arrived) == View(PostsAfter(history))
  {
    SlugsStayUnique(history);
    HistoriesDeleteLast(history);
    LatestOfHistory(history);
    ArrivedDeletesFollowWrites(slugOf, history, arrived);
    OrderedDeletesGiveViewOfLatest(slugOf, arrived);
    SameLatestIffDeletesCameLast(slugOf, history, arrived);
  }

  // ---- Exactly, slug by slug

  /** A delete of this slug. */
  ghost predicate DeletesSlug(e: Event, slug: string) {
    e.topic.PostDeleted? && e.payload.slug == Some(slug)
  }

  function WithoutSlug(posts: Posts, slug: string): Posts {
    map i | i in posts && posts[i].slug != slug :: posts[i]
  }

  /** The posts as last written, where a delete removes whatever post has its slug. */
  function LatestBySlug(events: seq<Event>): Posts {
    if events == [] then map[]
    else
      var earlier, e := LatestBySlug(events[..|events| - 1]), events[|events| - 1];
      if e.topic.PostDeleted? then
        if e.payload.slug.Some? then WithoutSlug(earlier, e.payload.slug.value) else earlier
      else if e.topic.PostCreated? && e.payload.id.Some? && e.payload.id.value in earlier then earlier
      else Replayed(earlier, e)
  }

  lemma {:induction false} LatestBySlugHasOwnSlugs(slugOf: map<int, string>, events: seq<Event>)
    requires OwnSlugs(slugOf, events)
    ensures forall i :: i in LatestBySlug(events) ==> i in slugOf && LatestBySlug(events)[i].slug == slugOf[i]
  {
    if events != [] {
      LatestBySlugHasOwnSlugs(slugOf, events[..|events| - 1]);
      assert FixedSlug(slugOf, events[|events| - 1]);
    }
  }

  /** A delete does to the view what removing its slug does to the posts. */
  lemma DeleteBySlugStep(posts: Posts, e: Event)
    requires UniqueSlugs(posts) && e.topic.PostDeleted? && e.payload.slug.Some?
    ensures UniqueSlugs(WithoutSlug(posts, e.payload.slug.value))
    ensures Step(View(posts), e) == View(WithoutSlug(posts, e.payload.slug.value))
  {
    var slug := e.payload.slug.value;
    if i :| i in posts && posts[i].slug == slug {
      HolderIsRemoved(posts, e, i);
    } else {
      var unknown := Event(PostDeleted, e.payload);
      ExactIsView(View(posts));
      assert forall j :: j in View(posts) ==> View(posts)[j].content == posts[j];
      DeletingUnknownSlugChangesNothing(View(posts), slug);
      SameMap(WithoutSlug(posts, slug), posts);
    }
  }

  lemma HolderIsRemoved(posts: Posts, e: Event, i: int)
    requires UniqueSlugs(posts) && e.topic.PostDeleted? && i in posts && e.payload.slug == Some(posts[i].slug)
    ensures UniqueSlugs(WithoutSlug(posts, posts[i].slug))
    ensures Step(View(posts), e) == View(WithoutSlug(posts, posts[i].slug))
  {
    var own := Event(PostDeleted, DeletePayload(i, posts[i].slug));
    InOrderStep(posts, own);
    assert Apply(View(posts), e) == Apply(View(posts), own);
    OnlyHolderIsRemoved(posts, i);
  }

  lemma OnlyHolderIsRemoved(posts: Posts, i: int)
    requires UniqueSlugs(posts) && i in posts
    ensures WithoutSlug(posts, posts[i].slug) == posts - {i}
  {
    var r, rest := WithoutSlug(posts, posts[i].slug), posts - {i};
    forall j ensures j in r.Keys <==> j in rest.Keys {
    }
    SameMap(r, rest);
  }

  /** Events applied without a fault leave the view of the posts as last written, slug by slug, in any order. */
  lemma {:induction false} SuccessGivesViewBySlug(slugOf: map<int, string>, events: seq<Event>)
    requires OwnSlugs(slugOf, events) && AllSucceed(events)
    ensures UniqueSlugs(LatestBySlug(events)) && TableAfter(events) == View(LatestBySlug(events))
  {
    if events == [] {
      assert View(map[]) == map[];
    } else {
      var earlier, e := events[..|events| - 1], events[|events| - 1];
      SuccessGivesViewBySlug(slugOf, earlier);
      LatestBySlugHasOwnSlugs(slugOf, earlier);
      assert FixedSlug(slugOf, e);
      if e.topic.PostDeleted? {
        DeleteBySlugStep(LatestBySlug(earlier), e);
      } else {
        SuccessfulStep(slugOf, LatestBySlug(earlier), e);
      }
    }
  }

  // ---- What is left of a post

  /** The write at place k, of the post with this id, is followed by no delete of the post's slug. */
  ghost predicate Stands(slugOf: map<int, string>, events: seq<Event>, k: int, id: int)
    requires id in slugOf
  {
    && 0 <= k < |events| && IsWriteOf(events[k], Some(id))
    && forall m :: k < m < |events| ==> !DeletesSlug(events[m], slugOf[id])
  }

  /** A post is there exactly when one of its writes stands. */
  lemma {:induction false} PresentIffStands(slugOf: map<int, string>, events: seq<Event>, id: int)
    requires OwnSlugs(slugOf, events) && id in slugOf
    ensures id in LatestBySlug(events) <==> exists k :: Stands(slugOf, events, k, id)
  {
    if events != [] {
      var earlier, e := events[..|events| - 1], events[|events| - 1];
      PresentIffStands(slugOf, earlier, id);
      LatestBySlugHasOwnSlugs(slugOf, earlier);
      assert FixedSlug(slugOf, e);
      StandsOneMore(slugOf, events, id);
    }
  }

  lemma StandsOneMore(slugOf: map<int, string>, events: seq<Event>, id: int)
    requires events != [] && id in slugOf
    ensures var earlier, e := events[..|events| - 1], events[|events| - 1];
            (exists k :: Stands(slugOf, events, k, id))
            <==> IsWriteOf(e, Some(id)) || (!DeletesSlug(e, slugOf[id]) && exists k :: Stands(slugOf, earlier, k, id))
  {
    var earlier, e := events[..|events| - 1], events[|events| - 1];
    assert forall m :: 0 <= m < |earlier| ==> earlier[m] == events[m];
    if IsWriteOf(e, Some(id)) {
      assert Stands(slugOf, events, |earlier|, id);
    } else if k :| Stands(slugOf, events, k, id) {
      assert Stands(slugOf, earlier, k, id);
    } else if !DeletesSlug(e, slugOf[id]) {
      forall k ensures !Stands(slugOf, earlier, k, id) {
        assert !Stands(slugOf, events, k, id);
      }
    }
  }

  /** The post was updated since the last delete of its slug. */
  predicate UpdatedSince(slugOf: map<int, string>, events: seq<Event>, id: int)
    requires id in slugOf
  {
    events != [] &&
    var e := events[|events| - 1];
    if e.topic.PostDeleted? && e.payload.slug == Some(slugOf[id]) then false
    else Concerns(e, PostUpdated, id) || UpdatedSince(slugOf, events[..|events| - 1], id)
  }

  /** The content a post is left with: that of its last update, or of its create if no update stands. */
  lemma {:induction false} ContentLeft(slugOf: map<int, string>, events: seq<Event>, id: int)
    requires OwnSlugs(slugOf, events) && id in slugOf && |Carried(events, PostCreated, id)| <= 1
    ensures UpdatedSince(slugOf, events, id) ==> id in LatestBySlug(events)
    ensures id in LatestBySlug(events) ==> ContentIs(slugOf, events, id, LatestBySlug(events)[id])
  {
    if events != [] {
      var earlier, e := events[..|events| - 1], events[|events| - 1];
      ContentLeft(slugOf, earlier, id);
      LatestBySlugHasOwnSlugs(slugOf, earlier);
      assert FixedSlug(slugOf, e);
      if Concerns(e, PostUpdated, id) {
        assert Carried(events, PostUpdated, id) == Carried(earlier, PostUpdated, id) + [e.payload];
      } else if Concerns(e, PostCreated, id) {
        assert Carried(events, PostCreated, id) == Carried(earlier, PostCreated, id) + [e.payload];
        assert Carried(earlier, PostCreated, id) == [];
        assert Carried(events, PostUpdated, id) == Carried(earlier, PostUpdated, id);
      } else {
        assert Carried(events, PostUpdated, id) == Carried(earlier, PostUpdated, id);
        assert Carried(events, PostCreated, id) == Carried(earlier, PostCreated, id);
      }
    }
  }

  ghost predicate ContentIs(slugOf: map<int, string>, events: seq<Event>, id: int, c: Content)
    requires id in slugOf
  {
    var updates, creates := Carried(events, PostUpdated, id), Carried(events, PostCreated, id);
    if UpdatedSince(slugOf, events, id) then updates != [] && IsContentOf(updates[|updates| - 1], c)
    else creates != [] && IsContentOf(creates[0], c)
  }

  ghost predicate IsContentOf(p: Payload, c: Content) {
    p.title.Some? && p.slug.Some? && ContentOf(p) == c
  }

  lemma {:induction false} StandingUpdateIsSince(slugOf: map<int, string>, events: seq<Event>, k: nat, id: int)
    requires id in slugOf && Stands(slugOf, events, k, id) && events[k].topic.PostUpdated?
    ensures UpdatedSince(slugOf, events, id)
  {
    if k < |events| - 1 {
      var earlier := events[..|events| - 1];
      assert forall m :: 0 <= m < |earlier| ==> earlier[m] == events[m];
      assert !DeletesSlug(events[|events| - 1], slugOf[id]);
      StandingUpdateIsSince(slugOf, earlier, k, id);
    }
  }

  lemma {:induction false} SinceMeansStandingUpdate(slugOf: map<int, string>, events: seq<Event>, id: int)
    returns (k: nat)
    requires id in slugOf && UpdatedSince(slugOf, events, id)
    ensures Stands(slugOf, events, k, id)
    ensures events[k].topic.PostUpdated? && Carried(events, PostUpdated, id) != []
    ensures events[k].payload == Carried(events, PostUpdated, id)[|Carried(events, PostUpdated, id)| - 1]
  {
    var earlier, e := events[..|events| - 1], events[|events| - 1];
    if Concerns(e, PostUpdated, id) {
      k := |earlier|;
    } else {
      k := SinceMeansStandingUpdate(slugOf, earlier, id);
      assert forall m :: 0 <= m < |earlier| ==> earlier[m] == events[m];
    }
  }

  // ---- The condition

  /** A write of the post with this content stands: no delete of its slug came after it. */
  ghost predicate LastWordStands(slugOf: map<int, string>, arrived: seq<Event>, id: int, c: Content)
    requires id in slugOf
  {
    exists k :: Stands(slugOf, arrived, k, id) && IsContentOf(arrived[k].payload, c)
  }

  /**
   Each living post has a write with its final content that no delete of its slug followed, and each write
   of a dead post was followed by a delete of its slug.
   */
  ghost predicate LastWordsStand(slugOf: map<int, string>, posts: Posts, arrived: seq<Event>) {
    forall id :: id in slugOf ==>
      if id in posts then LastWordStands(slugOf, arrived, id, posts[id])
      else forall k :: !Stands(slugOf, arrived, k, id)
  }

  lemma {:induction false} OneCreate(history: seq<Event>, id: int)
    requires LegalHistory(history)
    ensures |Carried(history, PostCreated, id)| <= 1
  {
    if history != [] {
      var earlier := history[..|history| - 1];
      OneCreate(earlier, id);
      CarriedMeansPresent(earlier, PostCreated, id);
    }
  }

  /** What a living post's history left is its last update, or its create when it has none. */
  lemma HistoryContent(slugOf: map<int, string>, history: seq<Event>, id: int)
    requires LegalHistory(history) && OwnSlugs(slugOf, history) && id in PostsAfter(history)
    ensures var updates, creates := Carried(history, PostUpdated, id), Carried(history, PostCreated, id);
            if updates != [] then IsContentOf(updates[|updates| - 1], PostsAfter(history)[id])
            else creates != [] && IsContentOf(creates[0], PostsAfter(history)[id])
  {
    LatestOfHistory(history);
    LivingIsNeverDeleted(history, id);
    LatestIsTheWinner(slugOf, history, id);
  }

  lemma LivingIsNeverDeleted(history: seq<Event>, id: int)
    requires LegalHistory(history) && id in PostsAfter(history)
    ensures Carried(history, PostDeleted, id) == []
  {
    CarriedMeansPresent(history, PostDeleted, id);
    if Carried(history, PostDeleted, id) != [] {
      var j: nat :| j < |history| && Concerns(history[j], PostDeleted, id);
      DeletedStaysDeleted(history, j);
    }
  }

  /** For one post: it ends as in the history exactly when its last word stands, or nothing of it does. */
  lemma PostEndsRightIff(slugOf: map<int, string>, history: seq<Event>, arrived: seq<Event>, id: int)
    requires LegalHistory(history) && OwnSlugs(slugOf, history) && OwnSlugs(slugOf, arrived)
    requires SameTopics(history, arrived) && id in slugOf
    ensures id !in PostsAfter(history) ==>
              (id !in LatestBySlug(arrived) <==> forall k :: !Stands(slugOf, arrived, k, id))
    ensures id in PostsAfter(history) ==>
              (id in LatestBySlug(arrived) && LatestBySlug(arrived)[id] == PostsAfter(history)[id]
               <==> LastWordStands(slugOf, arrived, id, PostsAfter(history)[id]))
  {
    PresentIffStands(slugOf, arrived, id);
    if id in PostsAfter(history) {
      LivingEndsRightIff(slugOf, history, arrived, id);
    }
  }

  lemma LivingEndsRightIff(slugOf: map<int, string>, history: seq<Event>, arrived: seq<Event>, id: int)
    requires LegalHistory(history) && OwnSlugs(slugOf, history) && OwnSlugs(slugOf, arrived)
    requires SameTopics(history, arrived) && id in slugOf && id in PostsAfter(history)
    ensures id in LatestBySlug(arrived) && LatestBySlug(arrived)[id] == PostsAfter(history)[id]
       <==> LastWordStands(slugOf, arrived, id, PostsAfter(history)[id])
  {
    var c := PostsAfter(history)[id];
    assert Carried(history, PostUpdated, id) == Carried(arrived, PostUpdated, id);
    assert Carried(history, PostCreated, id) == Carried(arrived, PostCreated, id);
    OneCreate(history, id);
    HistoryContent(slugOf, history, id);
    PresentIffStands(slugOf, arrived, id);
    ContentLeft(slugOf, arrived, id);
    if UpdatedSince(slugOf, arrived, id) {
      var k := SinceMeansStandingUpdate(slugOf, arrived, id);
      assert LastWordStands(slugOf, arrived, id, c);
    } else {
      StandingIsTheCreate(slugOf, arrived, id, c);
    }
  }

  /** Where no update stands, what stands is the one create. */
  lemma StandingIsTheCreate(slugOf: map<int, string>, arrived: seq<Event>, id: int, c: Content)
    requires OwnSlugs(slugOf, arrived) && id in slugOf && |Carried(arrived, PostCreated, id)| <= 1
    requires !UpdatedSince(slugOf, arrived, id)
    ensures LastWordStands(slugOf, arrived, id, c)
       <==> (exists k :: Stands(slugOf, arrived, k, id)) && Carried(arrived, PostCreated, id) != []
            && IsContentOf(Carried(arrived, PostCreated, id)[0], c)
  {
    forall k: nat | Stands(slugOf, arrived, k, id)
      ensures Carried(arrived, PostCreated, id) == [arrived[k].payload]
    {
      if arrived[k].topic.PostUpdated? {
        StandingUpdateIsSince(slugOf, arrived, k, id);
      } else {
        OnlyCreate(arrived, k, id);
      }
    }
  }

  lemma {:induction false} OnlyCreate(events: seq<Event>, k: nat, id: int)
    requires k < |events| && Concerns(events[k], PostCreated, id) && |Carried(events, PostCreated, id)| <= 1
    ensures Carried(events, PostCreated, id) == [events[k].payload]
  {
    var earlier := events[..|events| - 1];
    CarriedMeansPresent(earlier, PostCreated, id);
    if k < |events| - 1 {
      assert earlier[k] == events[k];
      OnlyCreate(earlier, k, id);
    }
  }

  lemma {:induction false} PostsHaveOwnSlugs(slugOf: map<int, string>, history: seq<Event>)
    requires LegalHistory(history) && OwnSlugs(slugOf, history)
    ensures forall id :: id in PostsAfter(history) ==> id in slugOf
  {
    LatestOfHistory(history);
    LatestHasOwnSlugs(slugOf, history);
  }

  /**
   Convergence with slugs used again, exactly: events applied without a fault, in any order that keeps
   each topic's order for each post, leave the view of the posts table if and only if the last word on
   every living post stands and nothing of a dead post does.
   */
  lemma ConvergedIffLastWordsStand(slugOf: map<int, string>, history: seq<Event>, arrived: seq<Event>)
    requires LegalHistory(history) && OwnSlugs(slugOf, history) && OwnSlugs(slugOf, arrived)
    requires SameTopics(history, arrived) && AllSucceed(arrived)
    ensures UniqueSlugs(PostsAfter(history))
    ensures TableAfter(arrived) == View(PostsAfter(history)) <==> LastWordsStand(slugOf, PostsAfter(history), arrived)
  {
    SlugsStayUnique(history);
    SuccessGivesViewBySlug(slugOf, arrived);
    ViewIsInjective(LatestBySlug(arrived), PostsAfter(history));
    EqualIffLastWordsStand(slugOf, history, arrived);
  }

  lemma EqualIffLastWordsStand(slugOf: map<int, string>, history: seq<Event>, arrived: seq<Event>)
    requires LegalHistory(history) && OwnSlugs(slugOf, history) && OwnSlugs(slugOf, arrived)
    requires SameTopics(history, arrived)
    ensures LatestBySlug(arrived) == PostsAfter(history) <==> LastWordsStand(slugOf, PostsAfter(history), arrived)
  {
    var a, h := LatestBySlug(arrived), PostsAfter(history);
    PostsHaveOwnSlugs(slugOf, history);
    LatestBySlugHasOwnSlugs(slugOf, arrived);
    if a == h {
      forall id | id in slugOf
        ensures if id in h then LastWordStands(slugOf, arrived, id, h[id])
                else forall k :: !Stands(slugOf, arrived, k, id)
      {
        PostEndsRightIff(slugOf, history, arrived, id);
      }
    }
    if LastWordsStand(slugOf, h, arrived) {
      forall id ensures id in a.Keys <==> id in h.Keys
                ensures id in a.Keys ==> a[id] == h[id]
      {
        if id in slugOf {
          PostEndsRightIff(slugOf, history, arrived, id);
        }
      }
      SameMap(a, h);
    }
  }
}
