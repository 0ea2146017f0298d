/**
 The related-posts table as a value: what each event handler does to it, and the
 from-scratch view it is meant to equal.
 */
module RelatedTable {
  import opened Common
  import opened TitleText
  import opened Similarity

  datatype Topic = PostCreated | PostUpdated | PostDeleted

  /** An event payload; a missing field is a missing key. */
  datatype Payload = Payload(
    id: Option<int>, title: Option<string>, slug: Option<string>,
    image: Option<string>, body: Option<string>)

  datatype Event = Event(topic: Topic, payload: Payload)

  /** The fields of a post that travel between the services. */
  datatype Content = Content(title: string, image: Option<string>, body: Option<string>, slug: string)

  datatype Row = Row(content: Content, related: map<string, Score>)

  type Posts = map<int, Content>
  type Table = map<int, Row>

  /** What makes the message handler roll back: a missing key, or a violated unique column. */
  datatype Fault = MissingKey | IntegrityViolation

  // ---- The unique slug column, which the database enforces on every table

  ghost predicate UniqueSlugs(posts: Posts) {
    forall i, j :: i in posts && j in posts && posts[i].slug == posts[j].slug ==> i == j
  }

  function Contents(t: Table): (posts: Posts)
    ensures posts.Keys == t.Keys && forall i :: i in t ==> posts[i] == t[i].content
  {
    map i | i in t :: t[i].content
  }

  ghost predicate Unique(t: Table) {
    UniqueSlugs(Contents(t))
  }

  predicate SlugTaken(t: Table, id: int, slug: string) {
    exists j :: j in t && j != id && t[j].content.slug == slug
  }

  function ContentOf(p: Payload): Content
    requires p.title.Some? && p.slug.Some?
  {
    Content(p.title.value, p.image, p.body, p.slug.value)
  }

  // ---- The view: every score computed from scratch

  /** Some post other than `i` has this slug. */
  ghost predicate HasOther(posts: Posts, i: int, slug: string) {
    exists j :: j in posts && j != i && posts[j].slug == slug
  }

  /** The post, other than `i`, that has this slug. */
  ghost function OtherWith(posts: Posts, i: int, slug: string): (j: int)
    requires HasOther(posts, i, slug)
    ensures j in posts && j != i && posts[j].slug == slug
  {
    var j :| j in posts && j != i && posts[j].slug == slug;
    j
  }

  /** The score of a title against every post other than `i`, keyed by that post's slug. */
  ghost function ScoresAgainst(posts: Posts, i: int, title: string): (related: map<string, Score>)
    requires UniqueSlugs(posts)
    ensures forall s :: s in related <==> HasOther(posts, i, s)
    ensures forall j :: j in posts && j != i ==>
              posts[j].slug in related && related[posts[j].slug] == Similar(posts[j].title, title)
  {
    var slugs := set j | j in posts && j != i :: posts[j].slug;
    map s | s in slugs :: Similar(posts[OtherWith(posts, i, s)].title, title)
  }

  /** The related map a post must have. */
  ghost function RelatedOf(posts: Posts, i: int): map<string, Score>
    requires UniqueSlugs(posts) && i in posts
  {
    ScoresAgainst(posts, i, posts[i].title)
  }

  ghost function View(posts: Posts): (t: Table)
    requires UniqueSlugs(posts)
    ensures Contents(t) == posts
  {
    map i | i in posts :: Row(posts[i], RelatedOf(posts, i))
  }

  /** `related` has exactly the other posts' slugs as keys and the right score for each. */
  ghost predicate ExactRow(posts: Posts, i: int, related: map<string, Score>)
    requires i in posts
  {
    && (forall s :: s in related <==> HasOther(posts, i, s))
    && (forall j :: j in posts && j != i && posts[j].slug in related ==>
          related[posts[j].slug] == Similar(posts[j].title, posts[i].title))
  }

  ghost predicate Exact(t: Table) {
    Unique(t) && forall i :: i in t ==> ExactRow(Contents(t), i, t[i].related)
  }

  /** Exactness pins the related map down. */
  lemma OnlyOneRelatedMapIsExact(posts: Posts, i: int, related: map<string, Score>)
    requires UniqueSlugs(posts) && i in posts
    ensures ExactRow(posts, i, related) <==> related == RelatedOf(posts, i)
  {
    var expected := RelatedOf(posts, i);
    if ExactRow(posts, i, related) {
      assert forall s :: s in related <==> s in expected;
      forall s | s in related ensures related[s] == expected[s] {
        assert HasOther(posts, i, s);
      }
    }
  }

  /** Being exact and being the view of one's own contents are the same thing. */
  lemma ExactIsView(t: Table)
    requires Unique(t)
    ensures Exact(t) <==> t == View(Contents(t))
  {
    var posts := Contents(t);
    forall i | i in t ensures ExactRow(posts, i, t[i].related) <==> t[i] == View(posts)[i] {
      OnlyOneRelatedMapIsExact(posts, i, t[i].related);
    }
  }

  /** No key for the post itself, no dangling key, and both ends of a pair hold the same score. */
  lemma ExactTablesAreConsistent(t: Table, i: int)
    requires Exact(t) && i in t
    ensures t[i].content.slug !in t[i].related
    ensures forall s :: s in t[i].related ==> exists j :: j in t && t[j].content.slug == s
    ensures forall j :: j in t && j != i ==>
              && t[j].content.slug in t[i].related && t[i].content.slug in t[j].related
              && t[i].related[t[j].content.slug] == t[j].related[t[i].content.slug]
  {
    var posts := Contents(t);
    forall s | s in t[i].related ensures s != posts[i].slug && exists j :: j in t && t[j].content.slug == s {
      assert HasOther(posts, i, s);
    }
    forall j | j in t && j != i
      ensures && t[j].content.slug in t[i].related && t[i].content.slug in t[j].related
              && t[i].related[t[j].content.slug] == t[j].related[t[i].content.slug]
    {
      assert HasOther(posts, i, posts[j].slug) && HasOther(posts, j, posts[i].slug);
      SimilarIsSymmetric(posts[i].title, posts[j].title);
    }
  }

  // ---- The handlers

  /** Row `id` is (re)written with all its scores, and every other row gets its score for `slug`. */
  ghost function Scored(t: Table, id: int, content: Content): (r: Table)
    requires Unique(t)
    ensures Contents(r) == Contents(t)[id := content]
  {
    map j | j in t.Keys + {id} ::
      if j == id then Row(content, ScoresAgainst(Contents(t), id, content.title))
      else Row(t[j].content, t[j].related[content.slug := Similar(t[j].content.title, content.title)])
  }

  ghost function Created(t: Table, p: Payload): Result<Table, Fault>
    requires Unique(t)
  {
    if p.id.None? then Failure(MissingKey)
    else if p.id.value in t then Success(t)
    else if p.title.None? || p.slug.None? then Failure(MissingKey)
    else if SlugTaken(t, p.id.value, p.slug.value) then Failure(IntegrityViolation)
    else Success(Scored(t, p.id.value, ContentOf(p)))
  }

  ghost function Updated(t: Table, p: Payload): Result<Table, Fault>
    requires Unique(t)
  {
    if p.id.None? then Failure(MissingKey)
    else if p.id.value !in t then Created(t, p)
    else if p.title.None? || p.slug.None? then Failure(MissingKey)
    else if SlugTaken(t, p.id.value, p.slug.value) then Failure(IntegrityViolation)
    else
      var stored := t[p.id.value];
      if Strip(p.title.value) == Strip(stored.content.title)
      then Success(t[p.id.value := Row(ContentOf(p), stored.related)])
      else Success(Scored(t, p.id.value, ContentOf(p)))
  }

  ghost function Without(t: Table, slug: string): Table {
    map j | j in t && t[j].content.slug != slug :: Row(t[j].content, t[j].related - {slug})
  }

  ghost function Deleted(t: Table, p: Payload): Result<Table, Fault> {
    if p.slug.None? then Failure(MissingKey) else Success(Without(t, p.slug.value))
  }

  ghost function Apply(t: Table, e: Event): Result<Table, Fault>
    requires Unique(t)
  {
    match e.topic
    case PostCreated => Created(t, e.payload)
    case PostUpdated => Updated(t, e.payload)
    case PostDeleted => Deleted(t, e.payload)
  }

  lemma ApplyKeepsUnique(t: Table, e: Event)
    requires Unique(t) && Apply(t, e).Success?
    ensures Unique(Apply(t, e).value)
  {
    var r := Apply(t, e).value;
    forall i, j | i in r && j in r && r[i].content.slug == r[j].content.slug ensures i == j {
      if e.topic.PostDeleted? {
        assert Contents(t)[i].slug == Contents(t)[j].slug;
      } else if e.payload.id != Some(i) && e.payload.id != Some(j) {
        assert Contents(t)[i].slug == Contents(t)[j].slug;
      }
    }
  }

  // ---- What the handlers keep

  /** A full rescore of one row keeps the table exact, unless it strands the row's old slug elsewhere. */
  lemma ScoredKeepsExact(t: Table, id: int, content: Content)
    requires Exact(t) && !SlugTaken(t, id, content.slug)
    requires id in t ==> t[id].content.slug == content.slug
    ensures Exact(Scored(t, id, content))
  {
    var r := Scored(t, id, content);
    forall i | i in r ensures ExactRow(Contents(r), i, r[i].related) {
      if i == id {
        ScoredRowIsExact(t, id, content);
      } else {
        OtherRowStaysExact(t, id, content, i);
      }
    }
    ScoredKeepsUnique(t, id, content);
  }

  lemma ScoredKeepsUnique(t: Table, id: int, content: Content)
    requires Unique(t) && !SlugTaken(t, id, content.slug)
    ensures Unique(Scored(t, id, content))
  {
    var r := Contents(Scored(t, id, content));
    forall i, j | i in r && j in r && r[i].slug == r[j].slug ensures i == j {
      if i != id && j != id {
        assert Contents(t)[i].slug == Contents(t)[j].slug;
      }
    }
  }

  /** The rewritten row is exact whatever the table was before. */
  lemma ScoredRowIsExact(t: Table, id: int, content: Content)
    requires Unique(t)
    ensures ExactRow(Contents(Scored(t, id, content)), id, Scored(t, id, content)[id].related)
  {
    var r := Scored(t, id, content);
    var posts, before := Contents(r), Contents(t);
    forall s ensures s in r[id].related <==> HasOther(posts, id, s) {
      if s in r[id].related {
        var j :| j in t && j != id && t[j].content.slug == s;
        assert posts[j].slug == s;
      }
      if HasOther(posts, id, s) {
        var j :| j in posts && j != id && posts[j].slug == s;
        assert t[j].content.slug == s;
      }
    }
  }

  /** The keys a post must have: the others' slugs, with the (re)written one added. */
  lemma OthersAfterWrite(posts: Posts, id: int, content: Content, i: int, slug: string)
    requires i in posts && i != id
    requires id in posts ==> posts[id].slug == content.slug
    ensures HasOther(posts[id := content], i, slug) <==> slug == content.slug || HasOther(posts, i, slug)
  {
    var r := posts[id := content];
    assert r[id].slug == content.slug;
    if HasOther(posts, i, slug) {
      var j :| j in posts && j != i && posts[j].slug == slug;
      assert r[j].slug == slug;
    }
    if HasOther(r, i, slug) {
      var j :| j in r && j != i && r[j].slug == slug;
      assert j != id ==> posts[j].slug == slug;
    }
  }

  lemma OtherRowStaysExact(t: Table, id: int, content: Content, i: int)
    requires Unique(t) && i in t && i != id && !SlugTaken(t, id, content.slug)
    requires ExactRow(Contents(t), i, t[i].related)
    requires id in t ==> t[id].content.slug == content.slug
    ensures ExactRow(Contents(Scored(t, id, content)), i, Scored(t, id, content)[i].related)
  {
    var related := Scored(t, id, content)[i].related;
    var posts, before := Contents(Scored(t, id, content)), Contents(t);
    forall s ensures s in related <==> HasOther(posts, i, s) {
      OthersAfterWrite(before, id, content, i, s);
    }
    forall j | j in posts && j != i && posts[j].slug in related
      ensures related[posts[j].slug] == Similar(posts[j].title, posts[i].title)
    {
      if j == id {
        SimilarIsSymmetric(posts[i].title, content.title);
      } else {
        assert t[j].content.slug != content.slug;
        assert before[j].slug in t[i].related;
      }
    }
  }

  lemma CreatedKeepsExact(t: Table, p: Payload)
    requires Exact(t) && Created(t, p).Success?
    ensures Exact(Created(t, p).value)
  {
    if p.id.value !in t {
      ScoredKeepsExact(t, p.id.value, ContentOf(p));
    }
  }

  /** An exact row stays exact when one post changes its title in surrounding whitespace only. */
  lemma WhitespaceEditKeepsRowExact(posts: Posts, id: int, content: Content, i: int, related: map<string, Score>)
    requires id in posts && posts[id].slug == content.slug && Strip(content.title) == Strip(posts[id].title)
    requires i in posts && ExactRow(posts, i, related)
    ensures ExactRow(posts[id := content], i, related)
  {
    WhitespaceEditKeepsKeys(posts, id, content, i, related);
    forall j | j in posts && j != i && posts[j].slug in related
      ensures var r := posts[id := content];
              r[j].slug == posts[j].slug && related[r[j].slug] == Similar(r[j].title, r[i].title)
    {
      WhitespaceEditKeepsRelated(posts, id, content, i, related, j);
    }
    var r := posts[id := content];
    assert forall j :: j in r ==> j in posts && r[j].slug == posts[j].slug;
  }

  lemma WhitespaceEditKeepsKeys(posts: Posts, id: int, content: Content, i: int, related: map<string, Score>)
    requires id in posts && posts[id].slug == content.slug
    requires i in posts && ExactRow(posts, i, related)
    ensures forall s :: s in related <==> HasOther(posts[id := content], i, s)
  {
    forall s ensures s in related <==> HasOther(posts[id := content], i, s) {
      SlugKeptSameOthers(posts, id, content, i, s);
    }
  }

  lemma WhitespaceEditKeepsRelated(
      posts: Posts, id: int, content: Content, i: int, related: map<string, Score>, j: int)
    requires id in posts && posts[id].slug == content.slug && Strip(content.title) == Strip(posts[id].title)
    requires i in posts && ExactRow(posts, i, related) && j in posts && j != i && posts[j].slug in related
    ensures var r := posts[id := content];
            r[j].slug == posts[j].slug && related[r[j].slug] == Similar(r[j].title, r[i].title)
  {
    WhitespaceEditKeepsScore(posts, id, content, i, j, related[posts[j].slug]);
  }

  lemma SlugKeptSameOthers(posts: Posts, id: int, content: Content, i: int, slug: string)
    requires id in posts && posts[id].slug == content.slug
    ensures HasOther(posts[id := content], i, slug) <==> HasOther(posts, i, slug)
  {
    var r := posts[id := content];
    assert forall j :: j in posts ==> r[j].slug == posts[j].slug;
    if HasOther(posts, i, slug) {
      var j :| j in posts && j != i && posts[j].slug == slug;
      assert r[j].slug == slug;
    }
  }

  lemma WhitespaceEditKeepsScore(posts: Posts, id: int, content: Content, i: int, j: int, score: Score)
    requires id in posts && Strip(content.title) == Strip(posts[id].title) && i in posts && j in posts && i != j
    requires score == Similar(posts[j].title, posts[i].title)
    ensures var r := posts[id := content]; score == Similar(r[j].title, r[i].title)
  {
    EqualStripGivesEqualScores(posts[id].title, content.title, posts[i].title);
    EqualStripGivesEqualScores(posts[id].title, content.title, posts[j].title);
  }

  /** The early return keeps the table exact when the slug stays. */
  lemma RetitledInPlaceKeepsExact(t: Table, id: int, content: Content)
    requires Exact(t) && id in t && t[id].content.slug == content.slug
    requires Strip(content.title) == Strip(t[id].content.title)
    ensures Exact(t[id := Row(content, t[id].related)])
    ensures Contents(t[id := Row(content, t[id].related)]) == Contents(t)[id := content]
  {
    var r := t[id := Row(content, t[id].related)];
    assert Contents(r) == Contents(t)[id := content];
    forall i | i in r ensures ExactRow(Contents(r), i, r[i].related) {
      WhitespaceEditKeepsRowExact(Contents(t), id, content, i, t[i].related);
    }
    forall i, j | i in r && j in r && Contents(r)[i].slug == Contents(r)[j].slug ensures i == j {
      assert Contents(t)[i].slug == Contents(t)[j].slug;
    }
  }

  lemma UpdatedKeepsExact(t: Table, p: Payload)
    requires Exact(t) && Updated(t, p).Success?
    requires p.id.value in t ==> p.slug == Some(t[p.id.value].content.slug)
    ensures Exact(Updated(t, p).value)
  {
    if p.id.value !in t {
      CreatedKeepsExact(t, p);
    } else if Strip(p.title.value) == Strip(t[p.id.value].content.title) {
      RetitledInPlaceKeepsExact(t, p.id.value, ContentOf(p));
    } else {
      ScoredKeepsExact(t, p.id.value, ContentOf(p));
    }
  }

  /** Either branch of an update of a known post writes that post's content and no other. */
  lemma UpdatedContents(t: Table, p: Payload)
    requires Unique(t) && Updated(t, p).Success? && p.id.value in t
    ensures Contents(Updated(t, p).value) == Contents(t)[p.id.value := ContentOf(p)]
  {
    var r := t[p.id.value := Row(ContentOf(p), t[p.id.value].related)];
    assert Contents(r) == Contents(t)[p.id.value := ContentOf(p)];
  }

  lemma CreatedContents(t: Table, p: Payload)
    requires Unique(t) && Created(t, p).Success? && p.id.value !in t
    ensures Contents(Created(t, p).value) == Contents(t)[p.id.value := ContentOf(p)]
  {
  }

  lemma UpdatedOnlyAddsKeys(t: Table, p: Payload, other: int)
    requires Unique(t) && Updated(t, p).Success? && p.id.value in t && other in t && other != p.id.value
    ensures t[other].related.Keys <= Updated(t, p).value[other].related.Keys
  {
  }

  /** A rename strands the old slug in every other row. */
  lemma RenameStrandsOldSlug(t: Table, p: Payload, other: int)
    requires Exact(t) && Updated(t, p).Success? && p.id.value in t
    requires p.slug != Some(t[p.id.value].content.slug) && other in t && other != p.id.value
    ensures !Exact(Updated(t, p).value)
  {
    var id := p.id.value;
    var before, r := Contents(t), Updated(t, p).value;
    UpdatedContents(t, p);
    UpdatedOnlyAddsKeys(t, p, other);
    assert HasOther(before, other, before[id].slug);
    NoPostKeepsStaleSlug(before, id, ContentOf(p), other);
    assert !ExactRow(Contents(r), other, r[other].related);
  }

  lemma NoPostKeepsStaleSlug(posts: Posts, id: int, content: Content, i: int)
    requires UniqueSlugs(posts) && id in posts && posts[id].slug != content.slug
    ensures !HasOther(posts[id := content], i, posts[id].slug)
  {
    assert forall j :: j in posts && j != id ==> posts[j].slug != posts[id].slug;
  }

  /** A table with one post has nothing to be inexact about but that post's own map. */
  lemma SinglePostUpdateIsExact(t: Table, p: Payload)
    requires Exact(t) && p.id.Some? && t.Keys == {p.id.value} && Updated(t, p).Success?
    ensures Exact(Updated(t, p).value)
  {
    var id := p.id.value;
    var r := Updated(t, p).value;
    assert id in t && ExactRow(Contents(t), id, t[id].related);
    assert forall s :: !HasOther(Contents(t), id, s) && !HasOther(Contents(r), id, s);
    assert r[id].related == map[];
    assert r.Keys == {id};
  }

  /**
   The exact condition under which an applied update of a known post leaves the table exact:
   the slug is the stored one, or there is no other post to hold the stale key.
   */
  lemma UpdateKeepsExactIffSlugKept(t: Table, p: Payload)
    requires Exact(t) && p.id.Some? && p.id.value in t && Updated(t, p).Success?
    ensures Exact(Updated(t, p).value)
       <==> p.slug == Some(t[p.id.value].content.slug) || t.Keys == {p.id.value}
  {
    var id := p.id.value;
    if p.slug == Some(t[id].content.slug) {
      UpdatedKeepsExact(t, p);
    } else if other :| other in t.Keys && other != id {
      RenameStrandsOldSlug(t, p, other);
    } else {
      assert forall j :: j in t.Keys ==> j in {id};
      SinglePostUpdateIsExact(t, p);
    }
  }

  /** The early return is an optimisation: it gives the table a full rescore would give. */
  lemma SkippingRescoreIsSound(t: Table, id: int, content: Content)
    requires Exact(t) && id in t && t[id].content.slug == content.slug && !SlugTaken(t, id, content.slug)
    requires Strip(content.title) == Strip(t[id].content.title)
    ensures t[id := Row(content, t[id].related)] == Scored(t, id, content)
  {
    var skipped := t[id := Row(content, t[id].related)];
    RetitledInPlaceKeepsExact(t, id, content);
    ScoredKeepsExact(t, id, content);
    SameContentsSameExactTable(skipped, Scored(t, id, content));
  }

  lemma SameContentsSameExactTable(t: Table, u: Table)
    requires Exact(t) && Exact(u) && Contents(t) == Contents(u)
    ensures t == u
  {
    ExactIsView(t);
    ExactIsView(u);
  }

  lemma DeletedKeepsExact(t: Table, p: Payload)
    requires Exact(t) && Deleted(t, p).Success?
    ensures Exact(Deleted(t, p).value)
  {
    var slug := p.slug.value;
    var r := Without(t, slug);
    forall i | i in r ensures ExactRow(Contents(r), i, r[i].related) {
      assert ExactRow(Contents(t), i, t[i].related);
      forall s ensures s in r[i].related <==> HasOther(Contents(r), i, s) {
        if s in r[i].related {
          assert HasOther(Contents(t), i, s);
          var j :| j in t && j != i && Contents(t)[j].slug == s;
          assert Contents(r)[j].slug == s;
        }
        if HasOther(Contents(r), i, s) {
          var j :| j in r && j != i && Contents(r)[j].slug == s;
          assert Contents(t)[j].slug == s;
        }
      }
    }
    ApplyKeepsUnique(t, Event(PostDeleted, p));
  }

  /** Deleting a slug no post has changes nothing: no related map can be holding it either. */
  lemma DeletingUnknownSlugChangesNothing(t: Table, slug: string)
    requires Exact(t) && forall j :: j in t ==> t[j].content.slug != slug
    ensures Without(t, slug) == t
  {
    var r := Without(t, slug);
    forall j | j in t.Keys ensures j in r && r[j] == t[j] {
      assert ExactRow(Contents(t), j, t[j].related);
      assert !HasOther(Contents(t), j, slug);
      RemovingAbsentKey(t[j].related, slug);
    }
    SameMap(r, t);
  }

  lemma WithoutContents(t: Table, id: int)
    requires Unique(t) && id in t
    ensures Contents(Without(t, t[id].content.slug)) == Contents(t) - {id}
  {
    forall j | j in t && j != id ensures t[j].content.slug != t[id].content.slug {
      assert Contents(t)[j].slug == t[j].content.slug;
    }
  }

  /** An update names the slug the table already stores for that post, if it stores the post. */
  ghost predicate CarriesStoredSlug(t: Table, e: Event) {
    e.topic.PostUpdated? && e.payload.id.Some? && e.payload.id.value in t && e.payload.slug.Some? ==>
      e.payload.slug.value == t[e.payload.id.value].content.slug
  }

  /** Every handler, for every payload: known or unknown ids and slugs, resurrected posts. */
  lemma ApplyKeepsExact(t: Table, e: Event)
    requires Exact(t) && Apply(t, e).Success? && CarriesStoredSlug(t, e)
    ensures Exact(Apply(t, e).value)
  {
    match e.topic
    case PostCreated => CreatedKeepsExact(t, e.payload);
    case PostUpdated => UpdatedKeepsExact(t, e.payload);
    case PostDeleted => DeletedKeepsExact(t, e.payload);
  }

  // ---- What each handler does, field by field

  /** The four fields of a post are those of the payload. */
  ghost predicate Carries(c: Content, p: Payload) {
    p.title == Some(c.title) && p.slug == Some(c.slug) && p.image == c.image && p.body == c.body
  }

  ghost predicate HolderOf(t: Table, id: int, slug: string) {
    id in t && t[id].content.slug == slug
  }

  /** `related` has the slug of every row other than `id`, with that row's score against the title, and no other key. */
  ghost predicate ScoresAll(t: Table, id: int, title: string, related: map<string, Score>) {
    && (forall s :: s in related ==> exists j :: j != id && HolderOf(t, j, s))
    && (forall j :: j in t && j != id ==>
          t[j].content.slug in related && related[t[j].content.slug] == Similar(t[j].content.title, title))
  }

  /** Every other row keeps its post and its scores, and has the score of the title under the slug. */
  ghost predicate OthersScored(t: Table, r: Table, id: int, title: string, slug: string) {
    forall j :: j in t && j != id ==> OtherScored(t, r, j, title, slug)
  }

  ghost predicate OtherScored(t: Table, r: Table, j: int, title: string, slug: string)
    requires j in t
  {
    && j in r && r[j].content == t[j].content
    && r[j].related.Keys == t[j].related.Keys + {slug}
    && r[j].related[slug] == Similar(t[j].content.title, title)
    && forall s :: s in t[j].related && s != slug ==> r[j].related[s] == t[j].related[s]
  }

  /** A create: which payloads fail and how, that a known id changes nothing, and what a new one writes. */
  lemma CreatedMeans(t: Table, p: Payload)
    requires Unique(t)
    ensures Created(t, p) == Failure(MissingKey)
       <==> p.id.None? || (p.id.value !in t && (p.title.None? || p.slug.None?))
    ensures Created(t, p) == Failure(IntegrityViolation)
       <==> && p.id.Some? && p.id.value !in t && p.title.Some? && p.slug.Some?
            && exists j :: j != p.id.value && HolderOf(t, j, p.slug.value)
    ensures Created(t, p).Success? && p.id.value in t ==> Created(t, p).value == t
    ensures Created(t, p).Success? && p.id.value !in t ==> Rewritten(t, Created(t, p).value, p)
  {
    if p.id.Some? && p.title.Some? && p.slug.Some? {
      TakenMeansHeld(t, p.id.value, p.slug.value);
      ScoredMeans(t, p.id.value, ContentOf(p));
    }
  }

  /** The row of the payload is written with all its scores, and every other row gets its own. */
  ghost predicate Rewritten(t: Table, r: Table, p: Payload) {
    && p.id.Some? && p.title.Some? && p.slug.Some?
    && r.Keys == t.Keys + {p.id.value} && Carries(r[p.id.value].content, p)
    && ScoresAll(t, p.id.value, p.title.value, r[p.id.value].related)
    && OthersScored(t, r, p.id.value, p.title.value, p.slug.value)
  }

  lemma TakenMeansHeld(t: Table, id: int, slug: string)
    ensures SlugTaken(t, id, slug) <==> exists j :: j != id && HolderOf(t, j, slug)
  {
    if SlugTaken(t, id, slug) {
      var j :| j in t && j != id && t[j].content.slug == slug;
      assert HolderOf(t, j, slug);
    }
  }

  lemma ScoredMeans(t: Table, id: int, content: Content)
    requires Unique(t)
    ensures var r := Scored(t, id, content);
            && r.Keys == t.Keys + {id} && r[id].content == content
            && ScoresAll(t, id, content.title, r[id].related)
            && OthersScored(t, r, id, content.title, content.slug)
  {
    ScoresAgainstAll(t, id, content.title);
    OthersAreScored(t, id, content);
  }

  lemma ScoresAgainstAll(t: Table, id: int, title: string)
    requires Unique(t)
    ensures ScoresAll(t, id, title, ScoresAgainst(Contents(t), id, title))
  {
    var related := ScoresAgainst(Contents(t), id, title);
    forall s | s in related ensures exists j :: j != id && HolderOf(t, j, s) {
      assert HasOther(Contents(t), id, s);
      var j :| j in Contents(t) && j != id && Contents(t)[j].slug == s;
      assert HolderOf(t, j, s);
    }
    forall j | j in t && j != id
      ensures t[j].content.slug in related && related[t[j].content.slug] == Similar(t[j].content.title, title)
    {
      assert Contents(t)[j] == t[j].content;
    }
  }

  lemma OthersAreScored(t: Table, id: int, content: Content)
    requires Unique(t)
    ensures OthersScored(t, Scored(t, id, content), id, content.title, content.slug)
  {
    forall j | j in t && j != id ensures OtherScored(t, Scored(t, id, content), j, content.title, content.slug) {
      OtherIsScored(t, id, content, j);
    }
  }

  lemma OtherIsScored(t: Table, id: int, content: Content, j: int)
    requires Unique(t) && j in t && j != id
    ensures OtherScored(t, Scored(t, id, content), j, content.title, content.slug)
  {
    var related := t[j].related[content.slug := Similar(t[j].content.title, content.title)];
    assert Scored(t, id, content)[j] == Row(t[j].content, related);
  }

  /** Which updates of a known post fail, and how; an update of an unknown one is the create. */
  lemma UpdatedFails(t: Table, p: Payload)
    requires Unique(t)
    ensures p.id.None? ==> Updated(t, p) == Failure(MissingKey)
    ensures p.id.Some? && p.id.value !in t ==> Updated(t, p) == Created(t, p)
    ensures p.id.Some? && p.id.value in t ==>
              (Updated(t, p) == Failure(MissingKey) <==> p.title.None? || p.slug.None?)
    ensures p.id.Some? && p.id.value in t ==>
              (Updated(t, p) == Failure(IntegrityViolation) <==>
               && p.title.Some? && p.slug.Some? && exists j :: j != p.id.value && HolderOf(t, j, p.slug.value))
  {
    if p.id.Some? && p.slug.Some? {
      TakenMeansHeld(t, p.id.value, p.slug.value);
    }
  }

  /**
   What an update of a known post leaves, whether or not it keeps the slug. When the titles agree after
   stripping, only the post's own four fields change, and no related map does. Otherwise its row is scored
   afresh, and every other row keeps its map, an old slug of the post included, and gets the new score.
   */
  lemma UpdatedMeans(t: Table, p: Payload)
    requires Unique(t) && Updated(t, p).Success? && p.id.value in t
    ensures p.title.Some? && p.slug.Some?
    ensures var r, id := Updated(t, p).value, p.id.value;
            if Strip(p.title.value) == Strip(t[id].content.title) then
              && r.Keys == t.Keys && Carries(r[id].content, p)
              && (forall j :: j in t ==> r[j].related == t[j].related)
              && (forall j :: j in t && j != id ==> r[j].content == t[j].content)
            else Rewritten(t, r, p)
  {
    var id, stored := p.id.value, t[p.id.value];
    if Strip(p.title.value) == Strip(stored.content.title) {
      assert Updated(t, p).value == t[id := Row(ContentOf(p), stored.related)];
    } else {
      assert Updated(t, p).value == Scored(t, id, ContentOf(p));
      ScoredMeans(t, id, ContentOf(p));
    }
  }

  /** A delete: it fails only without a slug; else the rows with the slug go, and the slug goes from every map. */
  lemma DeletedMeans(t: Table, p: Payload)
    ensures p.slug.None? ==> Deleted(t, p) == Failure(MissingKey)
    ensures p.slug.Some? ==> Deleted(t, p).Success?
    ensures p.slug.Some? ==> forall j :: j in Deleted(t, p).value <==> j in t && t[j].content.slug != p.slug.value
    ensures p.slug.Some? ==> forall j :: j in Deleted(t, p).value ==>
              && Deleted(t, p).value[j].content == t[j].content
              && Deleted(t, p).value[j].related.Keys == t[j].related.Keys - {p.slug.value}
              && forall s :: s in t[j].related && s != p.slug.value ==>
                   Deleted(t, p).value[j].related[s] == t[j].related[s]
  {
  }

  /** The topic picks the handler. */
  lemma TopicPicksHandler(t: Table, p: Payload)
    requires Unique(t)
    ensures Apply(t, Event(PostCreated, p)) == Created(t, p)
    ensures Apply(t, Event(PostUpdated, p)) == Updated(t, p)
    ensures Apply(t, Event(PostDeleted, p)) == Deleted(t, p)
  {
  }

  // ---- What a rename leaves

  /** Other than for the old slug, the keys another post must have after a rename. */
  lemma OthersAfterRename(posts: Posts, id: int, content: Content, i: int, slug: string)
    requires UniqueSlugs(posts) && id in posts && i in posts && i != id && slug != posts[id].slug
    ensures HasOther(posts[id := content], i, slug) <==> slug == content.slug || HasOther(posts, i, slug)
  {
    var r := posts[id := content];
    assert r[id].slug == content.slug;
    if HasOther(posts, i, slug) {
      var j :| j in posts && j != i && posts[j].slug == slug;
      assert r[j].slug == slug;
    }
    if HasOther(r, i, slug) {
      var j :| j in r && j != i && r[j].slug == slug;
      assert j != id ==> posts[j].slug == slug;
    }
  }

  /** The map another row has after a rename: that of the view, with the one stale key added. */
  ghost predicate OneStaleKey(posts: Posts, i: int, related: map<string, Score>, stale: string, score: Score)
    requires UniqueSlugs(posts) && i in posts
  {
    related == RelatedOf(posts, i)[stale := score]
  }

  /**
   From an exact table, a rename with a changed title leaves the renamed row right and every other row
   right but for one key, the old slug with its old score.
   */
  lemma RetitledRenameLeavesOneStaleKey(t: Table, p: Payload, i: int)
    requires Exact(t) && Updated(t, p).Success? && p.id.value in t
    requires Strip(p.title.value) != Strip(t[p.id.value].content.title)
    requires p.slug != Some(t[p.id.value].content.slug) && i in t
    ensures var r, id := Updated(t, p).value, p.id.value;
            && Contents(r) == Contents(t)[id := ContentOf(p)] && UniqueSlugs(Contents(r))
            && (i == id ==> r[i].related == RelatedOf(Contents(r), i))
            && (i != id ==> t[id].content.slug in t[i].related)
            && (i != id ==>
                  OneStaleKey(Contents(r), i, r[i].related, t[id].content.slug, t[i].related[t[id].content.slug]))
  {
    var id, content := p.id.value, ContentOf(p);
    UpdatedContents(t, p);
    ScoredKeepsUnique(t, id, content);
    if i == id {
      ScoredRowIsExact(t, id, content);
      OnlyOneRelatedMapIsExact(Contents(Scored(t, id, content)), id, Scored(t, id, content)[id].related);
    } else {
      RenamedOtherRow(t, id, content, i);
    }
  }

  lemma RenamedOtherRow(t: Table, id: int, content: Content, i: int)
    requires Exact(t) && id in t && i in t && i != id && !SlugTaken(t, id, content.slug)
    requires content.slug != t[id].content.slug && UniqueSlugs(Contents(t)[id := content])
    ensures t[id].content.slug in t[i].related
    ensures var stale := t[id].content.slug;
            t[i].related[content.slug := Similar(t[i].content.title, content.title)]
            == RelatedOf(Contents(t)[id := content], i)[stale := t[i].related[stale]]
  {
    var stale := t[id].content.slug;
    assert HasOther(Contents(t), i, stale) && ExactRow(Contents(t), i, t[i].related);
    var m, n := t[i].related, RelatedOf(Contents(t)[id := content], i);
    var slug, score := content.slug, Similar(t[i].content.title, content.title);
    forall s | s != stale ensures AgreesAt(m, n, slug, score, s) {
      RenamedScore(t, id, content, i, s);
    }
    SameButOneKey(m, n, slug, score, stale);
  }

  /** At this key the one map is the other with the score added. */
  ghost predicate AgreesAt(m: map<string, Score>, n: map<string, Score>, slug: string, score: Score, s: string) {
    && (s in n <==> s == slug || s in m)
    && (s == slug ==> n[s] == score)
    && (s != slug && s in m ==> n[s] == m[s])
  }

  lemma SameButOneKey(m: map<string, Score>, n: map<string, Score>, slug: string, score: Score, stale: string)
    requires stale in m && slug != stale
    requires forall s :: s != stale ==> AgreesAt(m, n, slug, score, s)
    ensures m[slug := score] == n[stale := m[stale]]
  {
    var left, right := m[slug := score], n[stale := m[stale]];
    forall s ensures s in left.Keys <==> s in right.Keys
             ensures s in left.Keys ==> left[s] == right[s]
    {
      assert s != stale ==> AgreesAt(m, n, slug, score, s);
    }
    SameMap(left, right);
  }

  lemma RenamedScore(t: Table, id: int, content: Content, i: int, s: string)
    requires Exact(t) && id in t && i in t && i != id && !SlugTaken(t, id, content.slug)
    requires content.slug != t[id].content.slug && UniqueSlugs(Contents(t)[id := content])
    requires s != t[id].content.slug
    ensures AgreesAt(t[i].related, RelatedOf(Contents(t)[id := content], i), content.slug,
                     Similar(t[i].content.title, content.title), s)
  {
    var before, after := Contents(t), Contents(t)[id := content];
    OthersAfterRename(before, id, content, i, s);
    assert ExactRow(before, i, t[i].related);
    if s == content.slug {
      assert after[id].slug == s;
      SimilarIsSymmetric(content.title, t[i].content.title);
    } else if s in t[i].related {
      assert HasOther(before, i, s);
      var j :| j in before && j != i && before[j].slug == s;
      assert after[j] == before[j];
    }
  }

  /** A rename that keeps the title, up to surrounding whitespace, leaves the old keys and adds none: no map changes. */
  lemma SlugOnlyRenameLeavesOldKeys(t: Table, p: Payload, i: int)
    requires Exact(t) && Updated(t, p).Success? && p.id.value in t
    requires Strip(p.title.value) == Strip(t[p.id.value].content.title)
    requires p.slug != Some(t[p.id.value].content.slug) && i in t && i != p.id.value
    ensures var r := Updated(t, p).value;
            && r[i].related == t[i].related && r[p.id.value].related == t[p.id.value].related
            && t[p.id.value].content.slug in r[i].related && p.slug.value !in r[i].related
  {
    UpdatedMeans(t, p);
    SlugFreeMeansNoKey(t, p.id.value, p.slug.value, i);
    assert ExactRow(Contents(t), i, t[i].related) && HasOther(Contents(t), i, t[p.id.value].content.slug);
  }

  /** A slug that nobody else has is in nobody else's map. */
  lemma SlugFreeMeansNoKey(t: Table, id: int, slug: string, i: int)
    requires Exact(t) && id in t && i in t && i != id && !SlugTaken(t, id, slug) && slug != t[id].content.slug
    ensures slug !in t[i].related
  {
    assert ExactRow(Contents(t), i, t[i].related);
    forall j | j in Contents(t) && j != i ensures Contents(t)[j].slug != slug {
      assert Contents(t)[j] == t[j].content;
    }
    assert !HasOther(Contents(t), i, slug);
  }

  // ---- Any number of handler calls

  /** One call of the message handler: a fault rolls the whole call back. */
  ghost function Step(t: Table, e: Event): (r: Table)
    requires Unique(t)
    ensures Unique(r)
  {
    match Apply(t, e)
    case Success(next) => ApplyKeepsUnique(t, e); next
    case Failure(_) => t
  }

  ghost function StepAll(t: Table, events: seq<Event>): (r: Table)
    requires Unique(t)
    ensures Unique(r)
    decreases |events|
  {
    if events == [] then t else Step(StepAll(t, events[..|events| - 1]), events[|events| - 1])
  }

  /** Each call that updates a known post names the slug stored for it when the call is made. */
  ghost predicate AllCarryStoredSlugs(t: Table, events: seq<Event>)
    requires Unique(t)
    decreases |events|
  {
    events == [] ||
    var earlier := events[..|events| - 1];
    AllCarryStoredSlugs(t, earlier) && CarriesStoredSlug(StepAll(t, earlier), events[|events| - 1])
  }

  /** Whatever calls arrive, in whatever order, the table stays exact as long as updates carry stored slugs. */
  lemma {:induction false} AnyCallsKeepExact(t: Table, events: seq<Event>)
    requires Exact(t) && AllCarryStoredSlugs(t, events)
    ensures Exact(StepAll(t, events))
    decreases |events|
  {
    if events != [] {
      var earlier := events[..|events| - 1];
      AnyCallsKeepExact(t, earlier);
      StepKeepsExact(StepAll(t, earlier), events[|events| - 1]);
    }
  }

  lemma StepKeepsExact(t: Table, e: Event)
    requires Exact(t) && CarriesStoredSlug(t, e)
    ensures Exact(Step(t, e))
  {
    if Apply(t, e).Success? {
      ApplyKeepsExact(t, e);
    }
  }
}
