/**
 The posts service: every write and the event describing it land in one transaction, so the
 outbox read from the front rebuilds the posts table.
 */
module PostsService {
  import opened Common
  import opened RelatedTable

  datatype Status = Done | BadRequest | NotFound | Failed

  function Events(rows: seq<OutboxRow<Event>>): (events: seq<Event>)
    ensures |events| == |rows| && forall k :: 0 <= k < |rows| ==> events[k] == rows[k].event
  {
    seq(|rows|, k requires 0 <= k < |rows| => rows[k].event)
  }

  function FullPayload(id: int, c: Content): (p: Payload)
    ensures p.id == Some(id) && p.title.Some? && p.slug.Some? && ContentOf(p) == c
  {
    Payload(Some(id), Some(c.title), Some(c.slug), c.image, c.body)
  }

  function DeletePayload(id: int, slug: string): Payload {
    Payload(Some(id), None, Some(slug), None, None)
  }

  // ---- What an event says about the posts table

  predicate SlugInUse(posts: Posts, id: int, slug: string) {
    exists j :: j in posts && j != id && posts[j].slug == slug
  }

  /** The service could have recorded this event against this table. */
  predicate Legal(posts: Posts, e: Event) {
    && e.payload.id.Some? && e.payload.slug.Some?
    && var id := e.payload.id.value;
       match e.topic
       case PostCreated => e.payload.title.Some? && id !in posts && !SlugInUse(posts, id, e.payload.slug.value)
       case PostUpdated => e.payload.title.Some? && id in posts && !SlugInUse(posts, id, e.payload.slug.value)
       case PostDeleted => id in posts && posts[id].slug == e.payload.slug.value
  }

  /** The table after the write an event describes; an incomplete payload describes none. */
  function Replayed(posts: Posts, e: Event): Posts {
    if e.payload.id.None? then posts
    else if e.topic.PostDeleted? then posts - {e.payload.id.value}
    else if e.payload.title.None? || e.payload.slug.None? then posts
    else posts[e.payload.id.value := ContentOf(e.payload)]
  }

  /** A create names an id that was never used before: ids are drawn from a sequence. */
  predicate Fresh(events: seq<Event>, e: Event) {
    e.topic.PostCreated? ==> forall k :: 0 <= k < |events| ==> events[k].payload.id != e.payload.id
  }

  /** The service could record this event after those. */
  predicate Recordable(events: seq<Event>, e: Event) {
    Legal(PostsAfter(events), e) && Fresh(events, e)
  }

  predicate LegalHistory(events: seq<Event>) {
    events == [] ||
    (LegalHistory(events[..|events| - 1]) && Recordable(events[..|events| - 1], events[|events| - 1]))
  }

  /** The posts table rebuilt from the events alone. */
  function PostsAfter(events: seq<Event>): Posts {
    if events == [] then map[] else Replayed(PostsAfter(events[..|events| - 1]), events[|events| - 1])
  }

  lemma LegalHistoryGrows(events: seq<Event>, e: Event)
    requires LegalHistory(events) && Recordable(events, e)
    ensures LegalHistory(events + [e]) && PostsAfter(events + [e]) == Replayed(PostsAfter(events), e)
  {
    assert (events + [e])[..|events|] == events;
  }

  lemma {:induction false} LegalPrefix(events: seq<Event>, n: nat)
    requires LegalHistory(events) && n <= |events|
    ensures LegalHistory(events[..n])
  {
    if n < |events| {
      var body := events[..|events| - 1];
      LegalPrefix(body, n);
      assert body[..n] == events[..n];
    } else {
      assert events[..n] == events;
    }
  }

  /** No history the service can record ever gives two posts one slug. */
  lemma {:induction false} SlugsStayUnique(events: seq<Event>)
    requires LegalHistory(events)
    ensures UniqueSlugs(PostsAfter(events))
  {
    if events != [] {
      SlugsStayUnique(events[..|events| - 1]);
    }
  }

  // ---- Deletes

  /** Nothing about a post comes after its delete. */
  ghost predicate DeletesComeLast(events: seq<Event>) {
    forall j, k :: 0 <= j < k < |events| && events[j].topic.PostDeleted? ==>
      events[k].payload.id != events[j].payload.id
  }

  lemma {:induction false} DeletedStaysDeleted(events: seq<Event>, j: nat)
    requires LegalHistory(events) && j < |events| && events[j].topic.PostDeleted?
    ensures events[j].payload.id.Some? && events[j].payload.id.value !in PostsAfter(events)
    ensures forall k :: j < k < |events| ==> events[k].payload.id != events[j].payload.id
  {
    var earlier, e := events[..|events| - 1], events[|events| - 1];
    if j < |earlier| {
      assert earlier[j] == events[j];
      DeletedStaysDeleted(earlier, j);
      assert forall k :: 0 <= k < |earlier| ==> earlier[k] == events[k];
      assert e.payload.id != events[j].payload.id;
    }
  }

  /** In every history the service can record nothing about a post follows its delete, since ids are not used again. */
  lemma HistoriesDeleteLast(events: seq<Event>)
    requires LegalHistory(events)
    ensures DeletesComeLast(events)
  {
    forall j: nat, k: nat | j < k < |events| && events[j].topic.PostDeleted?
      ensures events[k].payload.id != events[j].payload.id
    {
      DeletedStaysDeleted(events, j);
    }
  }

  // ---- The request handlers

  ghost predicate Consistent(posts: Posts, rows: seq<OutboxRow<Event>>) {
    LegalHistory(Events(rows)) && PostsAfter(Events(rows)) == posts
  }

  /** Recording the event with the write is what keeps table and outbox in step. */
  lemma RecordingKeepsConsistent(posts: Posts, rows: seq<OutboxRow<Event>>, e: Event)
    requires Consistent(posts, rows) && Recordable(Events(rows), e)
    ensures Consistent(Replayed(posts, e), rows + [OutboxRow(e, false)])
  {
    LegalHistoryGrows(Events(rows), e);
    assert Events(rows + [OutboxRow(e, false)]) == Events(rows) + [e];
  }

  /** Every recorded id is one the sequence has already given out. */
  ghost predicate IdsBelow(rows: seq<OutboxRow<Event>>, nextId: int) {
    forall k :: 0 <= k < |rows| && rows[k].event.payload.id.Some? ==> rows[k].event.payload.id.value < nextId
  }

  lemma DrawnIdIsFresh(rows: seq<OutboxRow<Event>>, nextId: int, e: Event)
    requires IdsBelow(rows, nextId) && e.payload.id == Some(nextId)
    ensures Fresh(Events(rows), e)
  {
    forall k | 0 <= k < |rows| ensures Events(rows)[k].payload.id != e.payload.id {
      assert rows[k].event.payload.id.Some? ==> rows[k].event.payload.id.value < nextId;
    }
  }

  class PostsService {
    var posts: Posts
    var nextId: int
    var outbox: seq<OutboxRow<Event>>

    ghost predicate Valid()
      reads this
    {
      && UniqueSlugs(posts)
      && (forall i :: i in posts ==> i < nextId)
      && IdsBelow(outbox, nextId)
      && Consistent(posts, outbox)
    }

    constructor ()
      ensures Valid() && posts == map[] && outbox == []
    {
      posts, nextId, outbox := map[], 1, [];
      assert Events([]) == [];
    }

    method RecordEvent(topic: Topic, payload: Payload)
      modifies this`outbox
      ensures outbox == old(outbox) + [OutboxRow(Event(topic, payload), false)]
    {
      outbox := outbox + [OutboxRow(Event(topic, payload), false)];
    }

    /** `commits` is false when something fails before the transaction commits. */
    method Create(content: Content, commits: bool) returns (status: Status)
      requires Valid()
      modifies this
      ensures Valid()
      ensures status.Done? <==> commits && !SlugInUse(old(posts), old(nextId), content.slug)
      ensures status.BadRequest? <==> SlugInUse(old(posts), old(nextId), content.slug)
      ensures status.Done? ==> posts == old(posts)[old(nextId) := content]
      ensures status.Done? ==>
                outbox == old(outbox) + [OutboxRow(Event(PostCreated, FullPayload(old(nextId), content)), false)]
      ensures !status.Done? ==> posts == old(posts) && outbox == old(outbox)
    {
      if SlugInUse(posts, nextId, content.slug) {
        return BadRequest;
      }
      var savedPosts, savedOutbox, id := posts, outbox, nextId;
      DrawnIdIsFresh(outbox, nextId, Event(PostCreated, FullPayload(id, content)));
      RecordingKeepsConsistent(posts, outbox, Event(PostCreated, FullPayload(id, content)));
      nextId := nextId + 1;
      posts := posts[id := content];
      RecordEvent(PostCreated, FullPayload(id, content));
      if !commits {
        posts, outbox := savedPosts, savedOutbox;
        return Failed;
      }
      status := Done;
    }

    /** The post with this slug, or the reason there is none. */
    method Find(slug: string) returns (found: Option<int>)
      ensures found.Some? ==> found.value in posts && posts[found.value].slug == slug
      ensures found.None? ==> forall i :: i in posts ==> posts[i].slug != slug
    {
      if i :| i in posts && posts[i].slug == slug {
        found := Some(i);
      } else {
        found := None;
      }
    }

    method Update(slug: string, content: Content, commits: bool) returns (status: Status, ghost id: int)
      requires Valid()
      modifies this`posts, this`outbox
      ensures Valid()
      ensures status.NotFound? <==> forall i :: i in old(posts) ==> old(posts)[i].slug != slug
      ensures !status.NotFound? ==> id in old(posts) && old(posts)[id].slug == slug
      ensures status.Done? ==> !SlugInUse(old(posts), id, content.slug) && posts == old(posts)[id := content]
      ensures status.Done? ==>
                outbox == old(outbox) + [OutboxRow(Event(PostUpdated, FullPayload(id, content)), false)]
      ensures status.BadRequest? <==> !status.NotFound? && SlugInUse(old(posts), id, content.slug)
      ensures status.Done? ==> commits
      ensures status.Failed? ==> !commits
      ensures !status.Done? ==> posts == old(posts) && outbox == old(outbox)
    {
      id := 0;
      var found := Find(slug);
      if found.None? {
        return NotFound, id;
      }
      id := found.value;
      if SlugInUse(posts, found.value, content.slug) {
        return BadRequest, id;
      }
      var savedPosts, savedOutbox := posts, outbox;
      RecordingKeepsConsistent(posts, outbox, Event(PostUpdated, FullPayload(found.value, content)));
      posts := posts[found.value := content];
      RecordEvent(PostUpdated, FullPayload(found.value, content));
      if !commits {
        posts, outbox := savedPosts, savedOutbox;
        return Failed, id;
      }
      status := Done;
    }

    method Destroy(slug: string, commits: bool) returns (status: Status, ghost id: int)
      requires Valid()
      modifies this`posts, this`outbox
      ensures Valid()
      ensures status.NotFound? <==> forall i :: i in old(posts) ==> old(posts)[i].slug != slug
      ensures status.Done? ==> id in old(posts) && old(posts)[id].slug == slug && posts == old(posts) - {id}
      ensures status.Done? ==>
                outbox == old(outbox) + [OutboxRow(Event(PostDeleted, DeletePayload(id, slug)), false)]
      ensures status.Done? <==> !status.NotFound? && commits
      ensures !status.BadRequest?
      ensures !status.Done? ==> posts == old(posts) && outbox == old(outbox)
    {
      id := 0;
      var found := Find(slug);
      if found.None? {
        return NotFound, id;
      }
      id := found.value;
      var savedPosts, savedOutbox := posts, outbox;
      RecordingKeepsConsistent(posts, outbox, Event(PostDeleted, DeletePayload(found.value, slug)));
      posts := posts - {found.value};
      RecordEvent(PostDeleted, DeletePayload(found.value, slug));
      if !commits {
        posts, outbox := savedPosts, savedOutbox;
        return Failed, id;
      }
      status := Done;
    }
  }
}
