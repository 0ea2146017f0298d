/** One pass of the outbox relay: claim the oldest pending rows, publish them, mark what was acknowledged. */
module OutboxRelay {
  import opened Common

  /** What the broker does with one record of a batch. */
  datatype Fate = Lost | Unacknowledged | Acknowledged

  /** The unpublished rows that no other transaction holds, oldest first. */
  function PendingIds<E>(rows: seq<OutboxRow<E>>, locked: set<nat>): seq<nat> {
    if rows == [] then []
    else
      var last := |rows| - 1;
      PendingIds(rows[..last], locked) + (if !rows[last].published && last !in locked then [last] else [])
  }

  /** SELECT ... WHERE published_at IS NULL ORDER BY created_at LIMIT n FOR UPDATE SKIP LOCKED. */
  function Claimed<E>(rows: seq<OutboxRow<E>>, locked: set<nat>, limit: nat): seq<nat> {
    var pending := PendingIds(rows, locked);
    if |pending| <= limit then pending else pending[..limit]
  }

  function Marked<E>(rows: seq<OutboxRow<E>>, ids: seq<nat>): (r: seq<OutboxRow<E>>)
    ensures |r| == |rows|
    ensures forall k :: 0 <= k < |rows| ==>
              r[k].event == rows[k].event && r[k].published == (rows[k].published || k in ids)
  {
    seq(|rows|, k requires 0 <= k < |rows| => if k in ids then rows[k].(published := true) else rows[k])
  }

  function Appended(batch: seq<nat>, fate: nat -> Fate): seq<nat> {
    if batch == [] then []
    else
      var last := batch[|batch| - 1];
      Appended(batch[..|batch| - 1], fate) + (if fate(last).Lost? then [] else [last])
  }

  function Delivered(batch: seq<nat>, fate: nat -> Fate): seq<nat> {
    if batch == [] then []
    else
      var last := batch[|batch| - 1];
      Delivered(batch[..|batch| - 1], fate) + (if fate(last).Acknowledged? then [last] else [])
  }

  // ---- What a claim takes

  predicate Free<E>(rows: seq<OutboxRow<E>>, locked: set<nat>, k: nat) {
    k < |rows| && !rows[k].published && k !in locked
  }

  ghost predicate Increasing(ids: seq<nat>) {
    forall i, j :: 0 <= i < j < |ids| ==> ids[i] < ids[j]
  }

  lemma {:induction false} PendingIdsAreThePendingRows<E>(rows: seq<OutboxRow<E>>, locked: set<nat>)
    ensures Increasing(PendingIds(rows, locked))
    ensures forall k: nat :: k in PendingIds(rows, locked) <==> Free(rows, locked, k)
  {
    if rows != [] {
      var last := |rows| - 1;
      var earlier := rows[..last];
      PendingIdsAreThePendingRows(earlier, locked);
      assert forall k: nat ::
          Free(rows, locked, k) <==> Free(earlier, locked, k) || (k == last && Free(rows, locked, last));
      forall i | 0 <= i < |PendingIds(earlier, locked)| ensures PendingIds(earlier, locked)[i] < last {
        assert PendingIds(earlier, locked)[i] in PendingIds(earlier, locked);
      }
    }
  }

  /** Oldest first: the batch is increasing, and a free row is left out only when the batch is full of older ones. */
  lemma ClaimTakesTheOldest<E>(rows: seq<OutboxRow<E>>, locked: set<nat>, limit: nat)
    ensures var batch := Claimed(rows, locked, limit);
            && |batch| <= limit && Increasing(batch)
            && (forall k: nat :: k in batch ==> Free(rows, locked, k))
            && (forall k: nat :: Free(rows, locked, k) && k !in batch ==>
                  |batch| == limit && forall b :: b in batch ==> b < k)
  {
    PendingIdsAreThePendingRows(rows, locked);
    var ids, batch := PendingIds(rows, locked), Claimed(rows, locked, limit);
    forall k: nat | Free(rows, locked, k) && k !in batch
      ensures |batch| == limit && forall b :: b in batch ==> b < k
    {
      assert k in ids;
      var i :| 0 <= i < |ids| && ids[i] == k;
      assert forall m :: 0 <= m < |batch| ==> batch[m] == ids[m] && batch[m] in batch;
    }
  }

  lemma {:induction false} DeliveredRowsWereAppended(batch: seq<nat>, fate: nat -> Fate)
    requires Distinct(batch)
    ensures Distinct(Delivered(batch, fate))
    ensures forall k :: k in Delivered(batch, fate) <==> k in batch && fate(k).Acknowledged?
    ensures forall k :: k in Appended(batch, fate) <==> k in batch && !fate(k).Lost?
  {
    if batch != [] {
      var body := batch[..|batch| - 1];
      DeliveredRowsWereAppended(body, fate);
      assert batch == body + [batch[|batch| - 1]];
    }
  }

  /** The broker's log gets the rows that were not lost, in the order of the batch. */
  lemma {:induction false} AppendedInOrder(batch: seq<nat>, fate: nat -> Fate) returns (places: seq<nat>)
    ensures Picks(batch, Appended(batch, fate), places)
    ensures forall i: nat :: i in places <==> i < |batch| && fate(batch[i]) != Lost
  {
    if batch == [] {
      places := [];
    } else {
      var body, last := batch[..|batch| - 1], batch[|batch| - 1];
      assert batch == body + [last];
      var fewer := AppendedInOrder(body, fate);
      PickLast(body, Appended(body, fate), fewer, last);
      places := if fate(last).Lost? then fewer else fewer + [|body|];
      AppendedPlacesGrow(body, last, fate, fewer);
    }
  }

  lemma AppendedPlacesGrow(body: seq<nat>, last: nat, fate: nat -> Fate, places: seq<nat>)
    requires forall i: nat :: i in places <==> i < |body| && fate(body[i]) != Lost
    ensures var batch, more := body + [last], if fate(last).Lost? then places else places + [|body|];
            forall i: nat :: i in more <==> i < |batch| && fate(batch[i]) != Lost
  {
  }

  /** What is delivered is the acknowledged rows, in the order of the batch. */
  lemma {:induction false} DeliveredInOrder(batch: seq<nat>, fate: nat -> Fate) returns (places: seq<nat>)
    ensures Picks(batch, Delivered(batch, fate), places)
    ensures forall i: nat :: i in places <==> i < |batch| && fate(batch[i]) == Acknowledged
  {
    if batch == [] {
      places := [];
    } else {
      var body, last := batch[..|batch| - 1], batch[|batch| - 1];
      assert batch == body + [last];
      var fewer := DeliveredInOrder(body, fate);
      PickLast(body, Delivered(body, fate), fewer, last);
      places := if fate(last).Acknowledged? then fewer + [|body|] else fewer;
      DeliveredPlacesGrow(body, last, fate, fewer);
    }
  }

  lemma DeliveredPlacesGrow(body: seq<nat>, last: nat, fate: nat -> Fate, places: seq<nat>)
    requires forall i: nat :: i in places <==> i < |body| && fate(body[i]) == Acknowledged
    ensures var batch, more := body + [last], if fate(last).Acknowledged? then places + [|body|] else places;
            forall i: nat :: i in more <==> i < |batch| && fate(batch[i]) == Acknowledged
  {
  }

  // ---- How marking shrinks the pending rows

  function Without(ids: seq<nat>, gone: seq<nat>): seq<nat> {
    if ids == [] then []
    else
      var last := ids[|ids| - 1];
      Without(ids[..|ids| - 1], gone) + (if last in gone then [] else [last])
  }

  lemma {:induction false} WithoutSplits(a: seq<nat>, b: seq<nat>, gone: seq<nat>)
    ensures Without(a + b, gone) == Without(a, gone) + Without(b, gone)
  {
    if b == [] {
      assert a + b == a;
    } else {
      var c := b[..|b| - 1];
      WithoutSplits(a, c, gone);
      assert (a + b)[..|a + b| - 1] == a + c;
    }
  }

  lemma {:induction false} PendingAfterMarking<E>(rows: seq<OutboxRow<E>>, locked: set<nat>, ids: seq<nat>)
    ensures PendingIds(Marked(rows, ids), locked) == Without(PendingIds(rows, locked), ids)
  {
    if rows != [] {
      var last := |rows| - 1;
      PendingAfterMarking(rows[..last], locked, ids);
      assert Marked(rows, ids)[..last] == Marked(rows[..last], ids);
      var tail := if !rows[last].published && last !in locked then [last] else [];
      WithoutSplits(PendingIds(rows[..last], locked), tail, ids);
      assert |tail| == 1 ==> tail[..0] == [];
    }
  }

  lemma {:induction false} NothingGone(ids: seq<nat>, gone: seq<nat>)
    requires forall k :: 0 <= k < |ids| ==> ids[k] !in gone
    ensures Without(ids, gone) == ids
  {
    if ids != [] {
      NothingGone(ids[..|ids| - 1], gone);
    }
  }

  lemma {:induction false} EverythingGone(ids: seq<nat>, gone: seq<nat>)
    requires forall k :: 0 <= k < |ids| ==> ids[k] in gone
    ensures Without(ids, gone) == []
  {
    if ids != [] {
      EverythingGone(ids[..|ids| - 1], gone);
    }
  }

  lemma FrontGone(ids: seq<nat>, n: nat)
    requires Distinct(ids) && n <= |ids|
    ensures Without(ids, ids[..n]) == ids[n..]
  {
    var front, back := ids[..n], ids[n..];
    WithoutSplits(front, back, front);
    assert ids == front + back;
    EverythingGone(front, front);
    BackIsNew(ids, n);
    NothingGone(back, front);
  }

  lemma BackIsNew(ids: seq<nat>, n: nat)
    requires Distinct(ids) && n <= |ids|
    ensures forall k :: 0 <= k < |ids[n..]| ==> ids[n..][k] !in ids[..n]
  {
    forall k | n <= k < |ids| ensures ids[k] !in ids[..n] {
    }
  }

  ghost function ElementsOf(s: seq<nat>): set<nat> {
    set k | k in s
  }

  lemma {:induction false} DistinctSize(s: seq<nat>)
    requires Distinct(s)
    ensures |ElementsOf(s)| == |s|
  {
    if s != [] {
      var body, last := s[..|s| - 1], s[|s| - 1];
      DistinctSize(body);
      assert s == body + [last];
      assert ElementsOf(s) == ElementsOf(body) + {last};
    }
  }

  lemma {:induction false} WithoutIsDifference(ids: seq<nat>, gone: seq<nat>)
    requires Distinct(ids)
    ensures Distinct(Without(ids, gone))
    ensures ElementsOf(Without(ids, gone)) == ElementsOf(ids) - ElementsOf(gone)
  {
    if ids != [] {
      var body, last := ids[..|ids| - 1], ids[|ids| - 1];
      WithoutIsDifference(body, gone);
      assert ids == body + [last] && last !in ElementsOf(body);
      assert ElementsOf(ids) == ElementsOf(body) + {last};
      var kept := if last in gone then [] else [last];
      assert ElementsOf(Without(ids, gone)) == ElementsOf(Without(body, gone)) + ElementsOf(kept);
      assert forall k :: 0 <= k < |Without(body, gone)| ==> Without(body, gone)[k] in ElementsOf(Without(body, gone));
    }
  }

  /** Each marked pending row leaves the pending list, and nothing else does. */
  lemma EachMarkRemovesOne(ids: seq<nat>, gone: seq<nat>)
    requires Distinct(ids) && Distinct(gone) && forall k :: k in gone ==> k in ids
    ensures |Without(ids, gone)| == |ids| - |gone|
  {
    WithoutIsDifference(ids, gone);
    DistinctSize(ids);
    DistinctSize(gone);
    DistinctSize(Without(ids, gone));
    assert ElementsOf(gone) <= ElementsOf(ids);
  }

  /** A committed pass lowers the pending count by exactly the number of rows delivered. */
  lemma PassLowersPendingByDelivered<E>(rows: seq<OutboxRow<E>>, locked: set<nat>, limit: nat, fate: nat -> Fate)
    ensures var delivered := Delivered(Claimed(rows, locked, limit), fate);
            |PendingIds(Marked(rows, delivered), {})| == |PendingIds(rows, {})| - |delivered|
  {
    var batch := Claimed(rows, locked, limit);
    var delivered := Delivered(batch, fate);
    ClaimTakesTheOldest(rows, locked, limit);
    DeliveredRowsWereAppended(batch, fate);
    PendingIdsAreThePendingRows(rows, {});
    PendingAfterMarking(rows, {}, delivered);
    EachMarkRemovesOne(PendingIds(rows, {}), delivered);
  }

  // ---- Draining

  /** `passes` passes of one relay against a broker that acknowledges everything. */
  function Drained<E>(rows: seq<OutboxRow<E>>, log: seq<nat>, limit: nat, passes: nat): (seq<OutboxRow<E>>, seq<nat>) {
    if passes == 0 then (rows, log)
    else
      var (r, l) := Drained(rows, log, limit, passes - 1);
      var batch := Claimed(r, {}, limit);
      (Marked(r, batch), l + batch)
  }

  function Least(a: nat, b: nat): nat {
    if a <= b then a else b
  }

  /** How many of n pending rows a number of full batches covers. */
  function Covered(passes: nat, limit: nat, n: nat): (c: nat)
    ensures c <= n
  {
    if passes == 0 then 0
    else
      var before := Covered(passes - 1, limit, n);
      before + Least(limit, n - before)
  }

  lemma {:induction false} CoveredInClosedForm(passes: nat, limit: nat, n: nat)
    ensures Covered(passes, limit, n) == Least(passes * limit, n)
  {
    if passes != 0 {
      CoveredInClosedForm(passes - 1, limit, n);
      assert passes * limit == (passes - 1) * limit + limit;
    }
  }

  /** The rows and the log are as left by publishing the first `done` of `todo`. */
  ghost predicate DrainedTo<E>(rows: seq<OutboxRow<E>>, log: seq<nat>, todo: seq<nat>, start: seq<nat>, done: nat) {
    done <= |todo| && PendingIds(rows, {}) == todo[done..] && log == start + todo[..done]
  }

  lemma {:induction false} DrainProgress<E>(
      rows: seq<OutboxRow<E>>, log: seq<nat>, limit: nat, passes: nat, todo: seq<nat>)
    requires todo == PendingIds(rows, {})
    ensures DrainedTo(Drained(rows, log, limit, passes).0, Drained(rows, log, limit, passes).1,
                      todo, log, Covered(passes, limit, |todo|))
  {
    if passes == 0 {
      NothingDrained(rows, log, todo);
    } else {
      DrainProgress(rows, log, limit, passes - 1, todo);
      OneMoreDrained(rows, log, limit, passes, todo);
    }
  }

  lemma NothingDrained<E>(rows: seq<OutboxRow<E>>, log: seq<nat>, todo: seq<nat>)
    requires todo == PendingIds(rows, {})
    ensures DrainedTo(rows, log, todo, log, 0)
  {
    assert todo[0..] == todo && todo[..0] == [] && log + [] == log;
  }

  lemma OneMoreDrained<E>(rows: seq<OutboxRow<E>>, log: seq<nat>, limit: nat, passes: nat, todo: seq<nat>)
    requires 0 < passes
    requires DrainedTo(Drained(rows, log, limit, passes - 1).0, Drained(rows, log, limit, passes - 1).1,
                       todo, log, Covered(passes - 1, limit, |todo|))
    ensures DrainedTo(Drained(rows, log, limit, passes).0, Drained(rows, log, limit, passes).1,
                      todo, log, Covered(passes, limit, |todo|))
  {
    var (r, l) := Drained(rows, log, limit, passes - 1);
    DrainStep(r, l, limit, todo, log, Covered(passes - 1, limit, |todo|));
  }

  lemma DrainStep<E>(rows: seq<OutboxRow<E>>, log: seq<nat>, limit: nat, todo: seq<nat>, start: seq<nat>, before: nat)
    requires DrainedTo(rows, log, todo, start, before)
    ensures var batch := Claimed(rows, {}, limit);
            DrainedTo(Marked(rows, batch), log + batch, todo, start, before + Least(limit, |todo| - before))
  {
    OneDrainingPass(rows, limit);
    TakeTwice(start, todo, before, Least(limit, |todo| - before));
  }

  lemma TakeTwice(log: seq<nat>, todo: seq<nat>, before: nat, taken: nat)
    requires before + taken <= |todo|
    ensures todo[before..][taken..] == todo[before + taken..]
    ensures log + todo[..before] + todo[before..][..taken] == log + todo[..before + taken]
  {
    assert todo[..before] + todo[before..][..taken] == todo[..before + taken];
  }

  lemma OneDrainingPass<E>(rows: seq<OutboxRow<E>>, limit: nat)
    ensures var todo := PendingIds(rows, {});
            var taken := Least(limit, |todo|);
            Claimed(rows, {}, limit) == todo[..taken] && PendingIds(Marked(rows, todo[..taken]), {}) == todo[taken..]
  {
    var todo := PendingIds(rows, {});
    var taken := Least(limit, |todo|);
    assert todo[..|todo|] == todo;
    PendingIdsAreThePendingRows(rows, {});
    PendingAfterMarking(rows, {}, todo[..taken]);
    FrontGone(todo, taken);
  }

  /**
   With n rows pending and a positive batch size B, ceil(n / B) passes publish them all, in outbox
   order, each exactly once, and fewer passes do not.
   */
  lemma BacklogDrainsInCeilPasses<E>(rows: seq<OutboxRow<E>>, log: seq<nat>, limit: nat, passes: nat)
    requires 0 < limit
    ensures var n := |PendingIds(rows, {})|;
            && (Ceiling(n, limit) <= passes <==> PendingIds(Drained(rows, log, limit, passes).0, {}) == [])
            && (Ceiling(n, limit) <= passes ==> Drained(rows, log, limit, passes).1 == log + PendingIds(rows, {}))
  {
    var todo := PendingIds(rows, {});
    DrainProgress(rows, log, limit, passes, todo);
    CeilingIsEnough(|todo|, limit, passes);
    DrainedCompletely(Drained(rows, log, limit, passes).0, Drained(rows, log, limit, passes).1, todo, log,
                      Covered(passes, limit, |todo|));
  }

  lemma DrainedCompletely<E>(rows: seq<OutboxRow<E>>, log: seq<nat>, todo: seq<nat>, start: seq<nat>, done: nat)
    requires DrainedTo(rows, log, todo, start, done)
    ensures PendingIds(rows, {}) == [] <==> done == |todo|
    ensures done == |todo| ==> log == start + todo
  {
    assert todo[..|todo|] == todo;
    assert |todo[done..]| == |todo| - done;
  }

  function Ceiling(n: nat, limit: nat): nat
    requires 0 < limit
  {
    (n + limit - 1) / limit
  }

  lemma CeilingIsEnough(n: nat, limit: nat, passes: nat)
    requires 0 < limit
    ensures Ceiling(n, limit) <= passes <==> Covered(passes, limit, n) == n
  {
    var q := Ceiling(n, limit);
    CoveredInClosedForm(passes, limit, n);
    DivisionBounds(n + limit - 1, limit);
    if q <= passes {
      Grows(q, passes, limit);
    } else {
      Grows(passes + 1, q, limit);
      assert (passes + 1) * limit == passes * limit + limit;
    }
  }

  lemma DivisionBounds(a: nat, b: nat)
    requires 0 < b
    ensures a / b * b <= a < a / b * b + b
  {
  }

  lemma Grows(a: nat, b: nat, c: nat)
    requires a <= b
    ensures a * c <= b * c
  {
  }

  // ---- The relay process

  class Relay<E> {
    /** The outbox table and the broker's log of row ids, as this relay sees and changes them. */
    var rows: seq<OutboxRow<E>>
    var log: seq<nat>

    /** Sends every row, waits for the broker, and reports the rows it acknowledged. */
    method PublishBatch(batch: seq<nat>, fate: nat -> Fate) returns (delivered: seq<nat>)
      modifies this`log
      ensures log == old(log) + Appended(batch, fate)
      ensures delivered == Delivered(batch, fate)
    {
      var futures: seq<(nat, Fate)> := [];
      for k := 0 to |batch|
        invariant |futures| == k && forall i :: 0 <= i < k ==> futures[i] == (batch[i], fate(batch[i]))
      {
        futures := futures + [(batch[k], fate(batch[k]))];
      }
      Flush(batch, futures, fate);
      delivered := [];
      for k := 0 to |futures|
        invariant delivered == Delivered(batch[..k], fate)
      {
        assert batch[..k + 1][..k] == batch[..k];
        if futures[k].1.Acknowledged? {
          delivered := delivered + [futures[k].0];
        }
      }
      assert batch[..|batch|] == batch;
    }

    /** The broker takes the queued records in the order they were sent. */
    method Flush(ghost batch: seq<nat>, futures: seq<(nat, Fate)>, ghost fate: nat -> Fate)
      requires |futures| == |batch| && forall i :: 0 <= i < |batch| ==> futures[i] == (batch[i], fate(batch[i]))
      modifies this`log
      ensures log == old(log) + Appended(batch, fate)
    {
      for k := 0 to |futures|
        invariant log == old(log) + Appended(batch[..k], fate)
      {
        assert batch[..k + 1][..k] == batch[..k];
        if !futures[k].1.Lost? {
          log := log + [futures[k].0];
        }
      }
      assert batch[..|batch|] == batch;
    }

    method MarkPublished(ids: seq<nat>)
      requires forall k :: 0 <= k < |ids| ==> ids[k] < |rows|
      modifies this`rows
      ensures rows == Marked(old(rows), ids)
    {
      for k := 0 to |ids|
        invariant |rows| == |old(rows)|
        invariant rows == Marked(old(rows), ids[..k])
      {
        assert ids[..k + 1] == ids[..k] + [ids[k]];
        rows := rows[ids[k] := rows[ids[k]].(published := true)];
      }
      assert ids[..|ids|] == ids;
    }

    /**
     One pass. `locked` are the rows other relays hold; `commits` is false when the transaction
     fails after publishing, which leaves the records in the broker and the rows pending.
     */
    method RunOnce(limit: nat, locked: set<nat>, fate: nat -> Fate, commits: bool) returns (published: nat)
      modifies this
      ensures var batch := Claimed(old(rows), locked, limit);
              && log == old(log) + Appended(batch, fate)
              && rows == (if commits then Marked(old(rows), Delivered(batch, fate)) else old(rows))
              && published == (if commits then |Delivered(batch, fate)| else 0)
      ensures |PendingIds(rows, {})| == |PendingIds(old(rows), {})| - published
    {
      var batch := Claimed(rows, locked, limit);
      ClaimTakesTheOldest(rows, locked, limit);
      DeliveredRowsWereAppended(batch, fate);
      PassLowersPendingByDelivered(rows, locked, limit, fate);
      assert Marked(rows, []) == rows;
      published := 0;
      if batch != [] {
        var delivered := PublishBatch(batch, fate);
        var saved := rows;
        forall k | 0 <= k < |delivered| ensures delivered[k] < |rows| {
          assert delivered[k] in delivered;
        }
        if delivered != [] {
          MarkPublished(delivered);
        }
        if commits {
          published := |delivered|;
        } else {
          rows := saved;
        }
      }
    }
  }
}
