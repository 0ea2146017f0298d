/** Small value types and sequence facts shared by every other module. */
module Common {

  datatype Option<+T> = None | Some(value: T) {
    function GetOr(default: T): T {
      if Some? then value else default
    }
  }

  datatype Result<+T, +E> = Success(value: T) | Failure(error: E)

  /** An outbox row; its id is its place in the outbox, which is in commit order. */
  datatype OutboxRow<+E> = OutboxRow(event: E, published: bool)

  /** No element occurs twice. */
  ghost predicate Distinct<T>(s: seq<T>) {
    forall i, j :: 0 <= i < j < |s| ==> s[i] != s[j]
  }

  /** `a` occurs in `s`, and does so before any occurrence of `b`. */
  ghost predicate Before<T>(s: seq<T>, a: T, b: T) {
    exists k :: 0 <= k < |s| && s[k] == a && b !in s[..k + 1]
  }

  /** The numbers below `n`, in order: the outbox read front to back. */
  function UpTo(n: nat): (s: seq<nat>)
    ensures |s| == n && forall i :: 0 <= i < n ==> s[i] == i
  {
    seq(n, i => i)
  }

  lemma UpToInOrder(n: nat)
    ensures forall e: nat :: e in UpTo(n) <==> e < n
    ensures forall a: nat, b: nat :: a < b < n ==> Before(UpTo(n), a, b)
  {
    var all := UpTo(n);
    forall e: nat | e < n ensures e in all {
      assert all[e] == e;
    }
    forall a: nat, b: nat | a < b < n ensures Before(all, a, b) {
      assert all[a] == a && b !in all[..a + 1];
    }
  }

  /** Appending at the end cannot change which of two elements came first. */
  lemma BeforeSurvivesGrowth<T>(s: seq<T>, grown: seq<T>, a: T, b: T)
    requires Before(s, a, b) && s <= grown
    ensures Before(grown, a, b)
  {
    var k :| 0 <= k < |s| && s[k] == a && b !in s[..k + 1];
    assert grown[..k + 1] == s[..k + 1];
  }

  /** An element appended for the first time comes after everything already there. */
  lemma AppendedComesAfter<T>(s: seq<T>, a: T, b: T)
    requires a in s && b !in s
    ensures Before(s + [b], a, b)
  {
    var k :| 0 <= k < |s| && s[k] == a;
    assert (s + [b])[..k + 1] == s[..k + 1];
  }

  /** Once `b` is present, growing the sequence decides nothing new about what preceded it. */
  lemma BeforeWasDecided<T>(s: seq<T>, grown: seq<T>, a: T, b: T)
    requires s <= grown && b in s && Before(grown, a, b)
    ensures Before(s, a, b)
  {
    var k :| 0 <= k < |grown| && grown[k] == a && b !in grown[..k + 1];
    var j :| 0 <= j < |s| && s[j] == b;
    assert grown[j] == b;
    assert forall i :: 0 <= i < k + 1 ==> grown[..k + 1][i] == grown[i];
    assert k < j;
    assert grown[..k + 1] == s[..k + 1];
  }

  // ---- Picking elements out of a sequence

  /** `r` is what stands in `s` at the given places, in the order of `s`. */
  ghost predicate Picks<T>(s: seq<T>, r: seq<T>, places: seq<nat>) {
    && |places| == |r|
    && (forall i, j :: 0 <= i < j < |places| ==> places[i] < places[j])
    && (forall k :: 0 <= k < |r| ==> places[k] < |s| && r[k] == s[places[k]])
  }

  /** Keeping the last element as well. */
  lemma PickLast<T>(s: seq<T>, r: seq<T>, places: seq<nat>, x: T)
    requires Picks(s, r, places)
    ensures Picks(s + [x], r, places) && |s| !in places
    ensures Picks(s + [x], r + [x], places + [|s|])
  {
  }

  ghost predicate SameMembers(a: seq<nat>, b: seq<nat>) {
    forall e: nat :: e in a <==> e in b
  }

  /** Two selections of the same places are the same. */
  lemma {:induction false} SamePlacesSamePicks<T>(s: seq<T>, r: seq<T>, places: seq<nat>, r2: seq<T>, places2: seq<nat>)
    requires Picks(s, r, places) && Picks(s, r2, places2) && SameMembers(places, places2)
    ensures r == r2
  {
    SameIncreasing(places, places2);
    assert |r| == |r2| && forall k :: 0 <= k < |r| ==> r[k] == r2[k];
  }

  lemma {:induction false} SameIncreasing(a: seq<nat>, b: seq<nat>)
    requires forall i, j :: 0 <= i < j < |a| ==> a[i] < a[j]
    requires forall i, j :: 0 <= i < j < |b| ==> b[i] < b[j]
    requires SameMembers(a, b)
    ensures a == b
  {
    MemberMeansNonEmpty(a, b);
    MemberMeansNonEmpty(b, a);
    if a != [] {
      SameLastPlace(a, b);
      var a', b' := a[..|a| - 1], b[..|b| - 1];
      SameIncreasing(a', b');
      assert a == a' + [a[|a| - 1]] && b == b' + [b[|b| - 1]];
    }
  }

  lemma SameLastPlace(a: seq<nat>, b: seq<nat>)
    requires a != [] && forall i, j :: 0 <= i < j < |a| ==> a[i] < a[j]
    requires b != [] && forall i, j :: 0 <= i < j < |b| ==> b[i] < b[j]
    requires SameMembers(a, b)
    ensures a[|a| - 1] == b[|b| - 1] && SameMembers(a[..|a| - 1], b[..|b| - 1])
  {
    LastPlaceIsLargest(a);
    LastPlaceIsLargest(b);
    var m, n := a[|a| - 1], b[|b| - 1];
    assert m in b && n in a;
    assert m <= n && n <= m;
    var a', b' := a[..|a| - 1], b[..|b| - 1];
    forall e: nat ensures e in a' <==> e in b' {
      assert e in a' <==> e in a && e != m;
      assert e in b' <==> e in b && e != n;
    }
  }

  lemma MemberMeansNonEmpty(s: seq<nat>, t: seq<nat>)
    requires forall e: nat :: e in s ==> e in t
    ensures s != [] ==> t != []
  {
    if s != [] {
      assert s[0] in t;
    }
  }

  lemma LastPlaceIsLargest(places: seq<nat>)
    requires places != [] && forall i, j :: 0 <= i < j < |places| ==> places[i] < places[j]
    ensures forall i: nat :: i in places ==> i <= places[|places| - 1]
    ensures forall i: nat :: i in places[..|places| - 1] <==> i in places && i != places[|places| - 1]
  {
    var body, last := places[..|places| - 1], places[|places| - 1];
    assert places == body + [last];
    assert forall k :: 0 <= k < |body| ==> body[k] == places[k] && body[k] < last;
  }

  // ---- Maps

  lemma RemovingAbsentKey<K, V>(m: map<K, V>, k: K)
    requires k !in m
    ensures m - {k} == m
  {
  }

  lemma SameMap<K, V>(m: map<K, V>, n: map<K, V>)
    requires m.Keys == n.Keys && forall k :: k in m.Keys ==> m[k] == n[k]
    ensures m == n
  {
  }

  // ---- Listing a set

  /** The listing names each of the keys once, and nothing else. */
  ghost predicate Lists<T>(ids: seq<T>, keys: set<T>) {
    && Distinct(ids)
    && (forall k :: 0 <= k < |ids| ==> ids[k] in keys)
    && (forall j :: j in keys ==> exists k :: 0 <= k < |ids| && ids[k] == j)
  }

  /** Lists a set in some order. */
  method ListOf<T(==)>(keys: set<T>) returns (ids: seq<T>)
    ensures Lists(ids, keys)
  {
    ids := [];
    var rest := keys;
    while rest != {}
      invariant rest <= keys && Lists(ids, keys - rest)
      decreases |rest|
    {
      var j :| j in rest;
      ListOneMore(ids, keys - rest, j);
      assert keys - rest + {j} == keys - (rest - {j});
      ids := ids + [j];
      rest := rest - {j};
    }
    assert keys - rest == keys;
  }

  lemma ListOneMore<T>(ids: seq<T>, keys: set<T>, j: T)
    requires Lists(ids, keys) && j !in keys
    ensures Lists(ids + [j], keys + {j})
  {
    forall i | i in keys + {j} ensures exists k :: 0 <= k < |ids + [j]| && (ids + [j])[k] == i {
      if i == j {
        assert (ids + [j])[|ids|] == i;
      } else {
        var k :| 0 <= k < |ids| && ids[k] == i;
        assert (ids + [j])[k] == i;
      }
    }
  }
}
