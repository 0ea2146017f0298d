/**
 Title similarity: the cosine of two 2-gram count profiles.

 A score is kept exact, as the dot product together with the product of the two squared
 norms; the number it stands for is dot / sqrt(normSquared).
 */
module Similarity {
  import opened Common
  import opened TitleText

  /** Distinct 2-grams in order of first occurrence, and how often each occurs. */
  datatype Profile = Profile(keys: seq<string>, counts: multiset<string>)

  datatype Score = Score(dot: nat, normSquared: nat)

  function Grams(s: string): seq<string> {
    if |s| < 2 then [] else [s[..2]] + Grams(s[1..])
  }

  function FirstOccurrences(grams: seq<string>): seq<string> {
    if grams == [] then []
    else
      var earlier := FirstOccurrences(grams[..|grams| - 1]);
      var last := grams[|grams| - 1];
      if last in earlier then earlier else earlier + [last]
  }

  function ProfileOf(s: string): Profile {
    var grams := Grams(s);
    Profile(FirstOccurrences(grams), multiset(grams))
  }

  /** Sum over `keys` of the product of the two counts; a missing key counts zero. */
  function SumOver(keys: seq<string>, p: multiset<string>, q: multiset<string>): nat {
    if keys == [] then 0 else p[keys[0]] * q[keys[0]] + SumOver(keys[1..], p, q)
  }

  /** The sum runs over the keys of the smaller profile. */
  function DotProduct(p: Profile, q: Profile): nat {
    if |p.keys| < |q.keys| then SumOver(p.keys, p.counts, q.counts) else SumOver(q.keys, p.counts, q.counts)
  }

  function SquaredNorm(p: Profile): nat {
    SumOver(p.keys, p.counts, p.counts)
  }

  const NO_SIMILARITY := Score(0, 1)

  function Cosine(p: Profile, q: Profile): Score {
    Score(DotProduct(p, q), Product(SquaredNorm(p), SquaredNorm(q)))
  }

  function Product(a: nat, b: nat): nat {
    a * b
  }

  /** The score of two cleaned titles; one shorter than two characters has an empty profile. */
  function CosineOfClean(left: string, right: string): Score {
    if |left| < 2 || |right| < 2 then NO_SIMILARITY else Cosine(ProfileOf(left), ProfileOf(right))
  }

  function Similar(left: string, right: string): Score {
    CosineOfClean(Clean(left), Clean(right))
  }

  // ---- What is counted: positions in the two titles

  /** These two characters stand at place i. */
  predicate StandsAt(s: string, i: nat, g: string) {
    i + 1 < |s| && |g| == 2 && s[i] == g[0] && s[i + 1] == g[1]
  }

  /** The same two characters stand at place i of one text and place j of the other. */
  predicate Match(l: string, i: nat, r: string, j: nat) {
    i + 1 < |l| && j + 1 < |r| && l[i] == r[j] && l[i + 1] == r[j + 1]
  }

  /** The places in a text where this 2-gram stands. */
  ghost function PlacesOf(s: string, g: string): set<nat> {
    set i: nat | i < |s| && StandsAt(s, i, g)
  }

  /** The pairs of a place in each text where the same two characters stand. */
  ghost function MatchingPairs(l: string, r: string): set<(nat, nat)> {
    set i: nat, j: nat | i < |l| && j < |r| && Match(l, i, r, j) :: (i, j)
  }

  /** There is a 2-gram at every place but the last, overlaps included. */
  lemma {:induction false} GramsStandEverywhere(s: string)
    ensures |Grams(s)| == if |s| < 2 then 0 else |s| - 1
    ensures forall i :: 0 <= i < |Grams(s)| ==> Grams(s)[i] == [s[i], s[i + 1]]
  {
    if |s| >= 2 {
      GramsStandEverywhere(s[1..]);
      assert s[..2] == [s[0], s[1]];
      assert forall i :: 0 < i < |Grams(s)| ==> Grams(s)[i] == Grams(s[1..])[i - 1];
    }
  }

  lemma GramAt(s: string, i: nat, g: string)
    requires i < |Grams(s)|
    ensures i + 1 < |s| && Grams(s)[i] == [s[i], s[i + 1]]
    ensures Grams(s)[i] == g <==> StandsAt(s, i, g)
  {
    GramsStandEverywhere(s);
  }

  /** The places below n at which a list holds an element. */
  ghost function PlacesBelow(grams: seq<string>, n: nat, g: string): set<nat> {
    set i: nat | i < n && i < |grams| && grams[i] == g
  }

  lemma {:induction false} CountIsPlacesBelow(grams: seq<string>, n: nat, g: string)
    requires n <= |grams|
    ensures multiset(grams[..n])[g] == |PlacesBelow(grams, n, g)|
  {
    if n > 0 {
      CountIsPlacesBelow(grams, n - 1, g);
      assert grams[..n] == grams[..n - 1] + [grams[n - 1]];
      var fewer := PlacesBelow(grams, n - 1, g);
      assert PlacesBelow(grams, n, g) == if grams[n - 1] == g then fewer + {n - 1} else fewer;
    } else {
      assert PlacesBelow(grams, 0, g) == {};
    }
  }

  /** A profile counts, for each 2-gram, the places where it stands; together as many as the text has places. */
  lemma ProfileCountsPlaces(s: string, g: string)
    ensures ProfileOf(s).counts[g] == |PlacesOf(s, g)|
    ensures |ProfileOf(s).counts| == if |s| < 2 then 0 else |s| - 1
  {
    var grams := Grams(s);
    GramsStandEverywhere(s);
    CountIsPlacesBelow(grams, |grams|, g);
    assert grams[..|grams|] == grams;
    PlacesAgree(s, g);
  }

  lemma PlacesAgree(s: string, g: string)
    ensures PlacesBelow(Grams(s), |Grams(s)|, g) == PlacesOf(s, g)
  {
    GramsStandEverywhere(s);
    forall i: nat ensures i in PlacesBelow(Grams(s), |Grams(s)|, g) <==> i in PlacesOf(s, g) {
      if i < |Grams(s)| {
        GramAt(s, i, g);
      }
    }
  }

  // ---- The dot product counts matching pairs

  /** Counting with multiplicity along the first list instead of over its distinct keys. */
  function SumAlong(grams: seq<string>, q: multiset<string>): nat {
    if grams == [] then 0 else SumAlong(grams[..|grams| - 1], q) + q[grams[|grams| - 1]]
  }

  lemma {:induction false} OneMoreOfKey(keys: seq<string>, p: multiset<string>, x: string, q: multiset<string>)
    requires Distinct(keys)
    ensures SumOver(keys, p + multiset{x}, q) == SumOver(keys, p, q) + if x in keys then q[x] else 0
  {
    if keys != [] {
      OneMoreOfKey(keys[1..], p, x, q);
      var head := keys[0];
      assert head !in keys[1..];
      if head == x {
        assert (p + multiset{x})[head] == p[head] + 1;
        assert (p[head] + 1) * q[head] == p[head] * q[head] + q[head];
      } else {
        assert (p + multiset{x})[head] == p[head];
      }
    }
  }

  lemma {:induction false} SumOverSplits(a: seq<string>, b: seq<string>, p: multiset<string>, q: multiset<string>)
    ensures SumOver(a + b, p, q) == SumOver(a, p, q) + SumOver(b, p, q)
  {
    if a == [] {
      assert a + b == b;
    } else {
      assert (a + b)[1..] == a[1..] + b;
      SumOverSplits(a[1..], b, p, q);
    }
  }

  lemma {:induction false} SumOverKeysIsSumAlong(grams: seq<string>, q: multiset<string>)
    ensures SumOver(FirstOccurrences(grams), multiset(grams), q) == SumAlong(grams, q)
  {
    if grams != [] {
      var body, x := grams[..|grams| - 1], grams[|grams| - 1];
      var keys, p := FirstOccurrences(body), multiset(body);
      SumOverKeysIsSumAlong(body, q);
      FirstOccurrencesAreTheGrams(body);
      assert grams == body + [x] && multiset(grams) == p + multiset{x};
      OneMoreOfKey(keys, p, x, q);
      if x !in keys {
        assert x !in p;
        SumOverSplits(keys, [x], p + multiset{x}, q);
        assert [x][1..] == [];
        assert (p + multiset{x})[x] == 1;
      }
    }
  }

  ghost function PairsBelow(l: string, r: string, n: nat): set<(nat, nat)> {
    set i: nat, j: nat | i < n && i < |l| && j < |r| && Match(l, i, r, j) :: (i, j)
  }

  ghost function PairedWith(i: nat, places: set<nat>): set<(nat, nat)> {
    set j | j in places :: (i, j)
  }

  lemma {:induction false} PairedSize(i: nat, places: set<nat>)
    ensures |PairedWith(i, places)| == |places|
    decreases |places|
  {
    if places == {} {
      assert PairedWith(i, places) == {};
    } else {
      var j :| j in places;
      PairedSize(i, places - {j});
      assert PairedWith(i, places) == PairedWith(i, places - {j}) + {(i, j)};
    }
  }

  lemma OneMorePlacePaired(l: string, r: string, n: nat)
    requires n + 1 < |l|
    ensures PairsBelow(l, r, n + 1) == PairsBelow(l, r, n) + PairedWith(n, PlacesOf(r, [l[n], l[n + 1]]))
    ensures PairsBelow(l, r, n) !! PairedWith(n, PlacesOf(r, [l[n], l[n + 1]]))
  {
    var g := [l[n], l[n + 1]];
    assert forall j: nat :: Match(l, n, r, j) <==> StandsAt(r, j, g);
  }

  lemma {:induction false} SumAlongCountsPairs(l: string, r: string, n: nat)
    requires n <= |Grams(l)|
    ensures SumAlong(Grams(l)[..n], ProfileOf(r).counts) == |PairsBelow(l, r, n)|
  {
    var grams := Grams(l);
    if n == 0 {
      assert PairsBelow(l, r, 0) == {};
    } else {
      SumAlongCountsPairs(l, r, n - 1);
      OneMoreSummed(l, r, grams[..n], n);
    }
  }

  lemma OneMoreSummed(l: string, r: string, taken: seq<string>, n: nat)
    requires 0 < n <= |Grams(l)| && taken == Grams(l)[..n]
    requires SumAlong(Grams(l)[..n - 1], ProfileOf(r).counts) == |PairsBelow(l, r, n - 1)|
    ensures SumAlong(taken, ProfileOf(r).counts) == |PairsBelow(l, r, n)|
  {
    GramsStandEverywhere(l);
    var g := [l[n - 1], l[n]];
    assert taken[..n - 1] == Grams(l)[..n - 1] && taken[n - 1] == g;
    ProfileCountsPlaces(r, g);
    PairedSize(n - 1, PlacesOf(r, g));
    OneMorePlacePaired(l, r, n - 1);
  }

  lemma DotProductCountsPairs(l: string, r: string)
    ensures DotProduct(ProfileOf(l), ProfileOf(r)) == |MatchingPairs(l, r)|
  {
    var grams := Grams(l);
    ProfilesAreWellFormed(l);
    ProfilesAreWellFormed(r);
    DotProductOverEither(ProfileOf(l), ProfileOf(r));
    SumOverKeysIsSumAlong(grams, ProfileOf(r).counts);
    SumAlongCountsPairs(l, r, |grams|);
    assert grams[..|grams|] == grams;
    AllPairsAreBelow(l, r);
  }

  lemma AllPairsAreBelow(l: string, r: string)
    ensures PairsBelow(l, r, |Grams(l)|) == MatchingPairs(l, r)
  {
    GramsStandEverywhere(l);
    forall i: nat, j: nat ensures (i, j) in PairsBelow(l, r, |Grams(l)|) <==> (i, j) in MatchingPairs(l, r) {
    }
  }

  /**
   The score, in terms of the two clean titles alone: the matching pairs between them, over the square
   root of the matching pairs of each with itself. A title of one character or none scores zero.
   */
  lemma ScoreCountsMatchingPairs(left: string, right: string)
    ensures Similar(left, right) == PairScore(Clean(left), Clean(right))
  {
    CosineCountsPairs(Clean(left), Clean(right));
  }

  ghost function PairScore(l: string, r: string): Score {
    if |l| < 2 || |r| < 2 then Score(0, 1)
    else Score(|MatchingPairs(l, r)|, |MatchingPairs(l, l)| * |MatchingPairs(r, r)|)
  }

  lemma CosineCountsPairs(l: string, r: string)
    ensures CosineOfClean(l, r) == PairScore(l, r)
  {
    DotProductCountsPairs(l, r);
    NormCountsPairs(l);
    NormCountsPairs(r);
  }

  lemma NormCountsPairs(s: string)
    ensures SquaredNorm(ProfileOf(s)) == |MatchingPairs(s, s)|
  {
    DotProductCountsPairs(s, s);
  }

  /** Repeated 2-grams count with their multiplicity: three of one against two of it. */
  lemma RepeatedGramsMultiply()
    ensures CosineOfClean("aaaa", "aaab") == Score(6, 45)
  {
    assert "aaaa" == ['a', 'a', 'a', 'a'] && "aaab" == ['a', 'a', 'a', 'b'];
    ProfileOfFour('a', 'a', 'a', 'a');
    ProfileOfFour('a', 'a', 'a', 'b');
    ScoreOfTwoKeys(ProfileOf("aaaa"), ProfileOf("aaab"), "aa", "ab");
  }

  lemma ProfileOfFour(a: char, b: char, c: char, d: char)
    ensures ProfileOf([a, b, c, d])
         == Profile(FirstOccurrences([[a, b], [b, c], [c, d]]), multiset{[a, b], [b, c], [c, d]})
    ensures a == b == c ==> ProfileOf([a, b, c, d]).keys == if d == c then [[a, b]] else [[a, b], [c, d]]
  {
    FourCharacters(a, b, c, d);
    FirstOfThree([a, b], [b, c], [c, d]);
    assert [c, d][1] == d && [a, b][1] == b;
  }

  lemma ScoreOfTwoKeys(p: Profile, q: Profile, a: string, b: string)
    requires p == Profile([a], multiset{a, a, a}) && q == Profile([a, b], multiset{a, a, b}) && a != b
    ensures Cosine(p, q) == Score(6, 45)
  {
    SumOfOneOrTwo(a, b, p.counts, q.counts);
    SumOfOneOrTwo(a, b, p.counts, p.counts);
    SumOfOneOrTwo(a, b, q.counts, q.counts);
  }

  lemma FourCharacters(a: char, b: char, c: char, d: char)
    ensures Grams([a, b, c, d]) == [[a, b], [b, c], [c, d]]
  {
    var s := [a, b, c, d];
    GramsStandEverywhere(s);
    var g := Grams(s);
    assert |g| == 3 && g[0] == [s[0], s[1]] && g[1] == [s[1], s[2]] && g[2] == [s[2], s[3]];
  }

  lemma SumOfOneOrTwo(a: string, b: string, p: multiset<string>, q: multiset<string>)
    ensures SumOver([a], p, q) == p[a] * q[a]
    ensures SumOver([a, b], p, q) == p[a] * q[a] + p[b] * q[b]
  {
    assert [a][1..] == [] && [a, b][1..] == [b] && [b][1..] == [];
    assert SumOver([b], p, q) == p[b] * q[b];
  }

  lemma FirstOfThree(a: string, b: string, c: string)
    ensures var first := if b == a then [a] else [a, b];
            FirstOccurrences([a, b, c]) == if c in first then first else first + [c]
  {
    assert [a, b, c][..2] == [a, b] && [a, b][..1] == [a] && [a][..0] == [];
    assert FirstOccurrences([a]) == [a];
    assert FirstOccurrences([a, b]) == if b == a then [a] else [a, b];
  }

  // ---- Profiles

  /** The key list of a profile is duplicate free and lists exactly the grams counted. */
  ghost predicate WellFormed(p: Profile) {
    Distinct(p.keys) && forall g :: g in p.keys <==> g in p.counts
  }

  lemma {:induction false} FirstOccurrencesAreTheGrams(grams: seq<string>)
    ensures Distinct(FirstOccurrences(grams))
    ensures forall g :: g in FirstOccurrences(grams) <==> g in grams
  {
    if grams != [] {
      var body := grams[..|grams| - 1];
      FirstOccurrencesAreTheGrams(body);
      assert grams == body + [grams[|grams| - 1]];
    }
  }

  lemma ProfilesAreWellFormed(s: string)
    ensures WellFormed(ProfileOf(s))
  {
    FirstOccurrencesAreTheGrams(Grams(s));
  }

  // ---- Sums over different key lists

  lemma {:induction false} SumWithout(keys: seq<string>, i: nat, p: multiset<string>, q: multiset<string>)
    requires i < |keys|
    ensures SumOver(keys, p, q) == p[keys[i]] * q[keys[i]] + SumOver(keys[..i] + keys[i + 1..], p, q)
  {
    if i == 0 {
      assert keys[..0] + keys[1..] == keys[1..];
    } else {
      SumWithout(keys[1..], i - 1, p, q);
      var rest := keys[..i] + keys[i + 1..];
      assert rest[1..] == keys[1..][..i - 1] + keys[1..][i..];
    }
  }

  /** A duplicate-free list whose non-zero terms all occur in the other list has no larger a sum. */
  lemma {:induction false} SumIsMonotone(some: seq<string>, all: seq<string>, p: multiset<string>, q: multiset<string>)
    requires Distinct(some)
    requires forall g :: g in some && g in p && g in q ==> g in all
    ensures SumOver(some, p, q) <= SumOver(all, p, q)
  {
    if some != [] {
      var head, tail := some[0], some[1..];
      assert head !in tail;
      if head in p && head in q {
        var i :| 0 <= i < |all| && all[i] == head;
        SumWithout(all, i, p, q);
        var rest := all[..i] + all[i + 1..];
        forall g | g in tail && g in p && g in q ensures g in rest {
          var k :| 0 <= k < |all| && all[k] == g;
          assert if k < i then rest[k] == g else rest[k - 1] == g;
        }
        SumIsMonotone(tail, rest, p, q);
      } else {
        SumIsMonotone(tail, all, p, q);
      }
    }
  }

  /** Which profile the loop runs over does not matter. */
  lemma DotProductOverEither(p: Profile, q: Profile)
    requires WellFormed(p) && WellFormed(q)
    ensures SumOver(p.keys, p.counts, q.counts) == SumOver(q.keys, p.counts, q.counts) == DotProduct(p, q)
  {
    SumIsMonotone(p.keys, q.keys, p.counts, q.counts);
    SumIsMonotone(q.keys, p.keys, p.counts, q.counts);
  }

  lemma {:induction false} SumCommutes(keys: seq<string>, p: multiset<string>, q: multiset<string>)
    ensures SumOver(keys, p, q) == SumOver(keys, q, p)
  {
    if keys != [] {
      SumCommutes(keys[1..], p, q);
    }
  }

  lemma DotProductIsSymmetric(p: Profile, q: Profile)
    requires WellFormed(p) && WellFormed(q)
    ensures DotProduct(p, q) == DotProduct(q, p)
  {
    DotProductOverEither(p, q);
    DotProductOverEither(q, p);
    SumCommutes(p.keys, p.counts, q.counts);
  }

  // ---- Cauchy-Schwarz

  lemma SquaresAreMonotone(x: nat, y: nat)
    requires x * x <= y * y
    ensures x <= y
  {
    assert x * x == y * y + (x - y) * (x + y);
    PositiveProduct(x - y, x + y);
  }

  lemma PositiveProduct(a: int, b: int)
    ensures 0 < a && 0 < b ==> 0 < a * b
  {
  }

  /** If x^2 <= s*t then (x + a*b)^2 <= (s + a^2) * (t + b^2). */
  lemma CauchySchwarzStep(x: nat, s: nat, t: nat, a: nat, b: nat)
    requires x * x <= s * t
    ensures (x + a * b) * (x + a * b) <= (s + a * a) * (t + b * b)
  {
    var m, n := s * (b * b), t * (a * a);
    var ab := a * b;
    assert m * n == (s * t) * (ab * ab) by {
      assert (b * b) * (a * a) == ab * ab;
      assert m * n == (s * t) * ((b * b) * (a * a));
    }
    assert (x * x) * (ab * ab) <= (s * t) * (ab * ab);
    var mid := 2 * (x * ab);
    assert mid * mid == 4 * ((x * x) * (ab * ab));
    ArithmeticMean(m, n);
    SquaresAreMonotone(mid, m + n);
    assert (x + ab) * (x + ab) == x * x + mid + ab * ab;
    assert (s + a * a) * (t + b * b) == s * t + m + n + ab * ab by {
      assert (a * a) * (b * b) == ab * ab;
      assert (s + a * a) * (t + b * b) == s * t + s * (b * b) + (a * a) * t + (a * a) * (b * b);
    }
  }

  lemma ArithmeticMean(m: nat, n: nat)
    ensures 4 * (m * n) <= (m + n) * (m + n)
  {
    assert (m + n) * (m + n) - 4 * (m * n) == (m - n) * (m - n);
    assert (m - n) * (m - n) >= 0;
  }

  lemma {:induction false} CauchySchwarz(keys: seq<string>, p: multiset<string>, q: multiset<string>)
    ensures SumOver(keys, p, q) * SumOver(keys, p, q) <= SumOver(keys, p, p) * SumOver(keys, q, q)
  {
    if keys != [] {
      var head, rest := keys[0], keys[1..];
      CauchySchwarz(rest, p, q);
      CauchySchwarzStep(SumOver(rest, p, q), SumOver(rest, p, p), SumOver(rest, q, q), p[head], q[head]);
    }
  }

  lemma ProductsAreMonotone(a: nat, b: nat, c: nat)
    requires b <= c
    ensures a * b <= a * c
  {
  }

  lemma DotProductIsBounded(p: Profile, q: Profile)
    requires WellFormed(p) && WellFormed(q)
    ensures DotProduct(p, q) * DotProduct(p, q) <= SquaredNorm(p) * SquaredNorm(q)
  {
    DotProductOverEither(p, q);
    CauchySchwarz(p.keys, p.counts, q.counts);
    SumIsMonotone(p.keys, q.keys, q.counts, q.counts);
    ProductsAreMonotone(SquaredNorm(p), SumOver(p.keys, q.counts, q.counts), SquaredNorm(q));
  }

  /** The length guard is exactly what keeps the norm from being zero. */
  lemma NormIsPositive(s: string)
    ensures SquaredNorm(ProfileOf(s)) > 0 <==> |s| >= 2
  {
    if |s| >= 2 {
      var p := ProfileOf(s);
      ProfilesAreWellFormed(s);
      assert Grams(s)[0] in Grams(s);
      assert s[..2] in p.counts && s[..2] in p.keys;
      var i :| 0 <= i < |p.keys| && p.keys[i] == s[..2];
      SumWithout(p.keys, i, p.counts, p.counts);
      assert p.counts[s[..2]] >= 1;
      ProductsAreMonotone(p.counts[s[..2]], 1, p.counts[s[..2]]);
    }
  }

  // ---- The score

  lemma SimilarIsSymmetric(left: string, right: string)
    ensures Similar(left, right) == Similar(right, left)
  {
    ProfilesAreWellFormed(Clean(left));
    ProfilesAreWellFormed(Clean(right));
    DotProductIsSymmetric(ProfileOf(Clean(left)), ProfileOf(Clean(right)));
  }

  /** The score is a number between 0 and 1: its denominator is positive and its square is at most 1. */
  lemma SimilarIsBetweenZeroAndOne(left: string, right: string)
    ensures var score := Similar(left, right);
            0 < score.normSquared && score.dot * score.dot <= score.normSquared
  {
    var p, q := ProfileOf(Clean(left)), ProfileOf(Clean(right));
    ProfilesAreWellFormed(Clean(left));
    ProfilesAreWellFormed(Clean(right));
    DotProductIsBounded(p, q);
    NormIsPositive(Clean(left));
    NormIsPositive(Clean(right));
    if |Clean(left)| >= 2 && |Clean(right)| >= 2 {
      ProductsAreMonotone(SquaredNorm(p), 1, SquaredNorm(q));
    }
  }

  /** Titles with the same clean form of two characters or more score exactly 1. */
  lemma EqualCleanTitlesScoreOne(left: string, right: string)
    requires Clean(left) == Clean(right) && |Clean(left)| >= 2
    ensures var score := Similar(left, right); 0 < score.dot && score.dot * score.dot == score.normSquared
  {
    NormIsPositive(Clean(left));
  }

  /** The score is zero exactly when no two characters stand together in both clean titles. */
  lemma ZeroMeansNothingShared(left: string, right: string)
    ensures var l, r := Clean(left), Clean(right);
            Similar(left, right).dot == 0
            <==> forall i: nat, j: nat :: !Match(l, i, r, j)
  {
    var l, r := Clean(left), Clean(right);
    CosineIsZeroWhenNothingShared(l, r);
    SharedGramStands(l, r);
  }

  lemma SharedGramStands(l: string, r: string)
    ensures (exists g :: g in Grams(l) && g in Grams(r)) <==> exists i: nat, j: nat :: Match(l, i, r, j)
  {
    if g :| g in Grams(l) && g in Grams(r) {
      var i, j := SharedMeansMatch(l, r, g);
    }
    if i: nat, j: nat :| Match(l, i, r, j) {
      MatchMeansShared(l, i, r, j);
    }
  }

  lemma SharedMeansMatch(l: string, r: string, g: string) returns (i: nat, j: nat)
    requires g in Grams(l) && g in Grams(r)
    ensures Match(l, i, r, j)
  {
    i :| 0 <= i < |Grams(l)| && Grams(l)[i] == g;
    j :| 0 <= j < |Grams(r)| && Grams(r)[j] == g;
    GramAt(l, i, g);
    GramAt(r, j, g);
  }

  lemma MatchMeansShared(l: string, i: nat, r: string, j: nat)
    requires Match(l, i, r, j)
    ensures i < |Grams(l)| && Grams(l)[i] in Grams(l) && Grams(l)[i] in Grams(r)
  {
    GramsStandEverywhere(l);
    GramsStandEverywhere(r);
    GramAt(l, i, Grams(l)[i]);
    GramAt(r, j, Grams(l)[i]);
    assert Grams(r)[j] in Grams(r);
  }

  lemma CosineIsZeroWhenNothingShared(l: string, r: string)
    ensures CosineOfClean(l, r).dot == 0 <==> forall g :: !(g in Grams(l) && g in Grams(r))
  {
    var p, q := ProfileOf(l), ProfileOf(r);
    ProfilesAreWellFormed(l);
    ProfilesAreWellFormed(r);
    DotProductIsZeroWhenDisjoint(p, q);
    assert forall g :: g in p.counts <==> g in Grams(l);
    assert forall g :: g in q.counts <==> g in Grams(r);
  }

  lemma DotProductIsZeroWhenDisjoint(p: Profile, q: Profile)
    requires WellFormed(p) && WellFormed(q)
    ensures DotProduct(p, q) == 0 <==> forall g :: !(g in p.counts && g in q.counts)
  {
    DotProductOverEither(p, q);
    if g :| g in p.counts && g in q.counts {
      var i :| 0 <= i < |p.keys| && p.keys[i] == g;
      SumWithout(p.keys, i, p.counts, q.counts);
      PositiveProduct(p.counts[g], q.counts[g]);
    } else {
      SumIsMonotone(p.keys, [], p.counts, q.counts);
    }
  }

  /** A title edit that only touches surrounding whitespace changes no score, on either side. */
  lemma EqualStripGivesEqualScores(before: string, after: string, other: string)
    requires Strip(before) == Strip(after)
    ensures Similar(other, before) == Similar(other, after)
    ensures Similar(before, other) == Similar(after, other)
  {
    EqualStripGivesEqualClean(before, after);
  }
}
