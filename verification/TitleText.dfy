/** Title normalisation in the related service: `clean`, and the `strip` comparison that guards it. */
module TitleText {
  import opened Common

  /** The ASCII punctuation characters. */
  predicate IsPunctuation(c: char) {
    '!' <= c <= '/' || ':' <= c <= '@' || '[' <= c <= '`' || '{' <= c <= '~'
  }

  /** The characters that splitting and stripping without an argument treat as whitespace. */
  predicate IsSpace(c: char) {
    || '\t' <= c <= '\r' || '\U{1C}' <= c <= ' ' || c == '\U{85}' || c == '\U{A0}' || c == '\U{1680}'
    || '\U{2000}' <= c <= '\U{200A}' || c == '\U{2028}' || c == '\U{2029}' || c == '\U{202F}'
    || c == '\U{205F}' || c == '\U{3000}'
  }

  /** A non-empty run of characters without whitespace. */
  ghost predicate IsWord(w: string) {
    w != [] && forall i :: 0 <= i < |w| ==> !IsSpace(w[i])
  }

  ghost predicate NoPunctuation(s: string) {
    forall i :: 0 <= i < |s| ==> !IsPunctuation(s[i])
  }

  /**
   What the proofs ask of lower casing a word: it gives a word, makes no punctuation, and lower casing
   again changes nothing. A character may become several, and what it becomes may depend on its
   neighbours in the word, as it does for the Greek final sigma.
   */
  ghost predicate IsLowering(f: string -> string) {
    forall w :: IsWord(w) ==> IsWord(f(w)) && f(f(w)) == f(w) && (NoPunctuation(w) ==> NoPunctuation(f(w)))
  }

  function AsciiLower(w: string): string {
    seq(|w|, i requires 0 <= i < |w| => if 'A' <= w[i] <= 'Z' then w[i] - 'A' + 'a' else w[i])
  }

  type LowerCasing = f: string -> string | IsLowering(f) witness AsciiLower

  /** Any such map; which one is left open. */
  const LOWER: LowerCasing

  const STOPWORDS: set<string> := {
    "a", "an", "and", "are", "as", "at", "be", "but", "by", "for", "if", "in",
    "into", "is", "it", "no", "not", "of", "on", "or", "such", "that", "the",
    "their", "then", "there", "these", "they", "this", "to", "was", "will",
    "with", "from", "how", "what", "when", "where", "who", "why"
  }

  function DropPunctuation(s: string): string {
    if s == [] then []
    else (if IsPunctuation(s[0]) then [] else [s[0]]) + DropPunctuation(s[1..])
  }

  /** Length of the leading run of non-space characters. */
  function WordLength(s: string): (n: nat)
    ensures n <= |s|
    ensures forall i :: 0 <= i < n ==> !IsSpace(s[i])
    ensures n < |s| ==> IsSpace(s[n])
  {
    if s == [] || IsSpace(s[0]) then 0 else 1 + WordLength(s[1..])
  }

  /** Whitespace has no case and ends the context of a character's casing, so a text is lower-cased word by word. */
  function LowerAll(s: string): string
    decreases |s|
  {
    if s == [] then []
    else if IsSpace(s[0]) then [s[0]] + LowerAll(s[1..])
    else var n := WordLength(s); LOWER(s[..n]) + LowerAll(s[n..])
  }

  /** Splitting on runs of whitespace. */
  function Words(s: string): seq<string>
    decreases |s|
  {
    if s == [] then []
    else if IsSpace(s[0]) then Words(s[1..])
    else var n := WordLength(s); [s[..n]] + Words(s[n..])
  }

  function DropStopwords(words: seq<string>): seq<string> {
    DropAll(words, STOPWORDS)
  }

  function DropAll(words: seq<string>, unwanted: set<string>): seq<string> {
    if words == [] then []
    else (if words[0] in unwanted then [] else [words[0]]) + DropAll(words[1..], unwanted)
  }

  function Join(words: seq<string>): string {
    if words == [] then [] else if |words| == 1 then words[0] else words[0] + " " + Join(words[1..])
  }

  function Clean(text: string): string {
    Join(DropStopwords(Words(LowerAll(DropPunctuation(text)))))
  }

  function StripLeft(s: string): string {
    if s != [] && IsSpace(s[0]) then StripLeft(s[1..]) else s
  }

  function StripRight(s: string): string {
    if s != [] && IsSpace(s[|s| - 1]) then StripRight(s[..|s| - 1]) else s
  }

  function Strip(s: string): string {
    StripRight(StripLeft(s))
  }

  // ---- What the character classes are

  const PUNCTUATION := "!\"#$%&'()*+,-./:;<=>?@[\\]^_`{|}~"

  const SPACES := "\t\n\U{0B}\U{0C}\r\U{1C}\U{1D}\U{1E}\U{1F} \U{85}\U{A0}\U{1680}"
    + "\U{2000}\U{2001}\U{2002}\U{2003}\U{2004}\U{2005}\U{2006}\U{2007}\U{2008}\U{2009}\U{200A}"
    + "\U{2028}\U{2029}\U{202F}\U{205F}\U{3000}"

  /** Punctuation and whitespace, character by character. */
  lemma CharacterClasses(c: char)
    ensures IsPunctuation(c) <==> c in PUNCTUATION
    ensures IsSpace(c) <==> c in SPACES
  {
  }

  /** Some of the words that are left out, and some that are not. */
  lemma StopwordsAre()
    ensures "a" in STOPWORDS && "the" in STOPWORDS && "not" in STOPWORDS && "with" in STOPWORDS && "why" in STOPWORDS
    ensures "kafka" !in STOPWORDS && "post" !in STOPWORDS && "i" !in STOPWORDS && "because" !in STOPWORDS
  {
  }

  // ---- What each stage of cleaning does, without naming the stage

  /** The places of the characters that are kept. */
  ghost predicate PlainPlaces(text: string, places: seq<nat>) {
    forall i: nat :: i in places <==> i < |text| && !IsPunctuation(text[i])
  }

  /** `plain` is the text without its punctuation. */
  lemma {:induction false} PlainOf(text: string) returns (places: seq<nat>)
    ensures Picks(text, DropPunctuation(text), places) && PlainPlaces(text, places)
  {
    if text == [] {
      places := [];
    } else {
      var body, c := text[..|text| - 1], text[|text| - 1];
      assert text == body + [c];
      var fewer := PlainOf(body);
      DropPunctuationLast(body, c);
      PickLast(body, DropPunctuation(body), fewer, c);
      PlainPlacesGrow(body, c, fewer);
      places := if IsPunctuation(c) then fewer else fewer + [|body|];
    }
  }

  lemma DropPunctuationLast(body: string, c: char)
    ensures DropPunctuation(body + [c])
         == if IsPunctuation(c) then DropPunctuation(body) else DropPunctuation(body) + [c]
  {
    DropPunctuationSplits(body, [c]);
    assert [c][1..] == [];
  }

  lemma PlainPlacesGrow(body: string, c: char, places: seq<nat>)
    requires PlainPlaces(body, places)
    ensures PlainPlaces(body + [c], if IsPunctuation(c) then places else places + [|body|])
  {
  }

  /** Words with the gaps around them: one gap before each word, and one after the last. */
  function Spread(gaps: seq<string>, words: seq<string>): string
    requires |gaps| == |words| + 1
  {
    if words == [] then gaps[0] else gaps[0] + words[0] + Spread(gaps[1..], words[1..])
  }

  ghost predicate AllSpaces(s: string) {
    forall i :: 0 <= i < |s| ==> IsSpace(s[i])
  }

  /** The text is these words with these gaps: no whitespace in a word, nothing else in a gap, no empty gap inside. */
  ghost predicate SplitsInto(text: string, words: seq<string>, gaps: seq<string>) {
    && |gaps| == |words| + 1 && text == Spread(gaps, words)
    && (forall k :: 0 <= k < |words| ==> IsWord(words[k]))
    && (forall k :: 0 <= k < |gaps| ==> AllSpaces(gaps[k]))
    && (forall k :: 0 < k < |gaps| - 1 ==> gaps[k] != [])
  }

  lemma {:induction false} WordsAfterGap(gap: string, rest: string)
    requires AllSpaces(gap)
    ensures Words(gap + rest) == Words(rest)
  {
    if gap == [] {
      assert gap + rest == rest;
    } else {
      assert (gap + rest)[1..] == gap[1..] + rest;
      WordsAfterGap(gap[1..], rest);
    }
  }

  lemma SpreadStartsWithGap(gaps: seq<string>, words: seq<string>)
    requires |gaps| == |words| + 1 && AllSpaces(gaps[0]) && (gaps[0] != [] || words == [])
    ensures Spread(gaps, words) == [] || IsSpace(Spread(gaps, words)[0])
  {
  }

  /** However a text splits into words and gaps, those are its words: there is one way only. */
  lemma {:induction false} WordsAreTheSplit(text: string, words: seq<string>, gaps: seq<string>)
    requires SplitsInto(text, words, gaps)
    ensures Words(text) == words
    decreases |words|
  {
    if words == [] {
      WordsAfterGap(gaps[0], []);
      assert gaps[0] + [] == gaps[0];
    } else {
      var rest := Spread(gaps[1..], words[1..]);
      assert AllSpaces(gaps[0]) && IsWord(words[0]) && AllSpaces(gaps[1]);
      assert text == gaps[0] + (words[0] + rest);
      WordsAfterGap(gaps[0], words[0] + rest);
      SpreadStartsWithGap(gaps[1..], words[1..]);
      WordsOfWordThen(words[0], rest);
      WordsAreTheSplit(rest, words[1..], gaps[1..]);
    }
  }

  /** Every text splits. */
  lemma {:induction false} EveryTextSplits(text: string) returns (words: seq<string>, gaps: seq<string>)
    ensures SplitsInto(text, words, gaps)
    decreases |text|
  {
    if text == [] {
      words, gaps := [], [[]];
    } else if IsSpace(text[0]) {
      var more;
      words, more := EveryTextSplits(text[1..]);
      gaps := [[text[0]] + more[0]] + more[1..];
      assert gaps[1..] == more[1..];
      assert text == [text[0]] + text[1..];
      assert forall k :: 0 <= k < |gaps| ==> AllSpaces(more[k]);
      assert AllSpaces(gaps[0]);
    } else {
      var n := WordLength(text);
      var others, more := EveryTextSplits(text[n..]);
      words, gaps := [text[..n]] + others, [[]] + more;
      assert gaps[1..] == more && words[1..] == others;
      assert text == text[..n] + text[n..];
      assert IsWord(text[..n]);
      SplitAfterWord(text[n..], others, more);
    }
  }

  /** What follows a whole word either ends the text or begins with whitespace. */
  lemma SplitAfterWord(rest: string, words: seq<string>, gaps: seq<string>)
    requires SplitsInto(rest, words, gaps) && (rest == [] || IsSpace(rest[0]))
    ensures words != [] ==> gaps[0] != []
  {
  }

  ghost predicate KeptPlaces(words: seq<string>, unwanted: set<string>, places: seq<nat>) {
    forall i: nat :: i in places <==> i < |words| && words[i] !in unwanted
  }

  lemma {:induction false} DropAllSplits(a: seq<string>, b: seq<string>, unwanted: set<string>)
    ensures DropAll(a + b, unwanted) == DropAll(a, unwanted) + DropAll(b, unwanted)
  {
    if a == [] {
      assert a + b == b;
    } else {
      assert (a + b)[0] == a[0] && (a + b)[1..] == a[1..] + b;
      DropAllSplits(a[1..], b, unwanted);
    }
  }

  lemma {:induction false} KeptOf(words: seq<string>, unwanted: set<string>) returns (places: seq<nat>)
    ensures Picks(words, DropAll(words, unwanted), places) && KeptPlaces(words, unwanted, places)
  {
    if words == [] {
      places := [];
    } else {
      var body, w := words[..|words| - 1], words[|words| - 1];
      assert words == body + [w];
      var fewer := KeptOf(body, unwanted);
      DropAllLast(body, w, unwanted);
      PickLast(body, DropAll(body, unwanted), fewer, w);
      KeptPlacesGrow(body, w, unwanted, fewer);
      places := if w in unwanted then fewer else fewer + [|body|];
    }
  }

  lemma DropAllLast(body: seq<string>, w: string, unwanted: set<string>)
    ensures DropAll(body + [w], unwanted)
         == if w in unwanted then DropAll(body, unwanted) else DropAll(body, unwanted) + [w]
  {
    DropAllSplits(body, [w], unwanted);
    assert [w][1..] == [];
  }

  lemma KeptPlacesGrow(body: seq<string>, w: string, unwanted: set<string>, places: seq<nat>)
    requires KeptPlaces(body, unwanted, places)
    ensures KeptPlaces(body + [w], unwanted, if w in unwanted then places else places + [|body|])
  {
  }

  lemma {:induction false} LoweredEach(words: seq<string>)
    ensures |Lowered(words)| == |words|
    ensures forall k :: 0 <= k < |words| ==> Lowered(words)[k] == LOWER(words[k])
  {
    if words != [] {
      LoweredEach(words[1..]);
    }
  }

  /** Gaps of one space between words, and none at the ends. */
  ghost function SingleGaps(n: nat): (gaps: seq<string>)
    ensures |gaps| == n + 1
    ensures forall k :: 0 <= k <= n ==> gaps[k] == if 0 < k < n then " " else ""
  {
    seq(n + 1, k => if 0 < k < n then " " else "")
  }

  lemma {:induction false} JoinIsSpread(words: seq<string>, gaps: seq<string>)
    requires |gaps| == |words| + 1 && gaps[|words|] == ""
    requires forall k :: 0 < k < |words| ==> gaps[k] == " "
    ensures Spread(gaps, words) == gaps[0] + Join(words)
  {
    if words == [] {
      assert gaps[0] + [] == gaps[0];
    } else {
      var more, rest := gaps[1..], words[1..];
      JoinIsSpread(rest, more);
      SpreadOneMore(gaps[0], words[0], more[0], Join(rest));
      assert rest == [] ==> more[0] == "" && Join(rest) == [];
    }
  }

  lemma SpreadOneMore(gap: string, word: string, next: string, rest: string)
    ensures gap + word + (next + rest) == gap + (word + next + rest)
    ensures next == "" && rest == "" ==> gap + word + (next + rest) == gap + word
  {
  }

  /**
   What cleaning does, from the text alone. Take the text without its punctuation; take its words; lower
   the case of each; keep, in order and with repetitions, those that are not stop words. The clean form
   is the kept words with one space between them. Each of these steps has one result only.
   */
  lemma CleanMeans(
      text: string, plain: string, plainPlaces: seq<nat>, words: seq<string>, gaps: seq<string>,
      lowered: seq<string>, kept: seq<string>, keptPlaces: seq<nat>)
    requires Picks(text, plain, plainPlaces) && PlainPlaces(text, plainPlaces)
    requires SplitsInto(plain, words, gaps)
    requires |lowered| == |words| && forall k :: 0 <= k < |words| ==> lowered[k] == LOWER(words[k])
    requires Picks(lowered, kept, keptPlaces) && KeptPlaces(lowered, STOPWORDS, keptPlaces)
    ensures Clean(text) == Spread(SingleGaps(|kept|), kept)
  {
    CleanByWords(text);
    var places := PlainOf(text);
    SamePlacesSamePicks(text, plain, plainPlaces, DropPunctuation(text), places);
    WordsAreTheSplit(plain, words, gaps);
    LoweredEach(words);
    assert lowered == Lowered(words);
    var kPlaces := KeptOf(lowered, STOPWORDS);
    SamePlacesSamePicks(lowered, kept, keptPlaces, DropStopwords(lowered), kPlaces);
    JoinIsSpread(kept, SingleGaps(|kept|));
    assert [] + Join(kept) == Join(kept);
  }

  lemma NoneUnwantedAllOthers(words: seq<string>, unwanted: set<string>)
    ensures forall w :: w in DropAll(words, unwanted) <==> w in words && w !in unwanted
  {
    var places := KeptOf(words, unwanted);
    var kept := DropAll(words, unwanted);
    forall w | w in kept ensures w in words && w !in unwanted {
      var k :| 0 <= k < |kept| && kept[k] == w;
      assert places[k] in places;
    }
    forall w | w in words && w !in unwanted ensures w in kept {
      var k: nat :| k < |words| && words[k] == w;
      assert k in places;
      var j :| 0 <= j < |places| && places[j] == k;
      assert kept[j] == w;
    }
  }

  /** No stop word is in a clean text, and each lower-cased word of the text that is none is in it. */
  lemma CleanKeepsAllButStopwords(
      text: string, plain: string, plainPlaces: seq<nat>, words: seq<string>, gaps: seq<string>)
    requires Picks(text, plain, plainPlaces) && PlainPlaces(text, plainPlaces) && SplitsInto(plain, words, gaps)
    ensures forall w :: w in Words(Clean(text)) ==> w !in STOPWORDS
    ensures forall k :: 0 <= k < |words| && LOWER(words[k]) !in STOPWORDS ==> LOWER(words[k]) in Words(Clean(text))
  {
    var places := PlainOf(text);
    SamePlacesSamePicks(text, plain, plainPlaces, DropPunctuation(text), places);
    WordsAreTheSplit(plain, words, gaps);
    WordsOfClean(text);
    LoweredEach(words);
    NoneUnwantedAllOthers(Lowered(words), STOPWORDS);
  }

  lemma WordsOfClean(text: string)
    ensures Words(Clean(text)) == DropStopwords(Lowered(Words(DropPunctuation(text))))
  {
    var plain := DropPunctuation(text);
    CleanByWords(text);
    NoPunctuationLeft(text);
    LoweredWordsAreSettled(plain);
    KeptWords(Lowered(Words(plain)), STOPWORDS);
    WordsOfJoin(DropStopwords(Lowered(Words(plain))));
  }

  // ---- What stripping does

  /** The text is whitespace, then the stripped text, then whitespace; and the stripped text has none at its ends. */
  lemma StripMeans(s: string) returns (before: string, after: string)
    ensures AllSpaces(before) && AllSpaces(after) && s == before + Strip(s) + after
    ensures Strip(s) != [] ==> !IsSpace(Strip(s)[0]) && !IsSpace(Strip(s)[|Strip(s)| - 1])
  {
    before := StripLeftMeans(s);
    after := StripRightMeans(StripLeft(s));
    assert s == before + (Strip(s) + after);
  }

  lemma {:induction false} StripLeftMeans(s: string) returns (before: string)
    ensures AllSpaces(before) && s == before + StripLeft(s)
    ensures StripLeft(s) != [] ==> !IsSpace(StripLeft(s)[0])
  {
    if s != [] && IsSpace(s[0]) {
      var fewer := StripLeftMeans(s[1..]);
      before := [s[0]] + fewer;
      assert s == [s[0]] + s[1..];
    } else {
      before := [];
    }
  }

  lemma {:induction false} StripRightMeans(s: string) returns (after: string)
    ensures AllSpaces(after) && s == StripRight(s) + after
    ensures StripRight(s) != [] ==> StripRight(s)[0] == s[0] && !IsSpace(StripRight(s)[|StripRight(s)| - 1])
  {
    if s != [] && IsSpace(s[|s| - 1]) {
      var fewer := StripRightMeans(s[..|s| - 1]);
      after := fewer + [s[|s| - 1]];
      assert s == s[..|s| - 1] + [s[|s| - 1]];
    } else {
      after := [];
    }
  }

  // ---- Stripping does not change the clean form

  lemma {:induction false} DropPunctuationSplits(a: string, b: string)
    ensures DropPunctuation(a + b) == DropPunctuation(a) + DropPunctuation(b)
  {
    if a == [] {
      assert a + b == b;
    } else {
      var head := if IsPunctuation(a[0]) then [] else [a[0]];
      calc {
        DropPunctuation(a + b);
        { assert (a + b)[0] == a[0] && (a + b)[1..] == a[1..] + b; }
        head + DropPunctuation(a[1..] + b);
        { DropPunctuationSplits(a[1..], b); }
        head + (DropPunctuation(a[1..]) + DropPunctuation(b));
        { Regroup(head, DropPunctuation(a[1..]), DropPunctuation(b)); }
        DropPunctuation(a) + DropPunctuation(b);
      }
    }
  }

  lemma Regroup(a: string, b: string, c: string)
    ensures a + (b + c) == (a + b) + c
  {
  }

  /** A word followed by the end of the text or by a space is split off whole. */
  lemma WordsOfWordThen(w: string, rest: string)
    requires IsWord(w) && (rest == [] || IsSpace(rest[0]))
    ensures Words(w + rest) == [w] + Words(rest)
  {
    var s := w + rest;
    var n := WordLength(s);
    assert forall i :: 0 <= i < |w| ==> s[i] == w[i];
    assert |w| < |s| ==> s[|w|] == rest[0];
    assert n == |w|;
    assert s[..n] == w && s[n..] == rest;
  }

  lemma {:induction false} WordsIgnoreTrailingSpace(s: string, c: char)
    requires IsSpace(c)
    ensures Words(s + [c]) == Words(s)
    decreases |s|
  {
    if s == [] {
      assert (s + [c])[1..] == [];
    } else if IsSpace(s[0]) {
      assert (s + [c])[1..] == s[1..] + [c];
      WordsIgnoreTrailingSpace(s[1..], c);
    } else {
      var n := WordLength(s);
      assert s + [c] == s[..n] + (s[n..] + [c]);
      WordsOfWordThen(s[..n], s[n..] + [c]);
      WordsIgnoreTrailingSpace(s[n..], c);
    }
  }

  function Lowered(words: seq<string>): seq<string> {
    if words == [] then [] else [LOWER(words[0])] + Lowered(words[1..])
  }

  lemma LowerKeepsEnds(s: string)
    ensures s == [] ==> LowerAll(s) == []
    ensures s != [] && IsSpace(s[0]) ==> LowerAll(s) != [] && LowerAll(s)[0] == s[0]
  {
  }

  /** Lower casing and splitting commute: the words of the lower-cased text are the words, lower-cased. */
  lemma {:induction false} WordsOfLowerAll(s: string)
    ensures Words(LowerAll(s)) == Lowered(Words(s))
    decreases |s|
  {
    if s == [] {
    } else if IsSpace(s[0]) {
      WordsOfLowerAll(s[1..]);
      assert ([s[0]] + LowerAll(s[1..]))[1..] == LowerAll(s[1..]);
    } else {
      var n := WordLength(s);
      var w, rest := s[..n], s[n..];
      WordsOfLowerAll(rest);
      LowerKeepsEnds(rest);
      assert IsLowering(LOWER) && IsWord(w);
      WordsOfWordThen(LOWER(w), LowerAll(rest));
      assert ([w] + Words(rest))[1..] == Words(rest);
    }
  }

  /** Cleaning in one pass over the words. */
  lemma CleanByWords(text: string)
    ensures Clean(text) == Join(DropStopwords(Lowered(Words(DropPunctuation(text)))))
  {
    WordsOfLowerAll(DropPunctuation(text));
  }

  lemma CleanIgnoresSpaceAtEitherEnd(s: string, c: char)
    requires IsSpace(c)
    ensures Clean([c] + s) == Clean(s)
    ensures Clean(s + [c]) == Clean(s)
  {
    assert [c][1..] == [] && DropPunctuation([c]) == [c];
    DropPunctuationSplits([c], s);
    DropPunctuationSplits(s, [c]);
    assert ([c] + DropPunctuation(s))[1..] == DropPunctuation(s);
    WordsIgnoreTrailingSpace(DropPunctuation(s), c);
    CleanByWords(s);
    CleanByWords([c] + s);
    CleanByWords(s + [c]);
  }

  lemma {:induction false} CleanOfStripLeft(s: string)
    ensures Clean(StripLeft(s)) == Clean(s)
  {
    if s != [] && IsSpace(s[0]) {
      CleanOfStripLeft(s[1..]);
      CleanIgnoresSpaceAtEitherEnd(s[1..], s[0]);
      assert [s[0]] + s[1..] == s;
    }
  }

  lemma {:induction false} CleanOfStripRight(s: string)
    ensures Clean(StripRight(s)) == Clean(s)
  {
    if s != [] && IsSpace(s[|s| - 1]) {
      var body, last := s[..|s| - 1], s[|s| - 1];
      CleanOfStripRight(body);
      CleanIgnoresSpaceAtEitherEnd(body, last);
      assert s == body + [last];
      assert StripRight(s) == StripRight(body);
    }
  }

  /** What the early return in the update handler rests on. */
  lemma EqualStripGivesEqualClean(a: string, b: string)
    requires Strip(a) == Strip(b)
    ensures Clean(a) == Clean(b)
  {
    CleanOfStripLeft(a);
    CleanOfStripLeft(b);
    CleanOfStripRight(StripLeft(a));
    CleanOfStripRight(StripLeft(b));
  }

  // ---- Cleaning twice is cleaning once

  /** A word that survives cleaning as it is, stop words apart. */
  ghost predicate Settled(w: string) {
    IsWord(w) && NoPunctuation(w) && LOWER(w) == w
  }

  ghost predicate AllSettled(words: seq<string>) {
    forall i :: 0 <= i < |words| ==> Settled(words[i])
  }

  lemma {:induction false} NoPunctuationLeft(s: string)
    ensures NoPunctuation(DropPunctuation(s))
  {
    if s != [] {
      NoPunctuationLeft(s[1..]);
    }
  }

  lemma {:induction false} NothingToDrop(s: string)
    requires NoPunctuation(s)
    ensures DropPunctuation(s) == s
  {
    if s != [] {
      NothingToDrop(s[1..]);
      assert [s[0]] + s[1..] == s;
    }
  }

  lemma {:induction false} LoweredWordsAreSettled(s: string)
    requires NoPunctuation(s)
    ensures AllSettled(Lowered(Words(s)))
    decreases |s|
  {
    if s == [] {
    } else if IsSpace(s[0]) {
      LoweredWordsAreSettled(s[1..]);
    } else {
      var n := WordLength(s);
      var w := s[..n];
      LoweredWordsAreSettled(s[n..]);
      assert IsLowering(LOWER) && IsWord(w) && NoPunctuation(w);
      assert ([w] + Words(s[n..]))[1..] == Words(s[n..]);
      assert Settled(LOWER(w));
    }
  }

  /** Every kept word is settled and none that is unwanted is kept, so a second pass keeps everything. */
  lemma {:induction false} KeptWords(words: seq<string>, unwanted: set<string>)
    requires AllSettled(words)
    ensures AllSettled(DropAll(words, unwanted))
    ensures DropAll(DropAll(words, unwanted), unwanted) == DropAll(words, unwanted)
  {
    if words != [] {
      assert AllSettled(words[1..]);
      KeptWords(words[1..], unwanted);
      var rest := DropAll(words[1..], unwanted);
      if words[0] !in unwanted {
        assert Settled(words[0]);
        assert ([words[0]] + rest)[1..] == rest;
      } else {
        assert DropAll(words, unwanted) == rest;
      }
    }
  }

  lemma {:induction false} SettledWordsStay(words: seq<string>)
    requires AllSettled(words)
    ensures Lowered(words) == words
  {
    if words != [] {
      assert Settled(words[0]) && AllSettled(words[1..]);
      SettledWordsStay(words[1..]);
      assert [words[0]] + words[1..] == words;
    }
  }

  /** Splitting undoes joining. */
  lemma {:induction false} WordsOfJoin(words: seq<string>)
    requires AllSettled(words)
    ensures NoPunctuation(Join(words))
    ensures Words(Join(words)) == words
  {
    if words != [] {
      assert Settled(words[0]) && AllSettled(words[1..]);
      WordsOfJoin(words[1..]);
      if |words| == 1 {
        WordsOfWordThen(words[0], []);
        assert words[0] + [] == words[0];
      } else {
        var rest := " " + Join(words[1..]);
        assert rest[1..] == Join(words[1..]);
        WordsOfWordThen(words[0], rest);
        assert words[0] + rest == Join(words);
      }
    }
  }

  lemma CleanIsIdempotent(text: string)
    ensures Clean(Clean(text)) == Clean(text)
  {
    var plain := DropPunctuation(text);
    CleanByWords(text);
    NoPunctuationLeft(text);
    LoweredWordsAreSettled(plain);
    var kept := DropStopwords(Lowered(Words(plain)));
    KeptWords(Lowered(Words(plain)), STOPWORDS);
    WordsOfJoin(kept);
    NothingToDrop(Join(kept));
    SettledWordsStay(kept);
    CleanByWords(Join(kept));
  }
}
