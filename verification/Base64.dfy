/** Unpadded standard base64: sections 3.2 and 4 of RFC 4648, with the decoder's leniencies. */
module Base64 {
  import opened Common

  type byte = n: int | 0 <= n < 256

  type Sextet = n: int | 0 <= n < 64

  function CharOf(i: Sextet): char {
    if i < 26 then i as char + 'A'
    else if i < 52 then (i - 26) as char + 'a'
    else if i < 62 then (i - 52) as char + '0'
    else if i == 62 then '+' else '/'
  }

  predicate InAlphabet(c: char) {
    'A' <= c <= 'Z' || 'a' <= c <= 'z' || '0' <= c <= '9' || c == '+' || c == '/'
  }

  function SextetOf(c: char): Sextet
    requires InAlphabet(c)
  {
    if 'A' <= c <= 'Z' then (c - 'A') as int
    else if 'a' <= c <= 'z' then (c - 'a') as int + 26
    else if '0' <= c <= '9' then (c - '0') as int + 52
    else if c == '+' then 62 else 63
  }

  /** Eight-bit groups to six-bit groups; a short last group leaves its low bits zero. */
  function Regroup(b: seq<byte>): seq<Sextet> {
    if |b| == 0 then []
    else if |b| == 1 then [b[0] / 4, b[0] % 4 * 16]
    else if |b| == 2 then [b[0] / 4, b[0] % 4 * 16 + b[1] / 16, b[1] % 16 * 4]
    else [b[0] / 4, b[0] % 4 * 16 + b[1] / 16, b[1] % 16 * 4 + b[2] / 64, b[2] % 64] + Regroup(b[3..])
  }

  function FirstByte(w: Sextet, x: Sextet): byte {
    w * 4 + x / 16
  }

  function SecondByte(x: Sextet, y: Sextet): byte {
    x % 16 * 16 + y / 4
  }

  function ThirdByte(y: Sextet, z: Sextet): byte {
    y % 4 * 64 + z
  }

  /** Six-bit groups back to bytes, dropping the low bits of a short last group; one group alone is no byte. */
  function Bytes(q: seq<Sextet>): Option<seq<byte>> {
    if |q| == 0 then Some([])
    else if |q| == 1 then None
    else if |q| == 2 then Some([FirstByte(q[0], q[1])])
    else if |q| == 3 then Some([FirstByte(q[0], q[1]), SecondByte(q[1], q[2])])
    else
      match Bytes(q[4..])
      case None => None
      case Some(rest) => Some([FirstByte(q[0], q[1]), SecondByte(q[1], q[2]), ThirdByte(q[2], q[3])] + rest)
  }

  function Encode(b: seq<byte>): (s: string)
    ensures |s| == |Regroup(b)|
  {
    var q := Regroup(b);
    seq(|q|, i requires 0 <= i < |q| => CharOf(q[i]))
  }

  /** The decoder ignores line breaks anywhere. */
  function DropLineBreaks(s: string): string {
    if s == [] then []
    else (if s[0] == '\r' || s[0] == '\n' then [] else [s[0]]) + DropLineBreaks(s[1..])
  }

  predicate AllInAlphabet(s: string) {
    forall i :: 0 <= i < |s| ==> InAlphabet(s[i])
  }

  function Sextets(s: string): (q: seq<Sextet>)
    requires AllInAlphabet(s)
    ensures |q| == |s|
  {
    seq(|s|, i requires 0 <= i < |s| => SextetOf(s[i]))
  }

  function Decode(s: string): Option<seq<byte>> {
    var t := DropLineBreaks(s);
    if AllInAlphabet(t) then Bytes(Sextets(t)) else None
  }

  // ---- Decoding undoes encoding

  lemma CharsAreDistinct(i: Sextet)
    ensures InAlphabet(CharOf(i)) && SextetOf(CharOf(i)) == i && CharOf(i) != '$'
  {
  }

  lemma {:induction false} BytesOfRegroup(b: seq<byte>)
    ensures Bytes(Regroup(b)) == Some(b)
  {
    if |b| >= 3 {
      BytesOfRegroup(b[3..]);
      var q := Regroup(b);
      assert q[4..] == Regroup(b[3..]);
      ThreeBytes(b[0], b[1], b[2]);
      assert b == [b[0], b[1], b[2]] + b[3..];
    } else if |b| == 2 {
      ThreeBytes(b[0], b[1], 0);
      assert b == [b[0], b[1]];
    } else if |b| == 1 {
      ThreeBytes(b[0], 0, 0);
      assert b == [b[0]];
    }
  }

  lemma ThreeBytes(x: byte, y: byte, z: byte)
    ensures x / 4 * 4 + (x % 4 * 16 + y / 16) / 16 == x
    ensures (x % 4 * 16 + y / 16) % 16 * 16 + (y % 16 * 4 + z / 64) / 4 == y
    ensures (y % 16 * 4 + z / 64) % 4 * 64 + z % 64 == z
  {
  }

  lemma {:induction false} NoLineBreaksToDrop(s: string)
    requires AllInAlphabet(s)
    ensures DropLineBreaks(s) == s
  {
    if s != [] {
      assert AllInAlphabet(s[1..]);
      NoLineBreaksToDrop(s[1..]);
    }
  }

  /** Every byte string survives encoding and decoding, and the text has no separator in it. */
  lemma DecodeOfEncode(b: seq<byte>)
    ensures Decode(Encode(b)) == Some(b)
    ensures '$' !in Encode(b)
  {
    var q, s := Regroup(b), Encode(b);
    forall i | 0 <= i < |s| ensures InAlphabet(s[i]) && SextetOf(s[i]) == q[i] && s[i] != '$' {
      CharsAreDistinct(q[i]);
    }
    NoLineBreaksToDrop(s);
    assert Sextets(s) == q;
    BytesOfRegroup(b);
  }

  // ---- When encoding undoes decoding

  /** The last group is complete, or the bits it cannot use are zero. */
  predicate Canonical(q: seq<Sextet>) {
    match |q| % 4
    case 2 => q[|q| - 1] % 16 == 0
    case 3 => q[|q| - 1] % 4 == 0
    case _ => true
  }

  lemma {:induction false} RegroupOfBytes(q: seq<Sextet>)
    requires Bytes(q).Some?
    ensures Regroup(Bytes(q).value) == q <==> Canonical(q)
  {
    if |q| >= 4 {
      RegroupOfBytes(q[4..]);
      var rest := Bytes(q[4..]).value;
      RegroupGroup(q[0], q[1], q[2], q[3], rest);
      HeadAndTail(q, Regroup(Bytes(q).value), Regroup(rest));
      CanonicalTail(q);
    } else if |q| == 3 {
      FourSextets(q[0], q[1], q[2], 0);
      assert q == [q[0], q[1], q[2]];
    } else if |q| == 2 {
      FourSextets(q[0], q[1], 0, 0);
      assert q == [q[0], q[1]];
    }
  }

  lemma RegroupGroup(w: Sextet, x: Sextet, y: Sextet, z: Sextet, rest: seq<byte>)
    ensures Regroup([FirstByte(w, x), SecondByte(x, y), ThirdByte(y, z)] + rest) == [w, x, y, z] + Regroup(rest)
  {
    FourSextets(w, x, y, z);
    var b := [FirstByte(w, x), SecondByte(x, y), ThirdByte(y, z)] + rest;
    assert b[3..] == rest;
  }

  lemma CanonicalTail(q: seq<Sextet>)
    requires |q| >= 4
    ensures Canonical(q) <==> Canonical(q[4..])
  {
    assert |q[4..]| % 4 == |q| % 4;
  }

  lemma HeadAndTail(q: seq<Sextet>, g: seq<Sextet>, tail: seq<Sextet>)
    requires |q| >= 4 && g == [q[0], q[1], q[2], q[3]] + tail
    ensures g == q <==> tail == q[4..]
  {
    assert g[4..] == tail;
    assert q == [q[0], q[1], q[2], q[3]] + q[4..];
  }

  lemma FourSextets(w: Sextet, x: Sextet, y: Sextet, z: Sextet)
    ensures FirstByte(w, x) / 4 == w
    ensures FirstByte(w, x) % 4 * 16 + SecondByte(x, y) / 16 == x
    ensures SecondByte(x, y) % 16 * 4 + ThirdByte(y, z) / 64 == y
    ensures ThirdByte(y, z) % 64 == z
    ensures FirstByte(w, x) % 4 * 16 == x <==> x % 16 == 0
    ensures SecondByte(x, y) % 16 * 4 == y <==> y % 4 == 0
  {
  }

  lemma CharOfSextet(c: char)
    requires InAlphabet(c)
    ensures CharOf(SextetOf(c)) == c
  {
  }

  /** A text that decodes is the encoding of its bytes exactly when it has no line break and no stray low bits. */
  lemma EncodeOfDecodeIff(s: string)
    requires Decode(s).Some?
    ensures Encode(Decode(s).value) == s <==> AllInAlphabet(s) && Canonical(Sextets(DropLineBreaks(s)))
  {
    var t := DropLineBreaks(s);
    var q := Sextets(t);
    var b := Bytes(q).value;
    RegroupOfBytes(q);
    var e := Encode(b);
    forall i | 0 <= i < |e| ensures InAlphabet(e[i]) && SextetOf(e[i]) == Regroup(b)[i] {
      CharsAreDistinct(Regroup(b)[i]);
    }
    if AllInAlphabet(s) {
      NoLineBreaksToDrop(s);
      forall i | 0 <= i < |t| ensures CharOf(q[i]) == t[i] {
        CharOfSextet(t[i]);
      }
      if e == s {
        assert q == Regroup(b);
      }
    }
  }

  // ---- What the encoding is

  const CAPITALS := "ABCDEFGHIJKLMNOPQRSTUVWXYZ"
  const SMALL_LETTERS := "abcdefghijklmnopqrstuvwxyz"
  const ALPHABET := CAPITALS + SMALL_LETTERS + "0123456789+/"

  lemma AlphabetIs(c: char)
    ensures InAlphabet(c) <==> c in ALPHABET
  {
    CapitalsAre(c);
    SmallLettersAre(c);
    assert c in ALPHABET <==> c in CAPITALS || c in SMALL_LETTERS || c in "0123456789+/";
  }

  lemma CapitalsAre(c: char)
    ensures 'A' <= c <= 'Z' <==> c in CAPITALS
  {
  }

  lemma SmallLettersAre(c: char)
    ensures 'a' <= c <= 'z' <==> c in SMALL_LETTERS
  {
  }

  /** The values go through the alphabet in order: capitals, small letters, digits, plus and slash. */
  lemma CharsGoInOrder(i: Sextet)
    ensures CharOf(0) == 'A' && CharOf(25) == 'Z' && CharOf(26) == 'a' && CharOf(51) == 'z'
    ensures CharOf(52) == '0' && CharOf(61) == '9' && CharOf(62) == '+' && CharOf(63) == '/'
    ensures i < 25 || 26 <= i < 51 || 52 <= i < 61 ==> CharOf(i + 1) as int == CharOf(i) as int + 1
  {
  }

  /** The number a sequence of digits stands for, in the given base. */
  function NumberOf(digits: seq<int>, base: int): int {
    if digits == [] then 0 else NumberOf(digits[..|digits| - 1], base) * base + digits[|digits| - 1]
  }

  lemma NumberOfFew(a: int, b: int, c: int, d: int, base: int)
    ensures NumberOf([a], base) == a
    ensures NumberOf([a, b], base) == a * base + b
    ensures NumberOf([a, b, c], base) == (a * base + b) * base + c
    ensures NumberOf([a, b, c, d], base) == ((a * base + b) * base + c) * base + d
  {
    assert [a][..0] == [] && [a, b][..1] == [a] && [a, b, c][..2] == [a, b] && [a, b, c, d][..3] == [a, b, c];
  }

  /** Three bytes and their four sextets are the same 24-bit number; a short group is padded with zero bits. */
  lemma GroupsHoldTheSameBits(x: byte, y: byte, z: byte)
    ensures |Regroup([x, y, z])| == 4 && NumberOf([x, y, z], 256) == NumberOf(Regroup([x, y, z]), 64)
    ensures |Regroup([x, y])| == 3 && NumberOf([x, y], 256) * 4 == NumberOf(Regroup([x, y]), 64)
    ensures |Regroup([x])| == 2 && NumberOf([x], 256) * 16 == NumberOf(Regroup([x]), 64)
  {
    assert [x, y, z][3..] == [];
    assert Regroup([x, y, z]) == [x / 4, x % 4 * 16 + y / 16, y % 16 * 4 + z / 64, z % 64];
    NumberOfFew(x, y, z, 0, 256);
    NumberOfFew(x / 4, x % 4 * 16 + y / 16, y % 16 * 4 + z / 64, z % 64, 64);
    NumberOfFew(x / 4, x % 4 * 16 + y / 16, y % 16 * 4, 0, 64);
    NumberOfFew(x / 4, x % 4 * 16, 0, 0, 64);
    Recombine(x, y, z);
  }

  lemma Recombine(x: byte, y: byte, z: byte)
    ensures x * 16 == x / 4 * 64 + x % 4 * 16
    ensures y * 4 == y / 16 * 64 + y % 16 * 4
    ensures z == z / 64 * 64 + z % 64
  {
  }

  /** A longer text is encoded three bytes at a time. */
  lemma EncodesInThrees(b: seq<byte>)
    requires |b| >= 3
    ensures Encode(b) == Encode(b[..3]) + Encode(b[3..])
  {
    assert b[..3][3..] == [];
    assert Regroup(b[..3]) == Regroup(b)[..4] && Regroup(b)[4..] == Regroup(b[3..]);
    assert Regroup(b) == Regroup(b[..3]) + Regroup(b[3..]);
    forall i | 0 <= i < |Encode(b)| ensures Encode(b)[i] == (Encode(b[..3]) + Encode(b[3..]))[i] {
    }
  }

  // ---- When decoding fails

  lemma {:induction false} DropLineBreaksSplits(a: string, b: string)
    ensures DropLineBreaks(a + b) == DropLineBreaks(a) + DropLineBreaks(b)
  {
    if a == [] {
      assert a + b == b;
    } else {
      assert (a + b)[0] == a[0] && (a + b)[1..] == a[1..] + b;
      DropLineBreaksSplits(a[1..], b);
    }
  }

  /** A line break anywhere makes no difference. */
  lemma LineBreaksAreIgnored(a: string, b: string)
    ensures Decode(a + "\n" + b) == Decode(a + b) && Decode(a + "\r" + b) == Decode(a + b)
  {
    LineBreakIsDropped(a, '\n', b);
    LineBreakIsDropped(a, '\r', b);
  }

  lemma LineBreakIsDropped(a: string, c: char, b: string)
    requires c == '\n' || c == '\r'
    ensures DropLineBreaks(a + [c] + b) == DropLineBreaks(a + b)
  {
    assert [c][1..] == [] && DropLineBreaks([c]) == [];
    DropLineBreaksSplits(a, b);
    DropLineBreaksSplits(a, [c]);
    DropLineBreaksSplits(a + [c], b);
  }

  lemma {:induction false} BytesFailIff(q: seq<Sextet>)
    ensures Bytes(q).None? <==> |q| % 4 == 1
  {
    if |q| >= 4 {
      BytesFailIff(q[4..]);
    }
  }

  /** A text without line breaks fails to decode exactly when it has a foreign character or one character too many. */
  lemma DecodeFailsIff(s: string)
    requires '\r' !in s && '\n' !in s
    ensures Decode(s).None? <==> (exists i :: 0 <= i < |s| && s[i] !in ALPHABET) || |s| % 4 == 1
  {
    NothingDropped(s);
    forall i | 0 <= i < |s| ensures InAlphabet(s[i]) <==> s[i] in ALPHABET {
      AlphabetIs(s[i]);
    }
    if AllInAlphabet(s) {
      BytesFailIff(Sextets(s));
    }
  }

  lemma {:induction false} NothingDropped(s: string)
    requires '\r' !in s && '\n' !in s
    ensures DropLineBreaks(s) == s
  {
    if s != [] {
      assert s[0] in s && forall c :: c in s[1..] ==> c in s;
      NothingDropped(s[1..]);
      assert [s[0]] + s[1..] == s;
    }
  }
}
