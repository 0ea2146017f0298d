/** The encoded argon2id hash: what is printed is what is parsed back. The key derivation is a parameter. */
module PasswordHash {
  import opened Common
  import opened Base64
  import Decimal

  datatype Cost = Cost(memory: nat, time: nat, threads: nat)

  datatype Parsed = Parsed(cost: Cost, salt: seq<byte>, key: seq<byte>)

  datatype Verdict = Match | Mismatch | InvalidHash

  /** Derives a key of the given length from password, salt and cost. */
  type KeyDerivation = (seq<byte>, seq<byte>, Cost, nat) -> seq<byte>

  const ARGON_VERSION: nat := 19
  const DEFAULT_COST := Cost(64 * 1024, 1, 4)
  const KEY_LENGTH: nat := 32

  predicate InRange(c: Cost) {
    c.memory < 0x1_0000_0000 && c.time < 0x1_0000_0000 && c.threads < 0x100
  }

  // ---- Printing

  function PrintCost(c: Cost): string {
    "m=" + (Decimal.Print(c.memory) + (",t=" + (Decimal.Print(c.time) + (",p=" + Decimal.Print(c.threads)))))
  }

  function Encoded(c: Cost, salt: seq<byte>, key: seq<byte>): string {
    EncodedAs("argon2id", ARGON_VERSION, c, salt, key)
  }

  /** A hash of this shape, of any variant and version. */
  function EncodedAs(variant: string, version: nat, c: Cost, salt: seq<byte>, key: seq<byte>): string {
    "" + "$" + (variant + "$" + (("v=" + Decimal.Print(version)) + "$" +
      (PrintCost(c) + "$" + (Encode(salt) + "$" + Encode(key)))))
  }

  function HashPassword(kdf: KeyDerivation, password: seq<byte>, salt: seq<byte>): string {
    Encoded(DEFAULT_COST, salt, kdf(password, salt, DEFAULT_COST, KEY_LENGTH))
  }

  // ---- Parsing

  /** Splitting at every separator; a text without one is its own single part. */
  function Split(s: string): (parts: seq<string>)
    ensures parts != []
  {
    if s == [] then [[]]
    else
      var rest := Split(s[1..]);
      if s[0] == '$' then [[]] + rest else [[s[0]] + rest[0]] + rest[1..]
  }

  /** Blanks that a number verb skips; a line break is not among them. */
  predicate IsBlank(c: char) {
    || c == '\t' || '\U{0B}' <= c <= '\r' || c == ' ' || c == '\U{85}' || c == '\U{A0}' || c == '\U{1680}'
    || '\U{2000}' <= c <= '\U{200A}' || c == '\U{2028}' || c == '\U{2029}' || c == '\U{202F}'
    || c == '\U{205F}' || c == '\U{3000}'
  }

  function SkipBlanks(s: string): string {
    if s != [] && IsBlank(s[0]) then SkipBlanks(s[1..]) else s
  }

  function DigitCount(s: string): (n: nat)
    ensures n <= |s| && Decimal.AllDigits(s[..n])
    ensures n < |s| ==> !Decimal.IsDigit(s[n])
  {
    if s == [] || !Decimal.IsDigit(s[0]) then 0 else 1 + DigitCount(s[1..])
  }

  /** A number and what follows it; a number with no digit is none. */
  datatype Scan = Scan(value: nat, rest: string)

  function ScanDigits(s: string): Option<Scan> {
    var n := DigitCount(s);
    if n == 0 then None else Some(Scan(Decimal.Value(s[..n]), s[n..]))
  }

  /** An unsigned number that fits below `limit`. */
  function ScanUnsigned(s: string, limit: nat): Option<Scan> {
    match ScanDigits(SkipBlanks(s))
    case None => None
    case Some(n) => if n.value < limit then Some(n) else None
  }

  function ScanLiteral(s: string, literal: string): Option<string> {
    if literal <= s then Some(s[|literal|..]) else None
  }

  /** The version part: a sign may precede the digits, anything may follow them. */
  predicate VersionMatches(part: string) {
    match ScanLiteral(part, "v=")
    case None => false
    case Some(s) => IsVersion(SkipBlanks(s))
  }

  predicate IsVersion(t: string) {
    if t != [] && t[0] == '-' then false
    else
      match ScanDigits(if t != [] && t[0] == '+' then t[1..] else t)
      case None => false
      case Some(n) => n.value == ARGON_VERSION
  }

  function ScanField(s: string, literal: string, limit: nat): Option<Scan> {
    match ScanLiteral(s, literal)
    case None => None
    case Some(t) => ScanUnsigned(t, limit)
  }

  function ParseCost(part: string): Option<Cost> {
    match ScanField(part, "m=", 0x1_0000_0000)
    case None => None
    case Some(m) =>
      match ScanField(m.rest, ",t=", 0x1_0000_0000)
      case None => None
      case Some(t) =>
        match ScanField(t.rest, ",p=", 0x100)
        case None => None
        case Some(p) => Some(Cost(m.value, t.value, p.value))
  }

  function Parse(encoded: string): Option<Parsed> {
    ParseParts(Split(encoded))
  }

  function ParseParts(parts: seq<string>): Option<Parsed> {
    if |parts| != 6 || parts[1] != "argon2id" || !VersionMatches(parts[2]) then None
    else
      match (ParseCost(parts[3]), Decode(parts[4]), Decode(parts[5]))
      case (Some(cost), Some(salt), Some(key)) => Some(Parsed(cost, salt, key))
      case _ => None
  }

  function VerifyPassword(kdf: KeyDerivation, password: seq<byte>, encoded: string): Verdict {
    match Parse(encoded)
    case None => InvalidHash
    case Some(p) => if kdf(password, p.salt, p.cost, |p.key|) == p.key then Match else Mismatch
  }

  // ---- Parsing undoes printing

  lemma {:induction false} SplitAtFirst(a: string, rest: string)
    requires '$' !in a
    ensures Split(a + "$" + rest) == [a] + Split(rest)
  {
    if a == [] {
      assert (a + "$" + rest)[1..] == rest;
    } else {
      SplitAtFirst(a[1..], rest);
      assert (a + "$" + rest)[1..] == a[1..] + "$" + rest;
      assert [a[0]] + a[1..] == a;
      assert ([a[1..]] + Split(rest))[1..] == Split(rest);
    }
  }

  lemma {:induction false} SplitOfPlain(a: string)
    requires '$' !in a
    ensures Split(a) == [a]
  {
    if a != [] {
      SplitOfPlain(a[1..]);
      assert [a[0]] + a[1..] == a;
    }
  }

  lemma {:induction false} DigitCountOf(digits: string, rest: string)
    requires Decimal.AllDigits(digits) && (rest == [] || !Decimal.IsDigit(rest[0]))
    ensures DigitCount(digits + rest) == |digits|
  {
    if digits == [] {
      assert digits + rest == rest;
    } else {
      assert (digits + rest)[1..] == digits[1..] + rest;
      DigitCountOf(digits[1..], rest);
    }
  }

  /** A printed number is scanned back whole, up to the first character that is not a digit. */
  lemma ScanOfPrint(n: nat, rest: string)
    requires rest == [] || !Decimal.IsDigit(rest[0])
    ensures SkipBlanks(Decimal.Print(n) + rest) == Decimal.Print(n) + rest
    ensures ScanDigits(Decimal.Print(n) + rest) == Some(Scan(n, rest))
  {
    var digits := Decimal.Print(n);
    DigitCountOf(digits, rest);
    Decimal.ValueOfPrint(n);
    assert (digits + rest)[..|digits|] == digits && (digits + rest)[|digits|..] == rest;
    assert Decimal.IsDigit((digits + rest)[0]);
  }

  lemma FieldOfPrint(literal: string, n: nat, rest: string, limit: nat)
    requires n < limit && (rest == [] || !Decimal.IsDigit(rest[0]))
    ensures ScanField(literal + (Decimal.Print(n) + rest), literal, limit) == Some(Scan(n, rest))
  {
    var s := literal + (Decimal.Print(n) + rest);
    assert s[|literal|..] == Decimal.Print(n) + rest;
    ScanOfPrint(n, rest);
  }

  lemma ParseOfPrintCost(c: Cost)
    requires InRange(c)
    ensures ParseCost(PrintCost(c)) == Some(c)
  {
    var p := ",p=" + Decimal.Print(c.threads);
    var t := ",t=" + (Decimal.Print(c.time) + p);
    FieldOfPrint("m=", c.memory, t, 0x1_0000_0000);
    FieldOfPrint(",t=", c.time, p, 0x1_0000_0000);
    FieldOfPrint(",p=", c.threads, "", 0x100);
    assert Decimal.Print(c.threads) + "" == Decimal.Print(c.threads);
  }

  lemma PrintedVersionMatches()
    ensures VersionMatches("v=" + Decimal.Print(ARGON_VERSION))
  {
    var digits := Decimal.Print(ARGON_VERSION);
    assert digits + "" == digits;
    VersionAfterLiteral(digits);
    ScanOfPrint(ARGON_VERSION, "");
    assert Decimal.IsDigit(digits[0]);
  }

  lemma VersionAfterLiteral(s: string)
    ensures VersionMatches("v=" + s) == IsVersion(SkipBlanks(s))
  {
    assert ("v=" + s)[2..] == s;
  }

  lemma NoSeparatorInNumbers(c: Cost, version: nat)
    ensures '$' !in PrintCost(c) && '$' !in "v=" + Decimal.Print(version)
  {
    assert forall n :: '$' !in Decimal.Print(n);
  }

  /** Whatever the salt, the key and the cost in range, the printed string parses to exactly those values. */
  lemma ParseOfEncoded(c: Cost, salt: seq<byte>, key: seq<byte>)
    requires InRange(c)
    ensures Parse(Encoded(c, salt, key)) == Some(Parsed(c, salt, key))
  {
    var encoded := Encoded(c, salt, key);
    SplitOfEncoded(c, salt, key);
    DecodeOfEncode(salt);
    DecodeOfEncode(key);
    ParseOfPrintCost(c);
    PrintedVersionMatches();
    SixGoodParts(encoded, "v=" + Decimal.Print(ARGON_VERSION), PrintCost(c), Encode(salt), Encode(key), c, salt, key);
  }

  lemma SixGoodParts(
      encoded: string, version: string, cost: string, saltText: string, keyText: string,
      c: Cost, salt: seq<byte>, key: seq<byte>)
    requires Split(encoded) == ["", "argon2id", version, cost, saltText, keyText]
    requires VersionMatches(version) && ParseCost(cost) == Some(c)
    requires Decode(saltText) == Some(salt) && Decode(keyText) == Some(key)
    ensures Parse(encoded) == Some(Parsed(c, salt, key))
  {
    assert ParseParts(Split(encoded)) == Some(Parsed(c, salt, key));
  }

  lemma SplitOfEncoded(c: Cost, salt: seq<byte>, key: seq<byte>)
    ensures Split(Encoded(c, salt, key))
         == ["", "argon2id", "v=" + Decimal.Print(ARGON_VERSION), PrintCost(c), Encode(salt), Encode(key)]
  {
    SplitOfEncodedAs("argon2id", ARGON_VERSION, c, salt, key);
  }

  lemma SplitOfEncodedAs(variant: string, number: nat, c: Cost, salt: seq<byte>, key: seq<byte>)
    requires '$' !in variant
    ensures Split(EncodedAs(variant, number, c, salt, key))
         == ["", variant, "v=" + Decimal.Print(number), PrintCost(c), Encode(salt), Encode(key)]
  {
    var version, cost := "v=" + Decimal.Print(number), PrintCost(c);
    DecodeOfEncode(salt);
    DecodeOfEncode(key);
    NoSeparatorInNumbers(c, number);
    var e5 := Encode(salt) + "$" + Encode(key);
    var e4 := cost + "$" + e5;
    var e3 := version + "$" + e4;
    SplitOfPlain(Encode(key));
    SplitAtFirst(Encode(salt), Encode(key));
    SplitAtFirst(cost, e5);
    SplitAtFirst(version, e4);
    SplitAtFirst(variant, e3);
    SplitAtFirst("", variant + "$" + e3);
  }

  /** Verification uses the cost the string carries, and fails exactly when the derived keys differ. */
  lemma VerifyOfEncoded(kdf: KeyDerivation, password: seq<byte>, c: Cost, salt: seq<byte>, key: seq<byte>)
    requires InRange(c)
    ensures VerifyPassword(kdf, password, Encoded(c, salt, key))
         == if kdf(password, salt, c, |key|) == key then Match else Mismatch
  {
    ParseOfEncoded(c, salt, key);
  }

  /** A hash verifies its own password, and another password exactly when it derives the same key. */
  lemma VerifyOfHash(kdf: KeyDerivation, password: seq<byte>, attempt: seq<byte>, salt: seq<byte>)
    requires |kdf(password, salt, DEFAULT_COST, KEY_LENGTH)| == KEY_LENGTH
    ensures VerifyPassword(kdf, password, HashPassword(kdf, password, salt)) == Match
    ensures VerifyPassword(kdf, attempt, HashPassword(kdf, password, salt)) == Match
       <==> kdf(attempt, salt, DEFAULT_COST, KEY_LENGTH) == kdf(password, salt, DEFAULT_COST, KEY_LENGTH)
    ensures VerifyPassword(kdf, attempt, HashPassword(kdf, password, salt)) != InvalidHash
  {
    var key := kdf(password, salt, DEFAULT_COST, KEY_LENGTH);
    VerifyOfEncoded(kdf, password, DEFAULT_COST, salt, key);
    VerifyOfEncoded(kdf, attempt, DEFAULT_COST, salt, key);
  }

  /** Two encodings agree only if every parameter, salt and key agrees. */
  lemma EncodedIsInjective(c: Cost, salt: seq<byte>, key: seq<byte>, d: Cost, salt2: seq<byte>, key2: seq<byte>)
    requires InRange(c) && InRange(d) && Encoded(c, salt, key) == Encoded(d, salt2, key2)
    ensures c == d && salt == salt2 && key == key2
  {
    ParseOfEncoded(c, salt, key);
    ParseOfEncoded(d, salt2, key2);
  }

  /** Text before the first separator is not looked at. */
  lemma LeadingTextIsIgnored(c: Cost, salt: seq<byte>, key: seq<byte>, lead: string)
    requires InRange(c) && '$' !in lead
    ensures Parse(lead + Encoded(c, salt, key)) == Parse(Encoded(c, salt, key))
  {
    var tail := Encoded(c, salt, key)[1..];
    assert lead + Encoded(c, salt, key) == lead + "$" + tail;
    assert Encoded(c, salt, key) == "" + "$" + tail;
    SplitAtFirst(lead, tail);
    SplitAtFirst("", tail);
  }

  // ---- What is printed

  /** A new hash names the variant, the version and today's cost, and holds salt and key of 32 bytes in base64. */
  lemma HashIs(kdf: KeyDerivation, password: seq<byte>, salt: seq<byte>)
    ensures HashPassword(kdf, password, salt)
         == "$argon2id$v=19$m=65536,t=1,p=4$" + Encode(salt) + "$" + Encode(kdf(password, salt, Cost(65536, 1, 4), 32))
  {
    DefaultCostIs();
    var saltText, keyText := Encode(salt), Encode(kdf(password, salt, Cost(65536, 1, 4), 32));
    Assembled("argon2id", "v=19", "m=65536,t=1,p=4", saltText, keyText);
    assert "$" + "argon2id" + "$" + "v=19" + "$" + "m=65536,t=1,p=4" + "$" == "$argon2id$v=19$m=65536,t=1,p=4$";
  }

  lemma DefaultCostIs()
    ensures PrintCost(DEFAULT_COST) == "m=65536,t=1,p=4" && "v=" + Decimal.Print(ARGON_VERSION) == "v=19"
  {
    Decimal.PrintedAre();
    assert Decimal.Print(1) == "1" && Decimal.Print(4) == "4";
  }

  lemma Assembled(a: string, b: string, c: string, d: string, e: string)
    ensures "" + "$" + (a + "$" + (b + "$" + (c + "$" + (d + "$" + e))))
         == "$" + a + "$" + b + "$" + c + "$" + d + "$" + e
  {
  }

  // ---- When a text is no hash

  /**
   The printed cost is read back exactly when it fits the widths it is read into: 32, 32 and 8 bits.
   What follows the last number is not looked at.
   */
  lemma PrintedCostIsReadIff(c: Cost, rest: string)
    requires rest == [] || !Decimal.IsDigit(rest[0])
    ensures ParseCost(PrintCost(c) + rest)
         == if c.memory < 0x1_0000_0000 && c.time < 0x1_0000_0000 && c.threads < 0x100 then Some(c) else None
  {
    var p := ",p=" + (Decimal.Print(c.threads) + rest);
    var t := ",t=" + (Decimal.Print(c.time) + p);
    FieldOfAny("m=", c.memory, t, 0x1_0000_0000);
    FieldOfAny(",t=", c.time, p, 0x1_0000_0000);
    FieldOfAny(",p=", c.threads, rest, 0x100);
    AppendInside("m=", Decimal.Print(c.memory), ",t=", Decimal.Print(c.time), ",p=", Decimal.Print(c.threads), rest);
    ThreeFields(PrintCost(c) + rest, "m=" + (Decimal.Print(c.memory) + t), c, t, p, rest);
  }

  lemma AppendInside(a: string, b: string, c: string, d: string, e: string, f: string, rest: string)
    ensures a + (b + (c + (d + (e + f)))) + rest == a + (b + (c + (d + (e + (f + rest)))))
  {
  }

  lemma ThreeFields(text: string, part: string, c: Cost, t: string, p: string, rest: string)
    requires text == part
    requires ScanField(part, "m=", 0x1_0000_0000)
          == if c.memory < 0x1_0000_0000 then Some(Scan(c.memory, t)) else None
    requires ScanField(t, ",t=", 0x1_0000_0000) == if c.time < 0x1_0000_0000 then Some(Scan(c.time, p)) else None
    requires ScanField(p, ",p=", 0x100) == if c.threads < 0x100 then Some(Scan(c.threads, rest)) else None
    ensures ParseCost(text)
         == if c.memory < 0x1_0000_0000 && c.time < 0x1_0000_0000 && c.threads < 0x100 then Some(c) else None
  {
  }

  /** The blanks a number may be preceded by. */
  lemma BlanksAre(c: char)
    ensures IsBlank(c)
       <==> || c in "\t\U{0B}\U{0C}\r \U{85}\U{A0}\U{1680}\U{2028}\U{2029}\U{202F}\U{205F}\U{3000}"
            || '\U{2000}' <= c <= '\U{200A}'
  {
  }

  /** A blank before a number makes no difference. */
  lemma BlanksAreSkipped(c: char, s: string, limit: nat)
    requires IsBlank(c)
    ensures ScanUnsigned([c] + s, limit) == ScanUnsigned(s, limit)
  {
    assert ([c] + s)[1..] == s;
  }

  lemma FieldOfAny(literal: string, n: nat, rest: string, limit: nat)
    requires rest == [] || !Decimal.IsDigit(rest[0])
    ensures ScanField(literal + (Decimal.Print(n) + rest), literal, limit)
         == if n < limit then Some(Scan(n, rest)) else None
  {
    var s := literal + (Decimal.Print(n) + rest);
    assert s[|literal|..] == Decimal.Print(n) + rest;
    ScanOfPrint(n, rest);
  }

  /** The version is 19, perhaps with a plus sign; what follows the number is not looked at. */
  lemma PrintedVersionMatchesIff(version: nat, rest: string)
    requires rest == [] || !Decimal.IsDigit(rest[0])
    ensures VersionMatches("v=" + (Decimal.Print(version) + rest)) <==> version == 19
    ensures VersionMatches("v=" + ("+" + (Decimal.Print(version) + rest))) <==> version == 19
    ensures !VersionMatches("v=" + ("-" + (Decimal.Print(version) + rest)))
  {
    var digits := Decimal.Print(version) + rest;
    SignedVersion(version, rest);
    VersionAfterLiteral(digits);
    VersionAfterLiteral("+" + digits);
    VersionAfterLiteral("-" + digits);
  }

  lemma SignedVersion(version: nat, rest: string)
    requires rest == [] || !Decimal.IsDigit(rest[0])
    ensures var digits := Decimal.Print(version) + rest;
            && SkipBlanks(digits) == digits && (IsVersion(digits) <==> version == 19)
            && SkipBlanks("+" + digits) == "+" + digits && (IsVersion("+" + digits) <==> version == 19)
            && SkipBlanks("-" + digits) == "-" + digits && !IsVersion("-" + digits)
  {
    var digits := Decimal.Print(version) + rest;
    ScanOfPrint(version, rest);
    assert Decimal.IsDigit(digits[0]);
    assert ("+" + digits)[1..] == digits;
  }

  /**
   A text of the right shape is refused as no hash exactly when it is of another variant or another
   version, or its cost does not fit; otherwise it verifies exactly the passwords that derive its key.
   */
  lemma ForeignHashIsInvalidIff(
      kdf: KeyDerivation, password: seq<byte>, variant: string, version: nat, c: Cost, salt: seq<byte>, key: seq<byte>)
    requires '$' !in variant
    ensures VerifyPassword(kdf, password, EncodedAs(variant, version, c, salt, key)) ==
            if variant != "argon2id" || version != 19
               || c.memory >= 0x1_0000_0000 || c.time >= 0x1_0000_0000 || c.threads >= 0x100 then InvalidHash
            else if kdf(password, salt, c, |key|) == key then Match
            else Mismatch
  {
    ForeignHashIsReadIff(variant, version, c, salt, key);
  }

  lemma ForeignHashIsReadIff(variant: string, version: nat, c: Cost, salt: seq<byte>, key: seq<byte>)
    requires '$' !in variant
    ensures Parse(EncodedAs(variant, version, c, salt, key)) ==
            if variant == "argon2id" && version == 19
               && c.memory < 0x1_0000_0000 && c.time < 0x1_0000_0000 && c.threads < 0x100
            then Some(Parsed(c, salt, key)) else None
  {
    var encoded := EncodedAs(variant, version, c, salt, key);
    SplitOfEncodedAs(variant, version, c, salt, key);
    PrintedVersionMatchesIff(version, "");
    PrintedCostIsReadIff(c, "");
    assert Decimal.Print(version) + "" == Decimal.Print(version) && PrintCost(c) + "" == PrintCost(c);
    DecodeOfEncode(salt);
    DecodeOfEncode(key);
    PartsDecide(encoded, variant, "v=" + Decimal.Print(version), PrintCost(c), Encode(salt), Encode(key), c, salt, key);
  }

  lemma PartsDecide(
      encoded: string, variant: string, version: string, cost: string, saltText: string, keyText: string,
      c: Cost, salt: seq<byte>, key: seq<byte>)
    requires Split(encoded) == ["", variant, version, cost, saltText, keyText]
    requires Decode(saltText) == Some(salt) && Decode(keyText) == Some(key)
    requires ParseCost(cost) == None || ParseCost(cost) == Some(c)
    ensures Parse(encoded)
         == if variant == "argon2id" && VersionMatches(version) && ParseCost(cost).Some?
            then Some(Parsed(c, salt, key)) else None
  {
  }

  lemma {:induction false} SplitCounts(s: string)
    ensures |Split(s)| == multiset(s)['$'] + 1
  {
    if s != [] {
      SplitCounts(s[1..]);
      assert s == [s[0]] + s[1..];
    }
  }

  /** A text with any other number of separators than five is no hash. */
  lemma FiveSeparators(kdf: KeyDerivation, password: seq<byte>, s: string)
    requires multiset(s)['$'] != 5
    ensures VerifyPassword(kdf, password, s) == InvalidHash
  {
    SplitCounts(s);
  }
}
