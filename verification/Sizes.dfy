// Byte sizes: internal/lima/sizes.go and the two places in internal/provider
// that compare a configured size with what Lima reports.

module Sizes {
  import opened Floats
  import opened Values

  const KIB: nat := 0x400
  const MIB: nat := 0x10_0000
  const GIB: nat := 0x4000_0000
  const TIB: nat := 0x100_0000_0000
  const INT64_LIMIT: nat := 0x8000_0000_0000_0000

  /** Converting a float to int64.  Go leaves the result open when the value
      does not fit; this is what amd64 gives. */
  function ToInt64(v: nat): int {
    if v < INT64_LIMIT then v else 0 - INT64_LIMIT
  }

  // ---------------------------------------------------------------------
  // The GiB flag
  // ---------------------------------------------------------------------

  datatype Flag = Refused | Flag(units: nat)

  /** The --memory and --disk argument for a byte count, as the float32 it
      denotes, counted in 2^-30 GiB.  Dividing by 2^30 is exact in both formats,
      so the value passes through float64 and then float32 significands; the
      decimal printed for a float32 is one that reads back as that float32. */
  function GiBFlagValue(bytes: int): Flag
    requires bytes < INT64_LIMIT
  {
    if bytes <= 0 then Refused
    else
      var units := Round(FLOAT32_BITS, Round(FLOAT64_BITS, bytes, 1), 1);
      if ToInt64(units) == bytes then Flag(units) else Refused
  }

  /** The byte count Lima works out from the flag. */
  function FlagBytes(flag: Flag): int
    requires flag.Flag?
  {
    ToInt64(Round(FLOAT32_BITS, flag.units, 1))
  }

  lemma FitsWider(n: nat)
    requires Fits(FLOAT32_BITS, n)
    ensures Fits(FLOAT64_BITS, n)
  {
    var m: nat, e: nat :| Scaled(FLOAT32_BITS, n, m, e);
    Pow2Monotone(FLOAT32_BITS, FLOAT64_BITS);
    assert Scaled(FLOAT64_BITS, n, m, e);
  }

  /** A size is accepted exactly when it is m * 2^e with m < 2^24, and Lima then
      sees the very same number of bytes. */
  lemma FlagIsExact(bytes: int)
    requires bytes < INT64_LIMIT
    ensures GiBFlagValue(bytes).Flag? <==> bytes > 0 && Fits(FLOAT32_BITS, bytes)
    ensures GiBFlagValue(bytes).Flag? ==> FlagBytes(GiBFlagValue(bytes)) == bytes
  {
    if bytes > 0 {
      RoundExact(FLOAT32_BITS, bytes);
      RoundExact(FLOAT64_BITS, bytes);
      var wide := Round(FLOAT64_BITS, bytes, 1);
      RoundTwice(FLOAT32_BITS, wide);
      if Fits(FLOAT32_BITS, bytes) { FitsWider(bytes); }
    }
  }

  /** Rounding twice to the same width is rounding once. */
  lemma RoundTwice(p: nat, n: nat)
    requires p > 0
    ensures Round(p, Round(p, n, 1), 1) == Round(p, n, 1)
    ensures Fits(p, Round(p, n, 1))
  {
    var k := Excess(p, n);
    var q := Nearest(n, Pow2(k));
    RoundInteger(p, n);
    SignificandBound(p, n);
    if q < Pow2(p) {
      assert Scaled(p, Round(p, n, 1), q, k);
    } else {
      Pow2Add(p, k);
      assert Pow2(0) == 1;
      Pow2Monotone(1, p);
      assert Scaled(p, Round(p, n, 1), 1, p + k);
    }
    FitsIsFixed(p, Round(p, n, 1));
  }

  /** Every whole number of MiB below 2^24 MiB is accepted. */
  lemma WholeMiBAccepted(mib: int)
    requires 0 < mib < 0x100_0000
    ensures GiBFlagValue(mib * MIB) == Flag(mib * MIB)
  {
    UnitPowers();
    Pow2Add(20, 4);
    assert Pow2(4) == 16;
    assert Scaled(FLOAT32_BITS, mib * MIB, mib, 20);
    FlagIsExact(mib * MIB);
  }

  // ---------------------------------------------------------------------
  // Printing
  // ---------------------------------------------------------------------

  function FormatInt(n: nat): (s: string)
    ensures s != ""
  {
    var digit := '0' + (n % 10) as char;
    if n < 10 then [digit] else FormatInt(n / 10) + [digit]
  }

  datatype Unit = Unit(name: string, exponent: nat)

  lemma UnitPowers()
    ensures Pow2(0) == 1 && Pow2(10) == KIB && Pow2(20) == MIB && Pow2(30) == GIB && Pow2(40) == TIB
  {
    assert Pow2(10) == KIB;
    Pow2Add(10, 10);
    Pow2Add(20, 10);
    Pow2Add(20, 20);
  }

  /** The largest unit that divides the size: its name, and its size as a power
      of two. */
  function UnitOf(bytes: nat): Unit {
    if bytes >= TIB && bytes % TIB == 0 then Unit("TiB", 40)
    else if bytes >= GIB && bytes % GIB == 0 then Unit("GiB", 30)
    else if bytes >= MIB && bytes % MIB == 0 then Unit("MiB", 20)
    else if bytes >= KIB && bytes % KIB == 0 then Unit("KiB", 10)
    else Unit("B", 0)
  }

  /** The number that is printed in front of the unit. */
  function Quotient(bytes: nat, unit: Unit): nat { Whole(bytes, Pow2(unit.exponent)) }

  function FormatSize(bytes: int): string {
    if bytes <= 0 then "0B" else FormatInt(Quotient(bytes, UnitOf(bytes))) + UnitOf(bytes).name
  }

  // ---------------------------------------------------------------------
  // Parsing
  // ---------------------------------------------------------------------

  datatype ParseError = EmptySize | Malformed | UnknownUnit | OutOfRange
  datatype Parsed = Bytes(n: int) | Rejected(error: ParseError)

  predicate IsDigit(c: char) { '0' <= c <= '9' }

  predicate IsLetter(c: char) { 'a' <= c <= 'z' || 'A' <= c <= 'Z' }

  /** White space for the pattern: \s of the regular expression. */
  predicate IsBlank(c: char) {
    var n := c as int;
    n == 32 || n == 9 || n == 10 || n == 12 || n == 13
  }

  /** White space for trimming: unicode.IsSpace. */
  predicate IsSpace(c: char) {
    var n := c as int;
    9 <= n <= 13 || n == 0x20 || n == 0x85 || n == 0xA0 || n == 0x1680 || 0x2000 <= n <= 0x200A
    || n == 0x2028 || n == 0x2029 || n == 0x202F || n == 0x205F || n == 0x3000
  }

  /** How many leading characters satisfy p. */
  function Span(p: char -> bool, s: string): (n: nat)
    ensures n <= |s|
  {
    if s != "" && p(s[0]) then 1 + Span(p, s[1..]) else 0
  }

  function SkipBlanks(s: string): string { if s != "" && IsBlank(s[0]) then SkipBlanks(s[1..]) else s }

  function TrimSpace(s: string): string
    decreases |s|
  {
    if s == "" then s
    else if IsSpace(s[0]) then TrimSpace(s[1..])
    else if IsSpace(s[|s| - 1]) then TrimSpace(s[..|s| - 1])
    else s
  }

  function ToUpper(s: string): string {
    seq(|s|, i requires 0 <= i < |s| => if 'a' <= s[i] <= 'z' then s[i] - 'a' + 'A' else s[i])
  }

  function DigitValue(c: char): nat { if IsDigit(c) then (c - '0') as int else 0 }

  /** The number a run of digits denotes. */
  function DecimalValue(digits: string): nat {
    if digits == "" then 0 else 10 * DecimalValue(digits[..|digits| - 1]) + DigitValue(digits[|digits| - 1])
  }

  function Pow10(n: nat): (r: nat)
    ensures r > 0
  {
    if n == 0 then 1 else 10 * Pow10(n - 1)
  }

  const UNITS: map<string, nat> := map[
    "" := 0, "B" := 0,
    "K" := 10, "KIB" := 10,
    "M" := 20, "MIB" := 20,
    "G" := 30, "GIB" := 30,
    "T" := 40, "TIB" := 40]

  /** A unit as a power of two. */
  function Exponent(unit: string): Option<nat> {
    if ToUpper(unit) in UNITS then Some(UNITS[ToUpper(unit)]) else None
  }

  /** A binary float format: significant bits, the exponent of the smallest
      unit, and the exponent of the first power of two that is infinite. */
  datatype Format = Format(bits: nat, ulp: nat, infinity: nat)

  function Float64(): Format { Format(FLOAT64_BITS, 1074, 1024) }

  /** The float nearest to digits / 10^places, in units of 2^-ulp. */
  function ParseFloat(f: Format, digits: nat, places: nat): nat {
    Round(f.bits, digits * Pow2(f.ulp), Pow10(places))
  }

  function LeadingDigits(s: string): (r: string)
    ensures |r| <= |s|
  {
    if s != "" && IsDigit(s[0]) then [s[0]] + LeadingDigits(s[1..]) else ""
  }

  /** The groups of the size pattern: a number, an optional fraction, and what
      follows after blanks. */
  datatype Parts = Parts(whole: string, fraction: string, unit: string)

  function SplitSize(t: string): Parts {
    var whole := LeadingDigits(t);
    var rest := t[|whole|..];
    var fraction := if rest != "" && rest[0] == '.' then LeadingDigits(rest[1..]) else "";
    var tail := if fraction != "" then rest[1 + |fraction|..] else rest;
    Parts(whole, fraction, SkipBlanks(tail))
  }

  /** What a size is made of, before any arithmetic. */
  datatype Reading = Reading(whole: string, fraction: string, exponent: nat) | Unreadable(error: ParseError)

  function ReadSize(s: string): Reading {
    var t := TrimSpace(s);
    var parts := SplitSize(t);
    if t == "" then Unreadable(EmptySize)
    else if parts.whole == "" || Span(IsLetter, parts.unit) != |parts.unit| then Unreadable(Malformed)
    else match Exponent(parts.unit)
      case None => Unreadable(UnknownUnit)
      case Some(e) => Reading(parts.whole, parts.fraction, e)
  }

  function ParseSize(s: string): Parsed {
    match ReadSize(s)
    case Unreadable(error) => Rejected(error)
    case Reading(whole, fraction, exponent) => Quantity(Float64(), whole, fraction, exponent)
  }

  /** The byte count of a number in a unit, through a given float format. */
  function Quantity(f: Format, whole: string, fraction: string, exponent: nat): Parsed {
    Scale(f, ParseFloat(f, DecimalValue(whole + fraction), |fraction|), exponent)
  }

  /** Multiplying a parsed float by a unit and cutting off the fraction. */
  function Scale(f: Format, value: nat, exponent: nat): Parsed {
    if value >= Pow2(f.infinity + f.ulp) then Rejected(OutOfRange)
    else Bytes(ToInt64(value * Pow2(exponent) / Pow2(f.ulp)))
  }

  // ---------------------------------------------------------------------
  // Printing and parsing back
  // ---------------------------------------------------------------------

  lemma {:induction false} FormatIntReads(n: nat)
    ensures forall c | c in FormatInt(n) :: IsDigit(c)
    ensures DecimalValue(FormatInt(n)) == n
  {
    if n >= 10 {
      FormatIntReads(n / 10);
      assert FormatInt(n)[..|FormatInt(n)| - 1] == FormatInt(n / 10);
    } else {
      assert DecimalValue("") == 0;
      assert FormatInt(n)[..0] == "";
    }
  }

  /** A run of characters of a class, followed by one outside it. */
  lemma {:induction false} SpanOf(p: char -> bool, a: string, b: string)
    requires forall c | c in a :: p(c)
    requires b == "" || !p(b[0])
    ensures Span(p, a + b) == |a|
  {
    if a == "" {
      assert a + b == b;
    } else {
      assert a[0] in a;
      assert (a + b)[1..] == a[1..] + b;
      SpanOf(p, a[1..], b);
    }
  }

  lemma {:induction false} LeadingDigitsOf(a: string, b: string)
    requires forall c | c in a :: IsDigit(c)
    requires b == "" || !IsDigit(b[0])
    ensures LeadingDigits(a + b) == a
  {
    if a == "" {
      assert a + b == b;
    } else {
      assert a[0] in a;
      assert (a + b)[1..] == a[1..] + b;
      LeadingDigitsOf(a[1..], b);
    }
  }

  predicate UnitName(name: string) {
    name == "TiB" || name == "GiB" || name == "MiB" || name == "KiB" || name == "B"
  }

  lemma UnitNameEnds(name: string)
    requires UnitName(name)
    ensures name != "" && !IsDigit(name[0]) && !IsBlank(name[0]) && name[0] != '.' && !IsSpace(name[|name| - 1])
  {
  }

  lemma UnitNameLetters(name: string)
    requires UnitName(name)
    ensures Span(IsLetter, name) == |name|
  {
    assert name + "" == name;
    SpanOf(IsLetter, name, "");
  }

  lemma UnitNameScales(bytes: nat)
    ensures var u := UnitOf(bytes); UnitName(u.name) && Exponent(u.name) == Some(u.exponent)
  {
    assert ToUpper("TiB") == "TIB" && ToUpper("GiB") == "GIB" && ToUpper("MiB") == "MIB";
    assert ToUpper("KiB") == "KIB" && ToUpper("B") == "B";
  }

  /** Nothing is trimmed from a printed size. */
  lemma PrintedIsTrimmed(n: nat, name: string)
    requires name != "" && !IsSpace(name[|name| - 1])
    ensures TrimSpace(FormatInt(n) + name) == FormatInt(n) + name
  {
    var digits := FormatInt(n);
    var t := digits + name;
    FormatIntReads(n);
    assert digits[0] in digits && IsDigit(digits[0]);
    assert t[0] == digits[0] && t[|t| - 1] == name[|name| - 1];
  }

  /** Digits followed directly by a unit come apart again. */
  lemma SplitPrinted(digits: string, name: string)
    requires forall c | c in digits :: IsDigit(c)
    requires name != "" && !IsDigit(name[0]) && !IsBlank(name[0]) && name[0] != '.'
    ensures SplitSize(digits + name) == Parts(digits, "", name)
  {
    LeadingDigitsOf(digits, name);
    assert (digits + name)[|digits|..] == name;
  }

  /** Reading a printed number and unit gives them back. */
  lemma ReadPrinted(n: nat, name: string, e: nat)
    requires name != "" && !IsDigit(name[0]) && !IsBlank(name[0]) && name[0] != '.' && !IsSpace(name[|name| - 1])
    requires Span(IsLetter, name) == |name| && Exponent(name) == Some(e)
    ensures ReadSize(FormatInt(n) + name) == Reading(FormatInt(n), "", e)
  {
    PrintedIsTrimmed(n, name);
    FormatIntReads(n);
    SplitPrinted(FormatInt(n), name);
  }

  lemma WholeQuantity(f: Format, n: nat, e: nat)
    ensures Quantity(f, FormatInt(n), "", e) == Scale(f, ParseFloat(f, n, 0), e)
  {
    FormatIntReads(n);
    assert FormatInt(n) + "" == FormatInt(n);
  }

  lemma ParsePrinted(n: nat, name: string, e: nat)
    requires name != "" && !IsDigit(name[0]) && !IsBlank(name[0]) && name[0] != '.' && !IsSpace(name[|name| - 1])
    requires Span(IsLetter, name) == |name| && Exponent(name) == Some(e)
    ensures ParseSize(FormatInt(n) + name) == Scale(Float64(), ParseFloat(Float64(), n, 0), e)
  {
    ReadPrinted(n, name, e);
    WholeQuantity(Float64(), n, e);
  }

  /** n is what is printed: quotient times unit. */
  lemma QuotientTimesUnit(bytes: nat)
    ensures Quotient(bytes, UnitOf(bytes)) * Pow2(UnitOf(bytes).exponent) == bytes
  {
    UnitPowers();
    var size := Pow2(UnitOf(bytes).exponent);
    assert bytes % size == 0;
    DividedTimes(bytes, size);
  }

  lemma DividedTimes(n: nat, d: nat)
    requires d > 0 && n % d == 0
    ensures n / d * d == n
  {
  }

  lemma Int64Power()
    ensures Pow2(63) == INT64_LIMIT
  {
    UnitPowers();
    Pow2Add(40, 20);
    Pow2Add(60, 3);
    assert Pow2(3) == 8;
  }

  /** Whatever a whole number q parses to is again a whole number, which is what
      gets multiplied by the unit. */
  lemma ParsedInteger(f: Format, q: nat, e: nat) returns (q': nat)
    requires f.bits > 0
    ensures ParseFloat(f, q, 0) == q' * Pow2(f.ulp)
    ensures ParseFloat(f, q, 0) * Pow2(e) / Pow2(f.ulp) == q' * Pow2(e)
  {
    assert Pow10(0) == 1;
    q' := RoundKeepsFactor(f.bits, q, f.ulp);
    MulAssoc(q', Pow2(f.ulp), Pow2(e));
    MulAssoc(q', Pow2(e), Pow2(f.ulp));
    DivUnique(ParseFloat(f, q, 0) * Pow2(e), Pow2(f.ulp), q' * Pow2(e), 0);
  }

  /** It is q itself exactly when the bits of q fit. */
  lemma ParsedExactly(f: Format, q: nat, q': nat)
    requires f.bits > 0 && ParseFloat(f, q, 0) == q' * Pow2(f.ulp)
    ensures q' == q <==> Fits(f.bits, q)
  {
    assert Pow10(0) == 1;
    RoundExact(f.bits, q * Pow2(f.ulp));
    FitsScaled(f.bits, q, f.ulp);
    if q' != q { Cancelled(q', q, Pow2(f.ulp)); }
  }

  /** Parsing a whole number in some unit gives it back exactly when its bits fit
      the float format. */
  lemma ScaleExact(f: Format, q: nat, e: nat)
    requires f.bits > 0 && f.infinity >= 64
    requires q * Pow2(e) < INT64_LIMIT
    ensures Scale(f, ParseFloat(f, q, 0), e) == Bytes(q * Pow2(e)) <==> Fits(f.bits, q)
  {
    var q' := ParsedInteger(f, q, e);
    ParsedExactly(f, q, q');
    if q' == q {
      BelowInfinity(f, q, e, ParseFloat(f, q, 0));
    } else {
      Cancelled(q', q, Pow2(e));
    }
  }

  lemma Cancelled(a: nat, b: nat, c: nat)
    requires a != b && c > 0
    ensures a * c != b * c
  {
    MulOrder(a, b, c);
    MulOrder(b, a, c);
  }

  /** No int64 size parses to an infinite or zero float. */
  lemma ScaleFinite(f: Format, q: nat, e: nat)
    requires f.bits > 0 && f.infinity >= 64
    requires 0 < q * Pow2(e) < INT64_LIMIT
    ensures Scale(f, ParseFloat(f, q, 0), e).Bytes? && Scale(f, ParseFloat(f, q, 0), e).n != 0
  {
    var u := Pow2(f.ulp);
    var value := ParseFloat(f, q, 0);
    assert Pow10(0) == 1;
    MulOrder(q, 0, u);
    MulOrder(1, u, q);
    RoundWithinDouble(f.bits, q * u);
    var q' := ParsedInteger(f, q, e);
    MulOrder(1, Pow2(e), q');
    BelowInfinity(f, q, e, value);
  }

  lemma BelowInfinity(f: Format, q: nat, e: nat, value: nat)
    requires f.infinity >= 64 && q * Pow2(e) < INT64_LIMIT && value <= 2 * (q * Pow2(f.ulp))
    ensures value < Pow2(f.infinity + f.ulp)
  {
    Int64Power();
    MulOrder(1, Pow2(e), q);
    assert Pow2(64) == 2 * INT64_LIMIT;
    Pow2Monotone(64, f.infinity);
    Pow2Add(f.infinity, f.ulp);
    MulAssoc(2, q, Pow2(f.ulp));
    MulOrder(2 * q, Pow2(f.infinity), Pow2(f.ulp));
  }

  /** Printing a size and reading it back returns it, for exactly those sizes
      whose printed number has at most 53 significant bits. */
  lemma FormatThenParse(bytes: nat)
    requires bytes < INT64_LIMIT
    ensures ParseSize(FormatSize(bytes)) == Bytes(bytes) <==> Fits(FLOAT64_BITS, Quotient(bytes, UnitOf(bytes)))
  {
    var u := UnitOf(bytes);
    var q := Quotient(bytes, u);
    UnitNameScales(bytes);
    QuotientTimesUnit(bytes);
    FormatSizePrints(bytes);
    UnitNameEnds(u.name);
    UnitNameLetters(u.name);
    ParsePrinted(q, u.name, u.exponent);
    ScaleExact(Float64(), q, u.exponent);
  }

  lemma FormatSizePrints(bytes: nat)
    ensures FormatSize(bytes) == FormatInt(Quotient(bytes, UnitOf(bytes))) + UnitOf(bytes).name
  {
    if bytes == 0 {
      assert FormatInt(0) == "0";
    }
  }

  const TWO_TO_THE_53: nat := 0x20_0000_0000_0000

  /** In particular whenever the printed number is at most 2^53. */
  lemma SmallSizesRoundTrip(bytes: nat)
    requires bytes < INT64_LIMIT && Quotient(bytes, UnitOf(bytes)) <= TWO_TO_THE_53
    ensures ParseSize(FormatSize(bytes)) == Bytes(bytes)
  {
    SmallFits(Quotient(bytes, UnitOf(bytes)));
    FormatThenParse(bytes);
  }

  lemma SmallFits(q: nat)
    requires q <= TWO_TO_THE_53
    ensures Fits(FLOAT64_BITS, q)
  {
    UnitPowers();
    Pow2Add(40, 10);
    Pow2Add(50, 3);
    assert Pow2(1) == 2 && Pow2(3) == 8;
    if q < TWO_TO_THE_53 {
      assert Scaled(FLOAT64_BITS, q, q, 0);
    } else {
      assert Scaled(FLOAT64_BITS, q, 1, FLOAT64_BITS);
    }
  }

  // ---------------------------------------------------------------------
  // Refreshing and planning a size attribute
  // ---------------------------------------------------------------------

  /** observedSize: what refresh records for a configured size. */
  function ObservedSize(configured: Value<string>, observed: int): Value<string> {
    if configured.Null? || observed <= 0 then configured
    else if ParseSize(configured.Or("")) == Bytes(observed) then configured
    else Known(FormatSize(observed))
  }

  datatype Change = Invalid | Change(bytes: int)

  /** The size part of resizeRequest; zero asks for nothing. */
  function SizeChange(planned: Value<string>, current: Value<string>): Change {
    if !planned.Known? then Change(0)
    else match ParseSize(planned.v)
      case Rejected(_) => Invalid
      case Bytes(want) =>
        if !current.Null? && ParseSize(current.Or("")) == Bytes(want) then Change(0) else Change(want)
  }

  /** Refreshing twice is refreshing once. */
  lemma ObservedSizeIdempotent(configured: Value<string>, observed: int)
    ensures ObservedSize(ObservedSize(configured, observed), observed) == ObservedSize(configured, observed)
  {
  }

  /** Planning against a refreshed size asks for exactly the planned byte count
      when that differs from the observed one, and for nothing otherwise. */
  ghost predicate PlansAgainst(current: Value<string>, observed: nat) {
    forall planned: string | ParseSize(planned).Bytes? ::
      SizeChange(Known(planned), current)
        == Change(if ParseSize(planned).n == observed then 0 else ParseSize(planned).n)
  }

  /** That holds exactly when the configured spelling already meant the observed
      size or the observed size prints exactly. */
  lemma RefreshThenPlan(configured: Value<string>, observed: nat)
    requires !configured.Null? && 0 < observed < INT64_LIMIT
    ensures PlansAgainst(ObservedSize(configured, observed), observed)
       <==> (|| ParseSize(configured.Or("")) == Bytes(observed)
             || Fits(FLOAT64_BITS, Quotient(observed, UnitOf(observed))))
  {
    FormatThenParse(observed);
    if ParseSize(configured.Or("")) != Bytes(observed) && !Fits(FLOAT64_BITS, Quotient(observed, UnitOf(observed))) {
      // The recorded spelling itself, planned again, is not seen as a change.
      var u := UnitOf(observed);
      var printed := FormatSize(observed);
      UnitNameScales(observed);
      QuotientTimesUnit(observed);
      UnitNameEnds(u.name);
      UnitNameLetters(u.name);
      ParsePrinted(Quotient(observed, u), u.name, u.exponent);
      ScaleFinite(Float64(), Quotient(observed, u), u.exponent);
      assert ParseSize(printed).Bytes? && ParseSize(printed).n != 0;
      assert ObservedSize(configured, observed) == Known(printed);
      assert SizeChange(Known(printed), Known(printed)) == Change(0);
    }
  }
}
