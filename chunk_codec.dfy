/**
  The chunk header codec of the QR scanner: a scanned string either starts with the
  header `<<PART <part> of <total>>>` and yields a chunk descriptor, or it is rejected.
  Also holds the small pieces of JavaScript string behaviour the scanner relies on:
  `String.prototype.trim`, `parseInt` on a run of decimal digits, and the decimal
  rendering of a number inside a template literal.
*/
module ChunkCodec {
  import opened Options

  /** One decoded chunk: `part` and `total` as `parseInt` read them, `content` trimmed. */
  datatype Chunk = Chunk(part: nat, total: nat, content: string)

  // ---------------------------------------------------------------------------
  // Whitespace and trimming
  // ---------------------------------------------------------------------------

  /** The characters `String.prototype.trim` removes: ECMAScript WhiteSpace and LineTerminator. */
  predicate IsSpace(c: char) {
    || c == '\t' || c == '\n' || c == '\U{B}' || c == '\U{C}' || c == '\r' || c == ' '
    || c == '\U{A0}' || c == '\U{1680}' || ('\U{2000}' <= c <= '\U{200A}')
    || c == '\U{2028}' || c == '\U{2029}' || c == '\U{202F}' || c == '\U{205F}'
    || c == '\U{3000}' || c == '\U{FEFF}'
  }

  predicate AllSpace(s: string) {
    forall i :: 0 <= i < |s| ==> IsSpace(s[i])
  }

  /** Neither end of `s` is whitespace: what `trim` can return. */
  predicate IsTrimmed(s: string) {
    s == [] || (!IsSpace(s[0]) && !IsSpace(s[|s| - 1]))
  }

  /** Length of the whitespace run at the start of `s`. */
  function LeadingSpaces(s: string): (n: nat)
    ensures n <= |s|
    ensures forall i :: 0 <= i < n ==> IsSpace(s[i])
    ensures n < |s| ==> !IsSpace(s[n])
  {
    if |s| > 0 && IsSpace(s[0]) then 1 + LeadingSpaces(s[1..]) else 0
  }


  /** Length of the whitespace run at the end of `s`. */
  function TrailingSpaces(s: string): (n: nat)
    ensures n <= |s|
    ensures forall i :: |s| - n <= i < |s| ==> IsSpace(s[i])
    ensures n < |s| ==> !IsSpace(s[|s| - 1 - n])
  {
    if |s| > 0 && IsSpace(s[|s| - 1]) then 1 + TrailingSpaces(s[..|s| - 1]) else 0
  }


  /** `String.prototype.trim`: `s` without its leading and trailing whitespace. */
  function Trim(s: string): (r: string)
    ensures IsTrimmed(r)
    ensures var a := LeadingSpaces(s);
      && a + |r| <= |s| && s[a..a + |r|] == r
      && AllSpace(s[..a]) && AllSpace(s[a + |r|..])
  {
    var a := LeadingSpaces(s);
    var rest := s[a..];
    var r := rest[..|rest| - TrailingSpaces(rest)];
    assert s[a + |r|..] == rest[|rest| - TrailingSpaces(rest)..];
    r
  }

  /** Whitespace around a trimmed string is exactly what `Trim` removes. */
  lemma TrimSurrounded(a: string, c: string, b: string)
    requires AllSpace(a) && AllSpace(b) && IsTrimmed(c)
    ensures Trim(a + c + b) == c
  {
    var s := a + c + b;
    if c == [] {
      assert s == (a + b) + [];
      LeadingSpacesOfPadded(a + b, []);
    } else {
      assert s == a + (c + b);
      LeadingSpacesOfPadded(a, c + b);
      assert s[|a|..] == c + b;
      TrailingSpacesOfPadded(c, b);
    }
  }

  lemma LeadingSpacesOfPadded(a: string, t: string)
    requires AllSpace(a) && (t == [] || !IsSpace(t[0]))
    ensures LeadingSpaces(a + t) == |a|
  {
    var s := a + t;
    assert forall i :: 0 <= i < |a| ==> s[i] == a[i];
    assert |a| < |s| ==> s[|a|] == t[0];
  }

  lemma TrailingSpacesOfPadded(c: string, b: string)
    requires AllSpace(b) && IsTrimmed(c) && c != []
    ensures TrailingSpaces(c + b) == |b|
  {
    var s := c + b;
    assert forall i :: |c| <= i < |s| ==> s[i] == b[i - |c|];
    assert s[|c| - 1] == c[|c| - 1];
  }

  /** Trimming leaves a string with no surrounding whitespace as it is. */
  lemma TrimTrimmed(c: string)
    requires IsTrimmed(c)
    ensures Trim(c) == c
  {
    TrimSurrounded([], c, []);
    assert [] + c + [] == c;
  }

  // ---------------------------------------------------------------------------
  // Decimal digits
  // ---------------------------------------------------------------------------

  /** The regular-expression class `\d`: ASCII digits only. */
  predicate IsDigit(c: char) {
    '0' <= c <= '9'
  }

  /** A match of `\d+`. */
  predicate IsNumeral(s: string) {
    |s| > 0 && forall i :: 0 <= i < |s| ==> IsDigit(s[i])
  }

  /** Length of the digit run at the start of `s`: what a greedy `\d+` consumes. */
  function DigitRun(s: string): (n: nat)
    ensures n <= |s|
    ensures forall i :: 0 <= i < n ==> IsDigit(s[i])
    ensures n < |s| ==> !IsDigit(s[n])
  {
    if |s| > 0 && IsDigit(s[0]) then 1 + DigitRun(s[1..]) else 0
  }

  /** The digit run of a numeral followed by a non-digit is the numeral. */
  lemma DigitRunOfNumeral(d: string, t: string)
    requires IsNumeral(d) && (t == [] || !IsDigit(t[0]))
    ensures DigitRun(d + t) == |d|
  {
    var s := d + t;
    assert forall i :: 0 <= i < |d| ==> s[i] == d[i];
    assert |d| < |s| ==> s[|d|] == t[0];
  }

  function DigitValue(c: char): (v: nat)
    requires IsDigit(c)
    ensures v < 10
  {
    (c as int - '0' as int) as nat
  }

  function DigitChar(v: nat): (c: char)
    requires v < 10
    ensures IsDigit(c) && DigitValue(c) == v
  {
    ('0' as int + v) as char
  }

  /** `parseInt` of a string of decimal digits (leading zeros allowed). */
  function NumeralValue(s: string): nat
    requires forall i :: 0 <= i < |s| ==> IsDigit(s[i])
  {
    if s == [] then 0 else 10 * NumeralValue(s[..|s| - 1]) + DigitValue(s[|s| - 1])
  }

  /** The decimal rendering of a non-negative number, as `${n}` writes it. */
  function Decimal(n: nat): (s: string)
    ensures IsNumeral(s)
    ensures |s| > 1 ==> s[0] != '0'
  {
    if n < 10 then [DigitChar(n)] else Decimal(n / 10) + [DigitChar(n % 10)]
  }

  /** The rendering of a possibly negative integer, as `${i}` writes it. */
  function IntString(i: int): (s: string)
    ensures |s| > 0
    ensures (s[0] == '-') <==> i < 0
  {
    if i < 0 then "-" + Decimal(-i) else Decimal(i)
  }

  /** After the optional minus sign, `${i}` is the numeral of the magnitude of `i`. */
  lemma IntStringValue(i: int)
    ensures i < 0 ==> IsNumeral(IntString(i)[1..]) && NumeralValue(IntString(i)[1..]) == -i
    ensures i >= 0 ==> IsNumeral(IntString(i)) && NumeralValue(IntString(i)) == i
  {
    if i < 0 {
      assert IntString(i)[1..] == Decimal(-i);
      DecimalRoundTrip(-i);
    } else {
      DecimalRoundTrip(i);
    }
  }

  /** `parseInt` reads back what `${n}` writes. */
  lemma {:induction false} DecimalRoundTrip(n: nat)
    ensures NumeralValue(Decimal(n)) == n
  {
    if n >= 10 {
      var s := Decimal(n);
      DecimalRoundTrip(n / 10);
      assert s[..|s| - 1] == Decimal(n / 10);
    }
  }

  // ---------------------------------------------------------------------------
  // The chunk header
  // ---------------------------------------------------------------------------

  const PartMarker: string := "<<PART "
  const OfMarker: string := " of "
  const CloseMarker: string := ">>"

  /** A string of the header grammar, with the numerals `d1`, `d2` and the remainder `rest`. */
  function Framed(d1: string, d2: string, rest: string): string {
    PartMarker + (d1 + (OfMarker + (d2 + (CloseMarker + rest))))
  }

  /** Matches the literal `p` at the start of `s` and returns what follows it. */
  function Literal(s: string, p: string): Option<string> {
    if |p| <= |s| && s[..|p|] == p then Some(s[|p|..]) else None
  }

  /** The literal matches exactly when `s` starts with it, and what follows is the rest of `s`. */
  lemma LiteralSpec(s: string, p: string)
    ensures Literal(s, p).Some? <==> |p| <= |s| && s[..|p|] == p
    ensures Literal(s, p).Some? ==> s == p + Literal(s, p).value
  {
    if |p| <= |s| && s[..|p|] == p {
      assert s == s[..|p|] + s[|p|..];
    }
  }

  lemma LiteralOfConcat(p: string, t: string)
    ensures Literal(p + t, p) == Some(t)
  {
    assert (p + t)[..|p|] == p;
    assert (p + t)[|p|..] == t;
  }

  /** Matches a greedy `\d+` at the start of `s`: its value and what follows it. */
  function Number(s: string): Option<(nat, string)> {
    var n := DigitRun(s);
    if n == 0 then None else Some((NumeralValue(s[..n]), s[n..]))
  }

  /**
    A number is matched exactly when `s` starts with a digit; it splits `s` into a
    numeral and a remainder that does not start with a digit, and its value is the
    numeral's.
  */
  lemma NumberSpec(s: string) returns (d: string)
    ensures Number(s).Some? <==> |s| > 0 && IsDigit(s[0])
    ensures Number(s).Some? ==>
      && IsNumeral(d) && s == d + Number(s).value.1
      && Number(s).value.0 == NumeralValue(d)
      && (Number(s).value.1 == [] || !IsDigit(Number(s).value.1[0]))
  {
    var n := DigitRun(s);
    d := s[..n];
    assert s == s[..n] + s[n..];
  }

  lemma NumberOfNumeral(d: string, t: string)
    requires IsNumeral(d) && (t == [] || !IsDigit(t[0]))
    ensures Number(d + t) == Some((NumeralValue(d), t))
  {
    DigitRunOfNumeral(d, t);
    assert (d + t)[..|d|] == d;
    assert (d + t)[|d|..] == t;
  }

  /**
    `parseQRChunk`: a match of `^<<PART (\d+) of (\d+)>>([\s\S]*)` gives the two numbers
    and the trimmed remainder; anything else gives `None`. A greedy `\d+` followed by a
    non-digit literal cannot backtrack, so each numeral is the maximal digit run.
  */
  function Parse(text: string): (r: Option<Chunk>)
    ensures r.Some? ==> IsTrimmed(r.value.content)
  {
    match Literal(text, PartMarker)
    case None => None
    case Some(s1) => ParsePart(s1)
  }

  /** After `<<PART `: the part number. */
  function ParsePart(s1: string): Option<Chunk> {
    match Number(s1)
    case None => None
    case Some(n) => ParseOf(n.0, n.1)
  }

  /** After the part number: the literal ` of `. */
  function ParseOf(part: nat, s2: string): Option<Chunk> {
    match Literal(s2, OfMarker)
    case None => None
    case Some(s3) => ParseTotal(part, s3)
  }

  /** After ` of `: the total. */
  function ParseTotal(part: nat, s3: string): Option<Chunk> {
    match Number(s3)
    case None => None
    case Some(n) => ParseClose(part, n.0, n.1)
  }

  /** After the total: the literal `>>`, then everything else is the content. */
  function ParseClose(part: nat, total: nat, s4: string): (r: Option<Chunk>)
    ensures r.Some? ==> IsTrimmed(r.value.content)
  {
    match Literal(s4, CloseMarker)
    case None => None
    case Some(rest) => Some(Chunk(part, total, Trim(rest)))
  }

  lemma ParseCloseFramed(part: nat, total: nat, rest: string)
    ensures ParseClose(part, total, CloseMarker + rest) == Some(Chunk(part, total, Trim(rest)))
  {
    LiteralOfConcat(CloseMarker, rest);
  }

  lemma ParseTotalFramed(part: nat, d2: string, rest: string)
    requires IsNumeral(d2)
    ensures ParseTotal(part, d2 + (CloseMarker + rest)) == Some(Chunk(part, NumeralValue(d2), Trim(rest)))
  {
    NumberOfNumeral(d2, CloseMarker + rest);
    ParseCloseFramed(part, NumeralValue(d2), rest);
  }

  lemma ParseOfFramed(part: nat, d2: string, rest: string)
    requires IsNumeral(d2)
    ensures ParseOf(part, OfMarker + (d2 + (CloseMarker + rest))) == Some(Chunk(part, NumeralValue(d2), Trim(rest)))
  {
    var s3 := d2 + (CloseMarker + rest);
    LiteralOfConcat(OfMarker, s3);
    ParseTotalFramed(part, d2, rest);
  }

  lemma ParsePartFramed(d1: string, d2: string, rest: string)
    requires IsNumeral(d1) && IsNumeral(d2)
    ensures ParsePart(d1 + (OfMarker + (d2 + (CloseMarker + rest))))
         == Some(Chunk(NumeralValue(d1), NumeralValue(d2), Trim(rest)))
  {
    var s2 := OfMarker + (d2 + (CloseMarker + rest));
    NumberOfNumeral(d1, s2);
    ParseOfFramed(NumeralValue(d1), d2, rest);
  }

  /** Every string of the header grammar parses, to its numerals' values and its trimmed remainder. */
  lemma ParseFramed(d1: string, d2: string, rest: string)
    requires IsNumeral(d1) && IsNumeral(d2)
    ensures Parse(Framed(d1, d2, rest)) == Some(Chunk(NumeralValue(d1), NumeralValue(d2), Trim(rest)))
  {
    var s1 := d1 + (OfMarker + (d2 + (CloseMarker + rest)));
    LiteralOfConcat(PartMarker, s1);
    ParsePartFramed(d1, d2, rest);
  }

  lemma ParseCloseSound(part: nat, total: nat, s4: string) returns (rest: string)
    requires ParseClose(part, total, s4).Some?
    ensures s4 == CloseMarker + rest
    ensures ParseClose(part, total, s4) == Some(Chunk(part, total, Trim(rest)))
  {
    LiteralSpec(s4, CloseMarker);
    rest := Literal(s4, CloseMarker).value;
  }

  lemma ParseTotalSound(part: nat, s3: string) returns (d2: string, rest: string)
    requires ParseTotal(part, s3).Some?
    ensures IsNumeral(d2) && s3 == d2 + (CloseMarker + rest)
    ensures ParseTotal(part, s3) == Some(Chunk(part, NumeralValue(d2), Trim(rest)))
  {
    d2 := NumberSpec(s3);
    var n := Number(s3).value;
    rest := ParseCloseSound(part, n.0, n.1);
  }

  lemma ParseOfSound(part: nat, s2: string) returns (d2: string, rest: string)
    requires ParseOf(part, s2).Some?
    ensures IsNumeral(d2) && s2 == OfMarker + (d2 + (CloseMarker + rest))
    ensures ParseOf(part, s2) == Some(Chunk(part, NumeralValue(d2), Trim(rest)))
  {
    LiteralSpec(s2, OfMarker);
    var s3 := Literal(s2, OfMarker).value;
    d2, rest := ParseTotalSound(part, s3);
  }

  lemma ParsePartSound(s1: string) returns (d1: string, d2: string, rest: string)
    requires ParsePart(s1).Some?
    ensures IsNumeral(d1) && IsNumeral(d2) && s1 == d1 + (OfMarker + (d2 + (CloseMarker + rest)))
    ensures ParsePart(s1) == Some(Chunk(NumeralValue(d1), NumeralValue(d2), Trim(rest)))
  {
    d1 := NumberSpec(s1);
    var n := Number(s1).value;
    assert ParsePart(s1) == ParseOf(n.0, n.1);
    d2, rest := ParseOfSound(n.0, n.1);
  }

  /**
    Every accepted string is of the header grammar, and its chunk is read from that
    decomposition: the numerals and the remainder are returned as witnesses.
  */
  lemma ParseSound(text: string) returns (d1: string, d2: string, rest: string)
    requires Parse(text).Some?
    ensures IsNumeral(d1) && IsNumeral(d2) && text == Framed(d1, d2, rest)
    ensures Parse(text) == Some(Chunk(NumeralValue(d1), NumeralValue(d2), Trim(rest)))
  {
    LiteralSpec(text, PartMarker);
    var s1 := Literal(text, PartMarker).value;
    assert Parse(text) == ParsePart(s1);
    d1, d2, rest := ParsePartSound(s1);
  }

  /** A string that is not of the header grammar is rejected. */
  lemma ParseRejects(text: string)
    requires forall d1, d2, rest :: IsNumeral(d1) && IsNumeral(d2) ==> text != Framed(d1, d2, rest)
    ensures Parse(text).None?
  {
    if Parse(text).Some? {
      var d1, d2, rest := ParseSound(text);
    }
  }

  /** A header written from two numbers followed by already-trimmed content parses back to them. */
  lemma ParseRoundTrip(part: nat, total: nat, content: string)
    requires IsTrimmed(content)
    ensures Parse(Framed(Decimal(part), Decimal(total), content)) == Some(Chunk(part, total, content))
  {
    ParseFramed(Decimal(part), Decimal(total), content);
    DecimalRoundTrip(part);
    DecimalRoundTrip(total);
    TrimTrimmed(content);
  }

}
