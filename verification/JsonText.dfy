/** Strings in JSON documents: escape sequences, UTF-8, and the quoting the
    writers use. A `char` stands for one byte. */
module JsonText {
  import opened CStrings
  import opened Optional

  const BACKSPACE: char := 8 as char
  const FORM_FEED: char := 12 as char

  // ---------- occurrences ----------

  /** `s` stands in `doc` at position `p`. */
  predicate Has(doc: string, p: nat, s: string) {
    p + |s| <= |doc| && doc[p..p + |s|] == s
  }

  lemma HasSplit(doc: string, p: nat, a: string, b: string)
    ensures Has(doc, p, a + b) <==> Has(doc, p, a) && Has(doc, p + |a|, b)
  {
    if p + |a + b| <= |doc| {
      var s := doc[p..p + |a + b|];
      assert s[..|a|] == doc[p..p + |a|] && s[|a|..] == doc[p + |a|..p + |a| + |b|];
      assert (a + b)[..|a|] == a && (a + b)[|a|..] == b;
      assert s == s[..|a|] + s[|a|..];
    }
  }

  lemma HasInside(doc: string, p: nat, s: string)
    requires Has(doc, p, s)
    ensures p + |s| <= |doc|
  {
  }

  lemma HasAt(doc: string, p: nat, s: string, i: nat)
    requires Has(doc, p, s) && i < |s|
    ensures doc[p + i] == s[i]
  {
    assert doc[p..p + |s|][i] == s[i];
  }

  lemma Bare(s: string, t: string, u: string)
    ensures "" + s == s
    ensures (s + t) + u == s + (t + u)
  {
  }

  // ---------- hexadecimal ----------

  /** The value of a hexadecimal digit, or -1. */
  function HexDigit(c: char): (d: int)
    ensures -1 <= d < 16
  {
    if '0' <= c <= '9' then c as int - '0' as int
    else if 'a' <= c <= 'f' then c as int - 'a' as int + 10
    else if 'A' <= c <= 'F' then c as int - 'A' as int + 10
    else -1
  }

  /** The sixteen digits, in lower or upper case. */
  lemma HexDigitIff(c: char, d: nat)
    requires d < 16
    ensures HexDigit(c) == d <==> c == "0123456789abcdef"[d] || c == "0123456789ABCDEF"[d]
  {
  }

  predicate IsHex4(h: string) {
    |h| == 4 && forall i :: 0 <= i < 4 ==> HexDigit(h[i]) >= 0
  }

  function Hex4Value(h: string): (n: nat)
    requires IsHex4(h)
    ensures n < 0x1_0000
  {
    0x1000 * HexDigit(h[0]) + 0x100 * HexDigit(h[1]) + 0x10 * HexDigit(h[2]) + HexDigit(h[3])
  }

  /** Four upper-case hexadecimal digits, as `setw(4)`, `setfill('0')`, `hex` and `uppercase` print them. */
  function PrintHex4(n: nat): (h: string)
    requires n < 0x1_0000
    ensures |h| == 4
  {
    [UpperHex(n / 0x1000), UpperHex(n / 0x100 % 16), UpperHex(n / 0x10 % 16), UpperHex(n % 16)]
  }

  function UpperHex(d: nat): (c: char)
    requires d < 16
    ensures HexDigit(c) == d
  {
    if d < 10 then ('0' as int + d) as char else ('A' as int + d - 10) as char
  }

  lemma Hex4Example()
    ensures IsHex4("12aB") && Hex4Value("12aB") == 0x12ab
  {
  }

  lemma PrintHex4Value(n: nat)
    requires n < 0x1_0000
    ensures IsHex4(PrintHex4(n)) && Hex4Value(PrintHex4(n)) == n
  {
    hide UpperHex, HexDigit;
    Digits(n, 16, n / 0x10);
    Digits(n / 0x10, 16, n / 0x100);
    Digits(n / 0x100, 16, n / 0x1000);
  }

  /** Splitting off the last digit in base 16 or 64. */
  lemma Digits(n: nat, base: nat, rest: nat)
    requires base == 16 || base == 64
    requires rest == n / base
    ensures n == base * rest + n % base
  {
  }

  // ---------- UTF-8 ----------

  /** `codePointToUTF8`; `0x3f & cp` is `cp % 64` and `cp >> 6` is `cp / 64`. */
  function CodePointToUTF8(cp: nat): string {
    if cp <= 0x7f then [cp as char]
    else if cp <= 0x7ff then [(0xc0 + cp / 64 % 32) as char, (0x80 + cp % 64) as char]
    else if cp <= 0xffff then
      [(0xe0 + cp / 4096 % 16) as char, (0x80 + cp / 64 % 64) as char, (0x80 + cp % 64) as char]
    else if cp <= 0x10ffff then
      [(0xf0 + cp / 262144 % 8) as char, (0x80 + cp / 4096 % 64) as char,
       (0x80 + cp / 64 % 64) as char, (0x80 + cp % 64) as char]
    else ""
  }

  predicate Continuation(c: char) {
    0x80 <= c as int < 0xc0
  }

  /** A code point that UTF-8 encodes: no surrogate, and none above 0x10FFFF. */
  predicate Scalar(cp: nat) {
    cp <= 0x10ffff && !HighSurrogate(cp) && !LowSurrogate(cp)
  }

  /** The code point of a well-formed UTF-8 sequence (sections 3 and 4 of RFC 3629): the
      lead byte fixes the length, and the shortest form is required. */
  function DecodeUTF8(s: string): Option<nat> {
    if |s| == 1 && s[0] as int < 0x80 then Some(s[0] as int)
    else if |s| == 2 && 0xc0 <= s[0] as int < 0xe0 && Continuation(s[1]) then
      ScalarFrom(0x80, (s[0] as int - 0xc0) * 64 + s[1] as int - 0x80)
    else if |s| == 3 && 0xe0 <= s[0] as int < 0xf0 && Continuation(s[1]) && Continuation(s[2]) then
      ScalarFrom(0x800, (s[0] as int - 0xe0) * 4096 + (s[1] as int - 0x80) * 64 + s[2] as int - 0x80)
    else if |s| == 4 && 0xf0 <= s[0] as int < 0xf8 &&
            Continuation(s[1]) && Continuation(s[2]) && Continuation(s[3]) then
      ScalarFrom(0x1_0000, (s[0] as int - 0xf0) * 262144 + (s[1] as int - 0x80) * 4096 +
                           (s[2] as int - 0x80) * 64 + s[3] as int - 0x80)
    else None
  }

  function ScalarFrom(least: nat, cp: nat): Option<nat> {
    if cp >= least && Scalar(cp) then Some(cp) else None
  }

  lemma UTF8Two(cp: nat)
    requires 0x80 <= cp <= 0x7ff
    ensures DecodeUTF8(CodePointToUTF8(cp)) == ScalarFrom(0x80, cp)
  {
    Digits(cp, 64, cp / 64);
    assert cp / 64 % 32 == cp / 64;
  }

  lemma UTF8Three(cp: nat)
    requires 0x800 <= cp <= 0xffff
    ensures DecodeUTF8(CodePointToUTF8(cp)) == ScalarFrom(0x800, cp)
  {
    Digits(cp, 64, cp / 64);
    Digits(cp / 64, 64, cp / 4096);
    assert cp / 4096 % 16 == cp / 4096;
  }

  lemma UTF8Four(cp: nat)
    requires 0x1_0000 <= cp <= 0x10ffff
    ensures DecodeUTF8(CodePointToUTF8(cp)) == ScalarFrom(0x1_0000, cp)
  {
    Digits(cp, 64, cp / 64);
    Digits(cp / 64, 64, cp / 4096);
    Digits(cp / 4096, 64, cp / 262144);
    assert cp / 262144 % 8 == cp / 262144;
  }

  /** Every code point but the surrogates, which the code encodes all the same, is
      encoded as a sequence that decodes to it. */
  lemma UTF8RoundTrip(cp: nat)
    requires cp <= 0x10ffff
    ensures DecodeUTF8(CodePointToUTF8(cp)) == if Scalar(cp) then Some(cp) else None
    ensures cp != 0 ==> NulFree(CodePointToUTF8(cp))
  {
    if 0x80 <= cp {
      hide DecodeUTF8;
      if cp <= 0x7ff {
        UTF8Two(cp);
      } else if cp <= 0xffff {
        UTF8Three(cp);
      } else {
        UTF8Four(cp);
      }
    }
  }

  /** Characters of the examples in section 7 of RFC 3629, one for each length. */
  lemma UTF8Examples()
    ensures CodePointToUTF8(0x41) == [0x41 as char]
    ensures CodePointToUTF8(0x391) == [0xce as char, 0x91 as char]
    ensures CodePointToUTF8(0x2262) == [0xe2 as char, 0x89 as char, 0xa2 as char]
    ensures CodePointToUTF8(0x233b4) == [0xf0 as char, 0xa3 as char, 0x8e as char, 0xb4 as char]
  {
  }

  /** The quotient and remainder of a number given in base 64. */
  lemma Base64(n: nat, high: nat, low: nat)
    requires low < 64 && n == high * 64 + low
    ensures n / 64 == high && n % 64 == low
  {
  }

  lemma UniqueThree(s: string, cp: nat)
    requires |s| == 3 && DecodeUTF8(s) == Some(cp)
    ensures s == CodePointToUTF8(cp)
  {
    var a, b, c := s[0] as int - 0xe0, s[1] as int - 0x80, s[2] as int - 0x80;
    Base64(cp, a * 64 + b, c);
    Base64(a * 64 + b, a, b);
    assert cp / 4096 == a;
  }

  lemma UniqueFour(s: string, cp: nat)
    requires |s| == 4 && DecodeUTF8(s) == Some(cp)
    ensures s == CodePointToUTF8(cp)
  {
    var a, b, c, d := s[0] as int - 0xf0, s[1] as int - 0x80, s[2] as int - 0x80, s[3] as int - 0x80;
    Base64(cp, a * 4096 + b * 64 + c, d);
    Base64(a * 4096 + b * 64 + c, a * 64 + b, c);
    Base64(a * 64 + b, a, b);
    assert cp / 4096 == a * 64 + b && cp / 262144 == a;
  }

  /** No other sequence decodes to the same code point. */
  lemma UTF8Unique(s: string)
    ensures DecodeUTF8(s).Some? ==> Scalar(DecodeUTF8(s).value) && s == CodePointToUTF8(DecodeUTF8(s).value)
  {
    if DecodeUTF8(s).Some? {
      var cp := DecodeUTF8(s).value;
      if |s| == 2 {
        Base64(cp, s[0] as int - 0xc0, s[1] as int - 0x80);
      } else if |s| == 3 {
        UniqueThree(s, cp);
      } else if |s| == 4 {
        UniqueFour(s, cp);
      }
    }
  }

  // ---------- decoding the inside of a string token ----------

  datatype ErrorKind =
    | ValueExpected
    | MissingColon
    | MissingCommaOrBrace
    | MissingBraceOrName
    | MissingCommaOrBracket
    | NotANumber
    | EmptyEscape
    | BadEscape
    | SurrogateTooShort
    | SurrogateExpected
    | FourDigitsExpected
    | HexDigitExpected
    | RootNotContainer

  /** `at` is the place the error message points to. */
  datatype Decoded = Text(text: string) | Bad(kind: ErrorKind, at: nat) {
    function After(s: string): Decoded {
      if Text? then Text(s + text) else this
    }
  }

  datatype CodePoint = Point(unicode: nat, next: nat) | BadPoint(kind: ErrorKind, at: nat)

  /** `decodeUnicodeEscapeSequence`: four hexadecimal digits. */
  function DecodeHex4(doc: string, i: nat, end: nat): (r: CodePoint)
    requires i <= end <= |doc|
    ensures r.Point? ==> r.next == i + 4 && r.next <= end && r.unicode < 0x1_0000
    ensures r.BadPoint? ==> i <= r.at <= end
  {
    if end - i < 4 then BadPoint(FourDigitsExpected, i)
    else if HexDigit(doc[i]) < 0 then BadPoint(HexDigitExpected, i + 1)
    else if HexDigit(doc[i + 1]) < 0 then BadPoint(HexDigitExpected, i + 2)
    else if HexDigit(doc[i + 2]) < 0 then BadPoint(HexDigitExpected, i + 3)
    else if HexDigit(doc[i + 3]) < 0 then BadPoint(HexDigitExpected, i + 4)
    else Point(Hex4Value(doc[i..i + 4]), i + 4)
  }

  predicate HighSurrogate(unicode: nat) {
    0xd800 <= unicode <= 0xdbff
  }

  predicate LowSurrogate(unicode: nat) {
    0xdc00 <= unicode <= 0xdfff
  }

  /** `decodeUnicodeCodePoint`; `x & 0x3FF` is `x % 0x400`. */
  function DecodeCodePoint(doc: string, i: nat, end: nat): (r: CodePoint)
    requires i <= end <= |doc|
    ensures r.Point? ==> i < r.next <= end && r.unicode <= 0x10ffff
    ensures r.BadPoint? ==> i <= r.at <= end
  {
    var first := DecodeHex4(doc, i, end);
    if first.BadPoint? || !HighSurrogate(first.unicode) then first
    else if end - first.next < 6 then BadPoint(SurrogateTooShort, first.next)
    else if doc[first.next] != '\\' then BadPoint(SurrogateExpected, first.next + 1)
    else if doc[first.next + 1] != 'u' then BadPoint(SurrogateExpected, first.next + 2)
    else
      var second := DecodeHex4(doc, first.next + 2, end);
      if second.BadPoint? then second
      else Point(0x1_0000 + first.unicode % 0x400 * 0x400 + second.unicode % 0x400, second.next)
  }

  /** The character a one-letter escape stands for. */
  function ShortEscape(c: char): Option<char> {
    match c
    case '"' => Some('"')
    case '/' => Some('/')
    case '\\' => Some('\\')
    case 'b' => Some(BACKSPACE)
    case 'f' => Some(FORM_FEED)
    case 'n' => Some('\n')
    case 'r' => Some('\r')
    case 't' => Some('\t')
    case _ => None
  }

  /** `decodeString` on the characters i..end of the document. */
  function Decode(doc: string, i: nat, end: nat): (r: Decoded)
    requires i <= end <= |doc|
    ensures r.Bad? ==> i <= r.at <= end
    decreases end - i
  {
    if i == end || doc[i] == '"' then Text("")
    else if doc[i] != '\\' then Decode(doc, i + 1, end).After([doc[i]])
    else if i + 1 == end then Bad(EmptyEscape, i + 1)
    else if doc[i + 1] == 'u' then
      var p := DecodeCodePoint(doc, i + 2, end);
      if p.BadPoint? then Bad(p.kind, p.at)
      else Decode(doc, p.next, end).After(CodePointToUTF8(p.unicode))
    else
      var e := ShortEscape(doc[i + 1]);
      if e.None? then Bad(BadEscape, i + 2) else Decode(doc, i + 2, end).After([e.value])
  }
}
