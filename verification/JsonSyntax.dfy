/** The texts of the JSON grammar (sections 2 to 7 of RFC 8259) as syntax trees:
    what they look like, white space included, and what value they denote. The
    trees also cover the looser texts `Reader` takes, comments among them. */
module JsonSyntax {
  import opened CStrings
  import opened Optional
  import opened Decimal
  import opened JsonValue
  import opened JsonText

  /** One character of a string: itself, a one-letter escape, a \u escape, or a
      pair of \u escapes forming a surrogate pair. */
  datatype Char = Raw(c: char) | Short(c: char) | Unicode(h: string) | Pair(high: string, low: string)

  /** `fraction` is empty or starts with a point, `exponent` is empty or starts with an e. */
  datatype Number = Number(negative: bool, digits: string, fraction: string, exponent: string)

  datatype Json =
    | JNull
    | JTrue
    | JFalse
    | JNumber(number: Number)
    | JString(chars: seq<Char>)
    | JArray(gap: string, elements: Elements)
    | JObject(gap: string, members: Members)

  datatype Elements =
    | NoElement
    | Element(before: string, value: Json, after: string, rest: Elements)

  /** `separator` stands before the next member; in the grammar it is a comma.
      `Dangling` closes an object behind a separator; the grammar has no such text. */
  datatype Members =
    | NoMember
    | Dangling(gap: string)
    | Member(before: string, name: seq<Char>, beforeColon: string, afterColon: string,
             value: Json, after: string, separator: string, rest: Members)

  // ---------- characters ----------

  /** Section 2 of RFC 8259: space, tab, line feed and carriage return. */
  predicate White(c: char) {
    c as int == 0x20 || c as int == 0x09 || c as int == 0x0a || c as int == 0x0d
  }

  predicate AllSpace(s: string) {
    forall i :: 0 <= i < |s| ==> White(s[i])
  }

  /** Section 7 of RFC 8259: the code point of a one-letter escape, 0 for any other letter. */
  function Escaped(c: char): nat {
    match c
    case '"' => 0x22
    case '\\' => 0x5c
    case '/' => 0x2f
    case 'b' => 0x08
    case 'f' => 0x0c
    case 'n' => 0x0a
    case 'r' => 0x0d
    case 't' => 0x09
    case _ => 0
  }

  /** The first and the second half of a surrogate pair. */
  predicate Leading(unicode: nat) {
    0xd800 <= unicode < 0xdc00
  }

  predicate Trailing(unicode: nat) {
    0xdc00 <= unicode < 0xe000
  }

  /** Section 6 of RFC 8259: what a number is written with. */
  predicate Numeric(c: char) {
    0x30 <= c as int <= 0x39 || c == '-' || c == '+' || c == '.' || c == 'e' || c == 'E'
  }

  // ---------- the text ----------

  function RenderChar(c: Char): string {
    match c
    case Raw(c) => [c]
    case Short(c) => ['\\', c]
    case Unicode(h) => "\\u" + h
    case Pair(h, l) => "\\u" + h + "\\u" + l
  }

  function RenderChars(cs: seq<Char>): string {
    if cs == [] then "" else RenderChar(cs[0]) + RenderChars(cs[1..])
  }

  function RenderString(cs: seq<Char>): string {
    "\"" + RenderChars(cs) + "\""
  }

  function RenderNumber(n: Number): string {
    (if n.negative then "-" else "") + n.digits + n.fraction + n.exponent
  }

  function Render(j: Json): string
    decreases j, 4
  {
    match j
    case JNull => "null"
    case JTrue => "true"
    case JFalse => "false"
    case JNumber(n) => RenderNumber(n)
    case JString(cs) => RenderString(cs)
    case JArray(gap, es) => "[" + (if es.NoElement? then gap + "]" else RenderElements(es))
    case JObject(gap, ms) => "{" + (if ms.NoMember? then gap + "}" else RenderMembers(ms))
  }

  /** The elements and the closing bracket. */
  function RenderElements(es: Elements): string
    requires es.Element?
    decreases es, 3
  {
    es.before + RenderElement(es)
  }

  function RenderElement(es: Elements): string
    requires es.Element?
    decreases es, 2
  {
    Render(es.value) + AfterElement(es)
  }

  function AfterElement(es: Elements): string
    requires es.Element?
    decreases es, 1
  {
    es.after + (if es.rest.NoElement? then "]" else "," + RenderElements(es.rest))
  }

  /** The members and the closing brace. */
  function RenderMembers(ms: Members): string
    requires !ms.NoMember?
    decreases ms, 3
  {
    if ms.Dangling? then ms.gap + "}"
    else ms.before + (RenderString(ms.name) + (ms.beforeColon + ":" + (ms.afterColon + RenderMember(ms))))
  }

  function RenderMember(ms: Members): string
    requires ms.Member?
    decreases ms, 2
  {
    Render(ms.value) + AfterMember(ms)
  }

  function AfterMember(ms: Members): string
    requires ms.Member?
    decreases ms, 1
  {
    ms.after + (if ms.rest.NoMember? then "}" else ms.separator + RenderMembers(ms.rest))
  }

  // ---------- what the reader takes ----------

  /** A string holds any character but the quote and the backslash, any one-letter
      escape, and any \u escape; one for a high surrogate needs another behind it. */
  predicate LooseChar(c: Char) {
    match c
    case Raw(c) => c != '"' && c != '\\'
    case Short(c) => Escaped(c) != 0
    case Unicode(h) => IsHex4(h) && !Leading(Hex4Value(h))
    case Pair(h, l) => IsHex4(h) && Leading(Hex4Value(h)) && IsHex4(l)
  }

  predicate LooseChars(cs: seq<Char>) {
    forall i :: 0 <= i < |cs| ==> LooseChar(cs[i])
  }

  /** A number is any row of number characters behind a digit or a minus sign:
      digits alone, possibly none, or a text for the C library. */
  predicate LooseNumber(n: Number) {
    var s := RenderNumber(n);
    && s != "" && (0x30 <= s[0] as int <= 0x39 || s[0] == '-')
    && (forall i :: 0 <= i < |s| ==> Numeric(s[i]))
    && AllDigits(n.digits)
    && ((n.fraction == "" && n.exponent == "") || Fractional(s))
  }

  /** A number with more than a sign in front and digits. */
  predicate Fractional(s: string) {
    exists i :: 0 <= i < |s| && !(0x30 <= s[i] as int <= 0x39) && (s[i] == '-' ==> i > 0)
  }

  /** The code point of two surrogates (section 7 of RFC 8259); the reader looks at
      the last ten bits of the second only. */
  function SurrogatePoint(high: nat, low: nat): (point: nat)
    requires Leading(high)
    ensures Trailing(low) ==> point == 0x1_0000 + (high - 0xd800) * 0x400 + (low - 0xdc00)
    ensures 0x1_0000 <= point <= 0x10ffff
  {
    0x1_0000 + (high - 0xd800) * 0x400 + low % 0x400
  }

  /** Section 7 of RFC 8259: the bytes of the character an escape stands for. */
  function DenoteChar(c: Char): string
    requires LooseChar(c)
  {
    match c
    case Raw(c) => [c]
    case Short(c) => [Escaped(c) as char]
    case Unicode(h) => CodePointToUTF8(Hex4Value(h))
    case Pair(h, l) => CodePointToUTF8(SurrogatePoint(Hex4Value(h), Hex4Value(l)))
  }

  function DenoteChars(cs: seq<Char>): string
    requires LooseChars(cs)
  {
    if cs == [] then "" else DenoteChar(cs[0]) + DenoteChars(cs[1..])
  }

  predicate BlockComment(c: string) {
    && |c| >= 4 && c[0] == '/' && c[1] == '*' && c[|c| - 2] == '*' && c[|c| - 1] == '/'
    && forall i :: 2 <= i < |c| - 2 ==> !(c[i] == '*' && c[i + 1] == '/')
  }

  predicate EndsLine(c: char) {
    c == '\r' || c == '\n'
  }

  predicate LineComment(c: string) {
    && |c| >= 3 && c[0] == '/' && c[1] == '/' && EndsLine(c[|c| - 1])
    && forall i :: 2 <= i < |c| - 1 ==> !EndsLine(c[i])
  }

  /** White space up to n, then a comment up to m. */
  predicate Commented(s: string, n: nat, m: nat) {
    n < m <= |s| && AllSpace(s[..n]) && (BlockComment(s[n..m]) || LineComment(s[n..m]))
  }

  /** White space and comments. */
  ghost predicate Gap(s: string)
    decreases |s|
  {
    AllSpace(s) || exists n: nat, m: nat :: Commented(s, n, m) && Gap(s[m..])
  }

  /** The inside of a quoted text and its closing quote: a backslash protects what follows. */
  predicate Closed(s: string) {
    s != "" &&
    if s[0] == '"' then |s| == 1
    else if s[0] == '\\' then |s| > 1 && Closed(s[2..])
    else Closed(s[1..])
  }

  /** Any token but a closing brace, a meaningless character among them; it takes no
      text that follows it as its own. */
  predicate OneToken(s: string) {
    s != "" &&
    match s[0]
    case '"' => Closed(s[1..])
    case '/' => |s| == 2 && s[1] != '*' && s[1] != '/'
    case 't' => s == "t" || s == "true"
    case 'f' => s == "f" || s == "false"
    case 'n' => s == "n" || s == "null"
    case '}' => false
    case c =>
      if 0x30 <= c as int <= 0x39 || c == '-' then forall i :: 0 <= i < |s| ==> Numeric(s[i])
      else |s| == 1 && !White(c)
  }

  /** Between members stands a comma or, behind a comment, any token. */
  predicate Separates(after: string, separator: string) {
    separator == "," || (!AllSpace(after) && OneToken(separator))
  }

  /** Comments may stand wherever white space may, but before a colon and in an empty
      array. */
  ghost predicate LooseJson(j: Json) {
    match j
    case JNumber(n) => LooseNumber(n)
    case JString(cs) => LooseChars(cs)
    case JArray(gap, es) => AllSpace(gap) && LooseElements(es)
    case JObject(gap, ms) => Gap(gap) && LooseMembers(ms) && !ms.Dangling?
    case _ => true
  }

  ghost predicate LooseElements(es: Elements) {
    es.Element? ==> Gap(es.before) && LooseJson(es.value) && Gap(es.after) && LooseElements(es.rest)
  }

  /** The closing brace may follow a separator when the last name is empty. */
  ghost predicate LooseMembers(ms: Members) {
    match ms
    case NoMember => true
    case Dangling(gap) => Gap(gap)
    case Member(before, name, beforeColon, afterColon, value, after, separator, rest) =>
      && Gap(before) && LooseChars(name) && AllSpace(beforeColon) && Gap(afterColon)
      && LooseJson(value) && Gap(after) && LooseMembers(rest)
      && (!rest.NoMember? ==> Separates(after, separator))
      && (rest.Dangling? ==> DenoteChars(name) == "")
  }

  /** No comment stands right before a value: the only place where the setting counts. */
  predicate Uncommented(j: Json) {
    match j
    case JArray(_, es) => UncommentedElements(es)
    case JObject(_, ms) => UncommentedMembers(ms)
    case _ => true
  }

  predicate UncommentedElements(es: Elements) {
    es.Element? ==> AllSpace(es.before) && Uncommented(es.value) && UncommentedElements(es.rest)
  }

  predicate UncommentedMembers(ms: Members) {
    ms.Member? ==> AllSpace(ms.afterColon) && Uncommented(ms.value) && UncommentedMembers(ms.rest)
  }

  // ---------- the grammar ----------

  /** Escapes for NUL and for unpaired surrogates, which the grammar has, are left out:
      the first ends a string of the library, the others stand for no character. */
  predicate ValidChar(c: Char): (valid: bool)
    ensures valid ==> LooseChar(c)
  {
    match c
    case Raw(c) => c >= ' ' && c != '"' && c != '\\'
    case Short(c) => Escaped(c) != 0
    case Unicode(h) => IsHex4(h) && Hex4Value(h) != 0 && !Leading(Hex4Value(h)) && !Trailing(Hex4Value(h))
    case Pair(h, l) => IsHex4(h) && Leading(Hex4Value(h)) && IsHex4(l) && Trailing(Hex4Value(l))
  }

  predicate ValidChars(cs: seq<Char>): (valid: bool)
    ensures valid ==> LooseChars(cs)
  {
    forall i :: 0 <= i < |cs| ==> ValidChar(cs[i])
  }

  predicate ValidNumber(n: Number) {
    && n.digits != "" && AllDigits(n.digits) && (n.digits[0] == '0' ==> |n.digits| == 1)
    && (n.fraction != "" ==> n.fraction[0] == '.' && |n.fraction| > 1 && AllDigits(n.fraction[1..]))
    && (n.exponent != "" ==> ValidExponent(n.exponent))
  }

  predicate ValidExponent(e: string)
    requires e != ""
  {
    && (e[0] == 'e' || e[0] == 'E')
    && |e| > 1
    && var digits := if e[1] == '+' || e[1] == '-' then e[2..] else e[1..];
       digits != "" && AllDigits(digits)
  }

  /** The four parts of a number, by position. */
  lemma NumberParts(n: Number)
    ensures var s := RenderNumber(n);
            var d := if n.negative then 1 else 0;
            var f := d + |n.digits|;
            var e := f + |n.fraction|;
            && |s| == e + |n.exponent|
            && (n.negative ==> s[0] == '-')
            && (forall i :: d <= i < f ==> s[i] == n.digits[i - d])
            && (forall i :: f <= i < e ==> s[i] == n.fraction[i - f])
            && (forall i :: e <= i < |s| ==> s[i] == n.exponent[i - e])
            && (n.fraction == "" && n.exponent == "" ==> s[d..] == n.digits)
  {
  }

  lemma NumberChars(n: Number)
    requires ValidNumber(n)
    ensures var s := RenderNumber(n);
            && s != "" && (0x30 <= s[0] as int <= 0x39 || s[0] == '-')
            && (forall i :: 0 <= i < |s| ==> Numeric(s[i]))
            && (n.fraction != "" || n.exponent != "" ==> Fractional(s))
  {
    hide RenderNumber, Fractional;
    NumberParts(n);
    var s := RenderNumber(n);
    var d := if n.negative then 1 else 0;
    var f := d + |n.digits|;
    var e := f + |n.fraction|;
    forall i | 0 <= i < |s| ensures Numeric(s[i]) {
      if d <= i < f {
        assert IsDigit(n.digits[i - d]);
      } else if f < i < e {
        assert n.fraction[i - f] == n.fraction[1..][i - f - 1];
      } else if e <= i {
        ExponentChars(n.exponent, i - e);
      }
    }
    assert s[d] == n.digits[0];
    if n.fraction != "" {
      HasFraction(s, f);
    } else if n.exponent != "" {
      HasFraction(s, e);
    }
  }

  lemma HasFraction(s: string, i: nat)
    requires i < |s| && (s[i] == '.' || s[i] == 'e' || s[i] == 'E')
    ensures Fractional(s)
  {
  }

  lemma ExponentChars(e: string, i: nat)
    requires e != "" && ValidExponent(e) && i < |e|
    ensures Numeric(e[i])
  {
    if i >= 2 {
      assert e[2..][i - 2] == e[i] == e[1..][i - 1];
    } else if i == 1 && e[1] != '+' && e[1] != '-' {
      assert e[1..][0] == e[1];
    }
  }

  /** Every number of the grammar is one the reader takes. */
  lemma NumberIsLoose(n: Number)
    ensures ValidNumber(n) ==> LooseNumber(n)
  {
    hide RenderNumber;
    if ValidNumber(n) {
      NumberChars(n);
    }
  }

  predicate ValidJson(j: Json): (valid: bool)
    ensures valid ==> LooseJson(j) && Uncommented(j)
  {
    match j
    case JNumber(n) => NumberIsLoose(n); ValidNumber(n)
    case JString(cs) => ValidChars(cs)
    case JArray(gap, es) => AllSpace(gap) && ValidElements(es)
    case JObject(gap, ms) => AllSpace(gap) && ValidMembers(ms)
    case _ => true
  }

  predicate ValidElements(es: Elements): (valid: bool)
    ensures valid ==> LooseElements(es) && UncommentedElements(es)
  {
    es.Element? ==>
      AllSpace(es.before) && ValidJson(es.value) && AllSpace(es.after) && ValidElements(es.rest)
  }

  predicate ValidMembers(ms: Members): (valid: bool)
    ensures valid ==> LooseMembers(ms) && UncommentedMembers(ms) && !ms.Dangling?
  {
    match ms
    case NoMember => true
    case Dangling(_) => false
    case Member(before, name, beforeColon, afterColon, value, after, separator, rest) =>
      && AllSpace(before) && ValidChars(name) && AllSpace(beforeColon) && AllSpace(afterColon)
      && ValidJson(value) && AllSpace(after) && separator == "," && ValidMembers(rest)
  }

  // ---------- the value ----------

  /** An integer in range is exact; every other number is left to the C library. */
  predicate ExactNumber(n: Number)
    requires LooseNumber(n)
  {
    && n.fraction == "" && n.exponent == ""
    && ValueOf(n.digits) <= if n.negative then 9223372036854775808 else 18446744073709551615
  }

  function DenoteNumber(n: Number, scan: string -> Option<real>): Body
    requires LooseNumber(n)
    requires ExactNumber(n) || scan(RenderNumber(n)).Some?
  {
    if !ExactNumber(n) then Real(scan(RenderNumber(n)).value)
    else if n.negative then Int(0 - ValueOf(n.digits))
    else if ValueOf(n.digits) <= 2147483647 then Int(ValueOf(n.digits))
    else UInt(ValueOf(n.digits))
  }

  /** The C library can read every inexact number of the text. */
  predicate Scans(j: Json, scan: string -> Option<real>)
    requires LooseJson(j)
  {
    match j
    case JNumber(n) => ExactNumber(n) || scan(RenderNumber(n)).Some?
    case JArray(_, es) => ScansElements(es, scan)
    case JObject(_, ms) => ScansMembers(ms, scan)
    case _ => true
  }

  predicate ScansElements(es: Elements, scan: string -> Option<real>)
    requires LooseElements(es)
  {
    es.Element? ==> Scans(es.value, scan) && ScansElements(es.rest, scan)
  }

  predicate ScansMembers(ms: Members, scan: string -> Option<real>)
    requires LooseMembers(ms)
  {
    ms.Member? ==> Scans(ms.value, scan) && ScansMembers(ms.rest, scan)
  }

  function Denote(j: Json, scan: string -> Option<real>): Value
    requires LooseJson(j) && Scans(j, scan)
  {
    match j
    case JNull => Plain(Null)
    case JTrue => Plain(Bool(true))
    case JFalse => Plain(Bool(false))
    case JNumber(n) => Plain(DenoteNumber(n, scan))
    case JString(cs) => Plain(Str(CString(DenoteChars(cs))))
    case JArray(_, es) => Plain(Array(DenoteElements(es, 0, scan)))
    case JObject(_, ms) => Plain(Object(DenoteMembers(ms, End, scan)))
  }

  function DenoteElements(es: Elements, index: nat, scan: string -> Option<real>): Entries
    requires LooseElements(es) && ScansElements(es, scan)
  {
    if es.NoElement? then End
    else Entry(Index(index), Denote(es.value, scan), DenoteElements(es.rest, index + 1, scan))
  }

  /** The members added to `m` one after the other: a later one replaces an
      earlier one of the same name. */
  function DenoteMembers(ms: Members, m: Entries, scan: string -> Option<real>): Entries
    requires LooseMembers(ms) && ScansMembers(ms, scan)
  {
    if !ms.Member? then m
    else DenoteMembers(ms.rest, Put(m, Name(CString(DenoteChars(ms.name))), Denote(ms.value, scan)), scan)
  }
}
