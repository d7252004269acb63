/** The reader accepts every text of the JSON grammar, and every looser text that
    `JsonSyntax` describes, and produces the value it denotes. */
module JsonAccept {
  import opened CStrings
  import opened Optional
  import opened Decimal
  import opened JsonValue
  import opened JsonText
  import opened JsonScan
  import opened JsonNumber
  import opened JsonSyntax
  import opened JsonParse
  import opened JsonSteps
  import opened JsonGaps

  // ---------- gaps and tokens ----------

  /** What may stand before a value. */
  ghost predicate ValueGap(env: Env, pre: string) {
    Gap(pre) && (env.allowComments || AllSpace(pre))
  }

  /** The texts the reader takes with its setting for comments. */
  ghost predicate Readable(env: Env, j: Json) {
    LooseJson(j) && (env.allowComments || Uncommented(j))
  }

  ghost predicate ReadableElements(env: Env, es: Elements) {
    LooseElements(es) && (env.allowComments || UncommentedElements(es))
  }

  ghost predicate ReadableMembers(env: Env, ms: Members) {
    LooseMembers(ms) && (env.allowComments || UncommentedMembers(ms))
  }

  /** The first token of a value behind a gap. */
  lemma FirstBehind(env: Env, p: nat, pre: string)
    requires Has(env.doc, p, pre) && ValueGap(env, pre)
    requires p + |pre| < |env.doc| && !White(env.doc[p + |pre|])
    requires TokenAt(env.doc, p + |pre|).kind != CommentToken
    ensures FirstToken(env, p) == TokenAt(env.doc, p + |pre|)
  {
    hide TokenAt, ReadToken, ReadPastComments, Gap, AllSpace;
    GapSkipped(env.doc, p, pre);
  }

  lemma NoComment(doc: string, p: nat)
    requires p < |doc| && doc[p] != '/'
    ensures TokenAt(doc, p).kind != CommentToken
  {
  }

  /** A gap, then a punctuation mark. */
  lemma MarkBehind(env: Env, p: nat, pre: string, mark: string)
    requires Gap(pre) && Has(env.doc, p, pre + mark)
    requires mark == "," || mark == ":" || mark == "]" || mark == "}"
    ensures p <= |env.doc|
    ensures var kind := if mark == "," then ArraySeparator else if mark == ":" then MemberSeparator
                        else if mark == "]" then ArrayEnd else ObjectEnd;
            && ReadPastComments(env.doc, p) == Token(kind, p + |pre|, p + |pre| + 1)
            && ReadToken(env.doc, p).kind == if AllSpace(pre) then kind else CommentToken
    ensures AllSpace(pre) ==> ReadToken(env.doc, p) == ReadPastComments(env.doc, p)
  {
    hide ReadToken, ReadPastComments, Gap, AllSpace;
    HasSplit(env.doc, p, pre, mark);
    HasAt(env.doc, p + |pre|, mark, 0);
    GapSkipped(env.doc, p, pre);
  }

  lemma GapHead(gap: string, rest: string)
    requires Gap(gap)
    ensures gap != "" ==> (gap + rest)[0] == gap[0] && (White(gap[0]) || gap[0] == '/')
    ensures gap == "" ==> gap + rest == rest
  {
    if gap != "" && !AllSpace(gap) {
      var n, m := GapParts(gap);
      CommentedIs(gap, n, m);
      if n > 0 {
        assert gap[..n][0] == gap[0];
      }
    }
  }

  // ---------- strings ----------

  lemma {:induction false} CharsScanned(doc: string, p: nat, cs: seq<Char>)
    requires LooseChars(cs) && Has(doc, p, RenderChars(cs) + "\"")
    ensures ScanString(doc, p) == Scan(true, p + |RenderChars(cs)| + 1)
    decreases |cs|
  {
    hide RenderChar, LooseChar;
    if cs == [] {
      HasSplit(doc, p, RenderChars(cs), "\"");
      HasAt(doc, p, "\"", 0);
    } else {
      var first, rest := RenderChar(cs[0]), RenderChars(cs[1..]) + "\"";
      assert RenderChars(cs) + "\"" == first + rest;
      HasSplit(doc, p, first, rest);
      CharsScanned(doc, p + |first|, cs[1..]);
      CharScanned(doc, p, cs[0]);
    }
  }

  lemma CharScanned(doc: string, p: nat, c: Char)
    requires LooseChar(c) && Has(doc, p, RenderChar(c))
    ensures ScanString(doc, p) == ScanString(doc, p + |RenderChar(c)|)
  {
    var s := RenderChar(c);
    HasAt(doc, p, s, 0);
    match c {
      case Raw(_) =>
      case Short(_) =>
        HasAt(doc, p, s, 1);
      case Unicode(h) =>
        UnicodeScanned(doc, p, h);
      case Pair(h, l) =>
        assert s == ("\\u" + h) + ("\\u" + l);
        HasSplit(doc, p, "\\u" + h, "\\u" + l);
        UnicodeScanned(doc, p, h);
        UnicodeScanned(doc, p + 6, l);
    }
  }

  lemma UnicodeScanned(doc: string, p: nat, h: string)
    requires IsHex4(h) && Has(doc, p, "\\u" + h)
    ensures ScanString(doc, p) == ScanString(doc, p + 6)
  {
    var s := "\\u" + h;
    HasAt(doc, p, s, 0);
    HasAt(doc, p, s, 2);
    HasAt(doc, p, s, 3);
    HasAt(doc, p, s, 4);
    HasAt(doc, p, s, 5);
    assert doc[p + 2] == h[0] && doc[p + 3] == h[1] && doc[p + 4] == h[2] && doc[p + 5] == h[3];
    HexIsPlain(h[0]);
    HexIsPlain(h[1]);
    HexIsPlain(h[2]);
    HexIsPlain(h[3]);
    assert ScanString(doc, p) == ScanString(doc, p + 2);
    assert ScanString(doc, p + 2) == ScanString(doc, p + 3);
    assert ScanString(doc, p + 3) == ScanString(doc, p + 4);
    assert ScanString(doc, p + 4) == ScanString(doc, p + 5);
    assert ScanString(doc, p + 5) == ScanString(doc, p + 6);
  }

  lemma HexIsPlain(c: char)
    requires HexDigit(c) >= 0
    ensures c != '"' && c != '\\'
  {
  }

  lemma CharsUnfold(cs: seq<Char>)
    requires LooseChars(cs)
    ensures cs == [] ==> RenderChars(cs) == "" && DenoteChars(cs) == ""
    ensures cs != [] ==>
              && LooseChar(cs[0]) && LooseChars(cs[1..])
              && RenderChars(cs) == RenderChar(cs[0]) + RenderChars(cs[1..])
              && DenoteChars(cs) == DenoteChar(cs[0]) + DenoteChars(cs[1..])
  {
    hide LooseChar, RenderChar, DenoteChar;
  }

  lemma {:induction false} CharsDecoded(doc: string, p: nat, cs: seq<Char>)
    requires LooseChars(cs) && Has(doc, p, RenderChars(cs))
    ensures p + |RenderChars(cs)| <= |doc|
    ensures Decode(doc, p, p + |RenderChars(cs)|) == Text(DenoteChars(cs))
    decreases |cs|
  {
    hide *;
    HasInside(doc, p, RenderChars(cs));
    CharsUnfold(cs);
    if cs == [] {
      DecodeEnd(doc, p);
    } else {
      var first, rest := RenderChar(cs[0]), cs[1..];
      HasSplit(doc, p, first, RenderChars(rest));
      CharsDecoded(doc, p + |first|, rest);
      CharDecoded(doc, p, p + |RenderChars(cs)|, cs[0]);
      AfterText(DenoteChar(cs[0]), DenoteChars(rest));
    }
  }

  lemma AfterText(first: string, rest: string)
    ensures Text(rest).After(first) == Text(first + rest)
  {
  }

  lemma DecodeEnd(doc: string, p: nat)
    requires p <= |doc|
    ensures Decode(doc, p, p) == Text("")
  {
  }

  lemma CharDecoded(doc: string, p: nat, end: nat, c: Char)
    requires LooseChar(c) && Has(doc, p, RenderChar(c)) && p + |RenderChar(c)| <= end <= |doc|
    ensures Decode(doc, p, end) == Decode(doc, p + |RenderChar(c)|, end).After(DenoteChar(c))
  {
    match c {
      case Raw(_) => RawDecoded(doc, p, end, c);
      case Short(_) => ShortDecoded(doc, p, end, c);
      case Unicode(_) => UnicodeDecoded(doc, p, end, c);
      case Pair(_, _) => PairCharDecoded(doc, p, end, c);
    }
  }

  lemma RawDecoded(doc: string, p: nat, end: nat, c: Char)
    requires c.Raw? && LooseChar(c) && Has(doc, p, RenderChar(c)) && p + |RenderChar(c)| <= end <= |doc|
    ensures Decode(doc, p, end) == Decode(doc, p + |RenderChar(c)|, end).After(DenoteChar(c))
  {
    hide Decode, Has, ShortEscape, HexDigit, Hex4Value, CodePointToUTF8, DecodeCodePoint;
    HasAt(doc, p, RenderChar(c), 0);
    DecodeOne(doc, p, end);
  }

  lemma ShortDecoded(doc: string, p: nat, end: nat, c: Char)
    requires c.Short? && LooseChar(c) && Has(doc, p, RenderChar(c)) && p + |RenderChar(c)| <= end <= |doc|
    ensures Decode(doc, p, end) == Decode(doc, p + |RenderChar(c)|, end).After(DenoteChar(c))
  {
    hide Decode, Has, ShortEscape, Escaped, HexDigit, Hex4Value, CodePointToUTF8, DecodeCodePoint;
    HasAt(doc, p, RenderChar(c), 0);
    HasAt(doc, p, RenderChar(c), 1);
    EscapedIs(doc[p + 1]);
    DecodeOne(doc, p, end);
  }

  /** The reader's table of escapes is that of the grammar. */
  lemma EscapedIs(c: char)
    ensures ShortEscape(c).Some? <==> Escaped(c) != 0
    ensures ShortEscape(c).Some? ==> ShortEscape(c).value == Escaped(c) as char
  {
  }

  lemma UnicodeDecoded(doc: string, p: nat, end: nat, c: Char)
    requires c.Unicode? && LooseChar(c) && Has(doc, p, RenderChar(c)) && p + |RenderChar(c)| <= end <= |doc|
    ensures Decode(doc, p, end) == Decode(doc, p + |RenderChar(c)|, end).After(DenoteChar(c))
  {
    hide Decode, Has, DecodeHex4, ShortEscape, HexDigit, Hex4Value, IsHex4, CodePointToUTF8;
    HexLength(c.h);
    HexDecoded(doc, p, end, c.h);
    DecodeOne(doc, p, end);
  }

  lemma PairCharDecoded(doc: string, p: nat, end: nat, c: Char)
    requires c.Pair? && LooseChar(c) && Has(doc, p, RenderChar(c)) && p + |RenderChar(c)| <= end <= |doc|
    ensures Decode(doc, p, end) == Decode(doc, p + |RenderChar(c)|, end).After(DenoteChar(c))
  {
    hide Decode, Has, DecodeHex4, DecodeCodePoint, ShortEscape, HexDigit, Hex4Value, IsHex4, CodePointToUTF8;
    var h, l := c.high, c.low;
    HexLength(h);
    HexLength(l);
    assert RenderChar(c) == ("\\u" + h) + ("\\u" + l);
    HasSplit(doc, p, "\\u" + h, "\\u" + l);
    PairDecoded(doc, p, end, h, l);
    HexDecoded(doc, p, end, h);
    DecodeOne(doc, p, end);
  }

  lemma HexLength(h: string)
    requires IsHex4(h)
    ensures |h| == 4
  {
  }

  /** One character decoded, by the kind of its escape. */
  lemma DecodeOne(doc: string, i: nat, end: nat)
    requires i < end <= |doc|
    ensures doc[i] != '"' && doc[i] != '\\' ==> Decode(doc, i, end) == Decode(doc, i + 1, end).After([doc[i]])
    ensures i + 2 <= end && doc[i] == '\\' && ShortEscape(doc[i + 1]).Some? ==>
              Decode(doc, i, end) == Decode(doc, i + 2, end).After([ShortEscape(doc[i + 1]).value])
    ensures i + 2 <= end && doc[i] == '\\' && doc[i + 1] == 'u' && DecodeCodePoint(doc, i + 2, end).Point? ==>
              var point := DecodeCodePoint(doc, i + 2, end);
              Decode(doc, i, end) == Decode(doc, point.next, end).After(CodePointToUTF8(point.unicode))
  {
    hide DecodeCodePoint, CodePointToUTF8;
  }

  lemma HexDecoded(doc: string, p: nat, end: nat, h: string)
    requires IsHex4(h) && Has(doc, p, "\\u" + h) && p + 6 <= end <= |doc|
    ensures DecodeHex4(doc, p + 2, end) == Point(Hex4Value(h), p + 6)
    ensures doc[p] == '\\' && doc[p + 1] == 'u'
  {
    var s := "\\u" + h;
    HasAt(doc, p, s, 0);
    HasAt(doc, p, s, 1);
    HasSplit(doc, p, "\\u", h);
    assert doc[p + 2..p + 6] == h;
    HasAt(doc, p + 2, h, 0);
    HasAt(doc, p + 2, h, 1);
    HasAt(doc, p + 2, h, 2);
    HasAt(doc, p + 2, h, 3);
    hide HexDigit;
  }

  lemma PairDecoded(doc: string, p: nat, end: nat, h: string, l: string)
    requires LooseChar(Pair(h, l)) && Has(doc, p, "\\u" + h) && Has(doc, p + 6, "\\u" + l)
    requires p + 12 <= end <= |doc|
    ensures DecodeCodePoint(doc, p + 2, end) == Point(SurrogatePoint(Hex4Value(h), Hex4Value(l)), p + 12)
  {
    hide DecodeHex4, Hex4Value, IsHex4;
    HexDecoded(doc, p, end, h);
    HexDecoded(doc, p + 6, end, l);
    assert Hex4Value(h) % 0x400 == Hex4Value(h) - 0xd800;
  }

  lemma {:induction false} DenoteNulFree(cs: seq<Char>)
    requires ValidChars(cs)
    ensures NulFree(DenoteChars(cs))
    decreases |cs|
  {
    if cs != [] {
      DenoteNulFree(cs[1..]);
      CharNulFree(cs[0]);
    }
  }

  lemma CharNulFree(c: Char)
    requires ValidChar(c)
    ensures NulFree(DenoteChar(c))
  {
    match c {
      case Raw(_) =>
      case Short(_) =>
      case Unicode(h) => UTF8RoundTrip(Hex4Value(h));
      case Pair(h, l) =>
        UTF8RoundTrip(SurrogatePoint(Hex4Value(h), Hex4Value(l)));
    }
  }

  lemma StringParts(doc: string, p: nat, body: string)
    requires Has(doc, p, "\"" + body + "\"")
    ensures doc[p] == '"' && Has(doc, p + 1, body + "\"") && Has(doc, p + 1, body)
  {
    assert "\"" + body + "\"" == "\"" + (body + "\"");
    HasSplit(doc, p, "\"", body + "\"");
    HasSplit(doc, p + 1, body, "\"");
    HasAt(doc, p, "\"", 0);
  }

  lemma StringTokenAt(doc: string, p: nat)
    requires p < |doc| && doc[p] == '"'
    ensures TokenAt(doc, p) == Scanned(StringToken, p, ScanString(doc, p + 1))
  {
    hide ScanString;
  }

  /** A string is one string token, and decodes to what it denotes. */
  lemma StringAccepted(doc: string, p: nat, cs: seq<Char>)
    requires LooseChars(cs) && Has(doc, p, RenderString(cs))
    ensures var end := p + |RenderString(cs)|;
            && TokenAt(doc, p) == Token(StringToken, p, end)
            && Decode(doc, p + 1, end - 1) == Text(DenoteChars(cs))
            && (ValidChars(cs) ==> CString(DenoteChars(cs)) == DenoteChars(cs))
            && doc[p] == '"'
  {
    hide ScanString, Decode, DenoteChars, RenderChars, ValidChars, LooseChars, Has, TokenAt, CString;
    StringParts(doc, p, RenderChars(cs));
    CharsScanned(doc, p + 1, cs);
    CharsDecoded(doc, p + 1, cs);
    if ValidChars(cs) {
      DenoteNulFree(cs);
    }
    StringTokenAt(doc, p);
    assert |RenderString(cs)| == |RenderChars(cs)| + 2;
  }

  // ---------- numbers ----------

  /** A number token ends at `q` when no number character stands there. */
  predicate Delimited(doc: string, q: nat) {
    q < |doc| ==> !Numeric(doc[q])
  }

  /** The scanner's notion of a number, and what `decodeNumber` looks for in it. */
  lemma NumberWords(s: string)
    ensures NumberText(s) <==>
            && s != "" && (0x30 <= s[0] as int <= 0x39 || s[0] == '-')
            && forall i :: 0 <= i < |s| ==> Numeric(s[i])
    ensures NumberText(s) ==> (IsDouble(s) <==> Fractional(s))
  {
    if NumberText(s) {
      assert forall i :: 0 <= i < |s| ==> IsNumberChar(s[i]);
      assert forall i :: 0 <= i < |s| ==>
        (DoubleChar(s, i) <==> !(0x30 <= s[i] as int <= 0x39) && (s[i] == '-' ==> i > 0));
    }
  }

  lemma NumberForm(n: Number)
    requires LooseNumber(n)
    ensures var s := RenderNumber(n);
            && NumberText(s)
            && (IsDouble(s) <==> n.fraction != "" || n.exponent != "")
            && (!IsDouble(s) ==> (Negative(s) <==> n.negative) && Magnitude(s) == n.digits)
  {
    hide RenderNumber, Fractional, IsDouble, NumberText;
    NumberWords(RenderNumber(n));
    NumberParts(n);
    if n.fraction == "" && n.exponent == "" {
      DigitsOnly(n);
    }
  }

  lemma DigitsOnly(n: Number)
    requires LooseNumber(n) && n.fraction == "" && n.exponent == ""
    ensures var s := RenderNumber(n);
            && !Fractional(s) && (Negative(s) <==> n.negative) && Magnitude(s) == n.digits
  {
    NumberParts(n);
    hide RenderNumber, Fractional;
    var s := RenderNumber(n);
    var d := if n.negative then 1 else 0;
    assert s[d..] == n.digits;
    forall i | 0 <= i < |s| ensures 0x30 <= s[i] as int <= 0x39 || (s[i] == '-' && i < d) {
      assert d <= i ==> IsDigit(n.digits[i - d]);
    }
    assert !n.negative ==> IsDigit(n.digits[0]);
    NotFractional(s);
  }

  lemma NotFractional(s: string)
    requires forall i :: 0 <= i < |s| ==> 0x30 <= s[i] as int <= 0x39 || (s[i] == '-' && i == 0)
    ensures !Fractional(s)
  {
  }

  lemma NumberAccepted(doc: string, p: nat, n: Number, scan: string -> Option<real>)
    requires LooseNumber(n) && (ExactNumber(n) || scan(RenderNumber(n)).Some?)
    requires Has(doc, p, RenderNumber(n)) && Delimited(doc, p + |RenderNumber(n)|)
    ensures TokenAt(doc, p) == Token(NumberToken, p, p + |RenderNumber(n)|)
    ensures NumberText(RenderNumber(n))
    ensures DecodeNumber(RenderNumber(n), scan) == Some(DenoteNumber(n, scan))
  {
    hide RenderNumber, IsDouble, ValueOf, Fractional, NumberText;
    NumberForm(n);
    NumberScanned(doc, p, RenderNumber(n));
  }

  lemma NumberScanned(doc: string, p: nat, s: string)
    requires NumberText(s) && Has(doc, p, s) && Delimited(doc, p + |s|)
    ensures TokenAt(doc, p) == Token(NumberToken, p, p + |s|)
  {
    HasAt(doc, p, s, 0);
    forall i | p <= i < p + |s| ensures IsNumberChar(doc[i]) {
      HasAt(doc, p, s, i - p);
    }
    assert ScanNumber(doc, p + 1) == p + |s|;
  }

  // ---------- maps ----------

  function Append(m: Entries, n: Entries): Entries {
    match m
    case End => n
    case Entry(k, v, rest) => Entry(k, v, Append(rest, n))
  }

  /** The array holds indices below `index` only. */
  predicate IndicesBelow(m: Entries, index: nat) {
    m.Entry? ==> m.key.Index? && m.key.index < index && IndicesBelow(m.rest, index)
  }

  lemma {:induction false} PutAppends(m: Entries, index: nat, v: Value, more: Entries)
    requires IndicesBelow(m, index)
    ensures Put(m, Index(index), v) == Append(m, Entry(Index(index), v, End))
    ensures IndicesBelow(Put(m, Index(index), v), index + 1)
    ensures Append(Put(m, Index(index), v), more) == Append(m, Entry(Index(index), v, more))
  {
    if m.Entry? {
      PutAppends(m.rest, index, v, more);
    }
  }

  lemma {:induction false} StripIndices(m: Entries, index: nat)
    requires IndicesBelow(m, index)
    ensures IndicesBelow(StripEntries(m), index)
  {
    if m.Entry? {
      StripIndices(m.rest, index);
    }
  }

  // ---------- values ----------

  predicate HeadChar(c: char) {
    c == 'n' || c == 't' || c == 'f' || c == '-' || IsDigit(c) || c == '"' || c == '[' || c == '{'
  }

  lemma RenderHead(j: Json)
    requires LooseJson(j)
    ensures Render(j) != "" && HeadChar(Render(j)[0])
  {
    if j.JNumber? {
      assert IsDigit(Render(j)[0]) || Render(j)[0] == '-';
    }
  }

  /** A gap and a value: the value's first token starts behind the gap. */
  lemma ValueBehind(env: Env, p: nat, pre: string, j: Json, post: string)
    requires ValueGap(env, pre) && LooseJson(j) && Has(env.doc, p, pre + (Render(j) + post))
    ensures Has(env.doc, p + |pre|, Render(j) + post) && Has(env.doc, p + |pre|, Render(j))
    ensures Has(env.doc, p + |pre| + |Render(j)|, post)
    ensures p + |pre| < |env.doc| && HeadChar(env.doc[p + |pre|])
    ensures FirstToken(env, p) == TokenAt(env.doc, p + |pre|)
  {
    hide Render, TokenAt, FirstToken, LooseJson, Gap;
    HasSplit(env.doc, p, pre, Render(j) + post);
    HasSplit(env.doc, p + |pre|, Render(j), post);
    RenderHead(j);
    HasAt(env.doc, p + |pre|, Render(j), 0);
    NoComment(env.doc, p + |pre|);
    FirstBehind(env, p, pre);
  }

  lemma KeywordAccepted(doc: string, p: nat, word: string)
    requires word == "null" || word == "true" || word == "false"
    requires Has(doc, p, word)
    ensures TokenAt(doc, p) ==
            Token(if word == "null" then NullToken else if word == "true" then TrueToken else FalseToken,
                  p, p + |word|)
  {
    HasAt(doc, p, word, 0);
    HasSplit(doc, p, word[..1], word[1..]);
    assert word == word[..1] + word[1..];
    if word == "null" {
      assert word[1..] == "ull";
    } else if word == "true" {
      assert word[1..] == "rue";
    } else {
      assert word[1..] == "alse";
    }
  }

  /** What reading `j` from position p has to give. */
  ghost predicate Accepted(r: Read, end: nat, v: Value) {
    r.ok && r.pos == end && Strip(r.value) == v
  }

  lemma NumberRead(env: Env, p: nat, current: Value, pre: string, n: Number)
    requires ValueGap(env, pre) && LooseNumber(n) && (ExactNumber(n) || env.scan(RenderNumber(n)).Some?)
    requires Has(env.doc, p, pre + RenderNumber(n)) && Delimited(env.doc, p + |pre| + |RenderNumber(n)|)
    ensures Accepted(ReadValue(env, p, current), p + |pre| + |RenderNumber(n)|, Plain(DenoteNumber(n, env.scan)))
  {
    hide TokenAt, DecodeNumber, RenderNumber, ReadValue, FirstToken, LooseNumber, ExactNumber;
    var text := RenderNumber(n);
    assert Render(JNumber(n)) == text;
    assert text + "" == text;
    ValueBehind(env, p, pre, JNumber(n), "");
    NumberAccepted(env.doc, p + |pre|, n, env.scan);
    NumberIs(env, p, current, FirstToken(env, p));
  }

  lemma StringRead(env: Env, p: nat, current: Value, pre: string, cs: seq<Char>)
    requires ValueGap(env, pre) && LooseChars(cs) && Has(env.doc, p, pre + RenderString(cs))
    ensures Accepted(ReadValue(env, p, current), p + |pre| + |RenderString(cs)|, Plain(Str(CString(DenoteChars(cs)))))
  {
    hide TokenAt, Decode, RenderString, ReadValue, FirstToken, LooseChars, DenoteChars, CString;
    assert Render(JString(cs)) == RenderString(cs);
    assert RenderString(cs) + "" == RenderString(cs);
    ValueBehind(env, p, pre, JString(cs), "");
    StringAccepted(env.doc, p + |pre|, cs);
    StringIs(env, p, current, FirstToken(env, p));
  }

  lemma KeywordRead(env: Env, p: nat, current: Value, pre: string, j: Json)
    requires ValueGap(env, pre) && (j.JNull? || j.JTrue? || j.JFalse?)
    requires Has(env.doc, p, pre + Render(j))
    ensures Accepted(ReadValue(env, p, current), p + |pre| + |Render(j)|, Denote(j, env.scan))
  {
    hide TokenAt, FirstToken, ReadValue;
    assert Render(j) + "" == Render(j);
    ValueBehind(env, p, pre, j, "");
    KeywordAccepted(env.doc, p + |pre|, Render(j));
    WordIs(env, p, current, FirstToken(env, p));
  }

  lemma ScalarIs(j: Json, scan: string -> Option<real>)
    requires LooseJson(j) && Scans(j, scan)
    ensures j.JNumber? ==>
              && LooseNumber(j.number) && (ExactNumber(j.number) || scan(RenderNumber(j.number)).Some?)
              && Render(j) == RenderNumber(j.number)
              && Denote(j, scan) == Plain(DenoteNumber(j.number, scan))
    ensures j.JString? ==>
              && LooseChars(j.chars) && Render(j) == RenderString(j.chars)
              && Denote(j, scan) == Plain(Str(CString(DenoteChars(j.chars))))
  {
  }

  /** Reading a scalar. */
  lemma ScalarAccepted(env: Env, p: nat, current: Value, pre: string, j: Json)
    requires !j.JArray? && !j.JObject?
    requires ValueGap(env, pre) && Readable(env, j) && Scans(j, env.scan)
    requires Has(env.doc, p, pre + Render(j))
    requires j.JNumber? ==> Delimited(env.doc, p + |pre| + |Render(j)|)
    ensures Accepted(ReadValue(env, p, current), p + |pre| + |Render(j)|, Denote(j, env.scan))
  {
    hide ReadValue, Accepted, Denote, Render, Has, Delimited, RenderNumber, RenderString, DenoteNumber, DenoteChars;
    ScalarIs(j, env.scan);
    match j {
      case JNumber(n) => NumberRead(env, p, current, pre, n);
      case JString(cs) => StringRead(env, p, current, pre, cs);
      case _ => KeywordRead(env, p, current, pre, j);
    }
  }

  // ---------- the induction ----------

  /** Every value, behind white space and comments and, when it is a number, before anything
      that does not prolong it, is read completely and gives what it denotes. */
  lemma {:induction false} ValueAccepted(env: Env, p: nat, current: Value, pre: string, j: Json)
    requires ValueGap(env, pre) && Readable(env, j) && Scans(j, env.scan)
    requires Has(env.doc, p, pre + Render(j))
    requires j.JNumber? ==> Delimited(env.doc, p + |pre| + |Render(j)|)
    ensures Accepted(ReadValue(env, p, current), p + |pre| + |Render(j)|, Denote(j, env.scan))
    decreases j, 4
  {
    hide ReadValue, Denote, Accepted, Render;
    match j {
      case JArray(_, _) => ArrayAccepted(env, p, current, pre, j);
      case JObject(_, _) => ObjectAccepted(env, p, current, pre, j);
      case _ => ScalarAccepted(env, p, current, pre, j);
    }
  }

  lemma MarkAt(doc: string, p: nat, kind: TokenType)
    requires p < |doc|
    requires (doc[p] == '[' && kind == ArrayBegin) || (doc[p] == '{' && kind == ObjectBegin)
    ensures TokenAt(doc, p) == Token(kind, p, p + 1)
  {
  }

  /** Where the parts of an array stand. */
  lemma ArrayText(env: Env, p: nat, pre: string, j: Json)
    requires j.JArray? && ValueGap(env, pre) && Readable(env, j) && Has(env.doc, p, pre + Render(j))
    ensures FirstToken(env, p) == Token(ArrayBegin, p + |pre|, p + |pre| + 1)
    ensures j.elements.NoElement? ==>
              var q := p + |pre| + 1 + |j.gap|;
              && SkipSpaces(env.doc, p + |pre| + 1) == q
              && At(env.doc, q) == ']' && |Render(j)| == |j.gap| + 2
    ensures j.elements.Element? ==>
              var es := j.elements;
              var n := SkipSpaces(es.before, 0);
              var q := p + |pre| + 1 + n;
              && SkipSpaces(env.doc, p + |pre| + 1) == q
              && At(env.doc, q) != ']' && ValueGap(env, es.before[n..])
              && Has(env.doc, q, es.before[n..] + RenderElement(es))
              && |Render(j)| == 1 + |es.before| + |RenderElement(es)|
  {
    hide TokenAt, FirstToken, SkipSpaces, RenderElement, ReadToken, ReadPastComments, Has, AfterElement, Gap, AllSpace,
         At, ValueGap;
    var q := p + |pre|;
    var es := j.elements;
    assert Render(j) + "" == Render(j);
    ValueBehind(env, p, pre, j, "");
    var inner := if es.NoElement? then j.gap + "]" else RenderElements(es);
    assert Render(j) == "[" + inner;
    HasSplit(env.doc, q, "[", inner);
    HasAt(env.doc, q, "[", 0);
    MarkAt(env.doc, q, ArrayBegin);
    if es.NoElement? {
      BracketText(env.doc, q + 1, j.gap);
    } else {
      ElementStart(env, q + 1, es);
    }
  }

  lemma BracketText(doc: string, p: nat, gap: string)
    requires AllSpace(gap) && Has(doc, p, gap + "]")
    ensures p <= |doc| && SkipSpaces(doc, p) == p + |gap| && At(doc, p + |gap|) == ']'
  {
    HasSplit(doc, p, gap, "]");
    HasInside(doc, p + |gap|, "]");
    HasAt(doc, p + |gap|, "]", 0);
    SpacesSkipped(doc, p, gap);
  }

  /** The array loop skips white space before its first element. */
  lemma ElementStart(env: Env, p: nat, es: Elements)
    requires es.Element? && ReadableElements(env, es) && Has(env.doc, p, RenderElements(es))
    ensures p <= |env.doc|
    ensures var n := SkipSpaces(es.before, 0);
            && SkipSpaces(env.doc, p) == p + n
            && At(env.doc, p + n) != ']' && ValueGap(env, es.before[n..])
            && Has(env.doc, p + n, es.before[n..] + RenderElement(es))
  {
    hide SkipSpaces, RenderElement, RenderElements, Has, Gap, AllSpace, HeadChar, Readable, ReadableElements;
    var n := SkipSpaces(es.before, 0);
    BeforeReads(env, es);
    GapTail(es.before);
    RenderElementIs(es);
    GapCut(env.doc, p, es.before, RenderElement(es), n);
    ElementHead(env.doc, p + |es.before|, es);
    HeadIs(env.doc[p + |es.before|]);
    SpacesCounted(env.doc, p, es.before, 0);
    TailStarts(env.doc, p + n, es.before[n..]);
    TailSpace(es.before[n..]);
  }

  lemma BeforeReads(env: Env, es: Elements)
    requires es.Element? && ReadableElements(env, es)
    ensures Gap(es.before) && LooseJson(es.value) && (env.allowComments || AllSpace(es.before))
  {
    hide Gap, AllSpace, LooseJson, Uncommented;
  }

  lemma GapCut(doc: string, p: nat, gap: string, rest: string, n: nat)
    requires Has(doc, p, gap + rest) && n <= |gap|
    ensures p + |gap| <= |doc| && Has(doc, p, gap)
    ensures Has(doc, p + n, gap[n..] + rest) && Has(doc, p + n, gap[n..]) && Has(doc, p + |gap|, rest)
  {
    hide Has;
    assert gap + rest == gap[..n] + (gap[n..] + rest);
    HasSplit(doc, p, gap[..n], gap[n..] + rest);
    HasSplit(doc, p + n, gap[n..], rest);
    HasSplit(doc, p, gap, rest);
    HasInside(doc, p, gap);
  }

  lemma ElementHead(doc: string, p: nat, es: Elements)
    requires es.Element? && LooseJson(es.value) && Has(doc, p, RenderElement(es))
    ensures p < |doc| && HeadChar(doc[p])
  {
    hide Has, Render, AfterElement, HeadChar, LooseJson;
    RenderHead(es.value);
    HasSplit(doc, p, Render(es.value), AfterElement(es));
    HasInside(doc, p, Render(es.value));
    HasAt(doc, p, Render(es.value), 0);
  }

  /** What is left of a gap behind its white space starts a comment. */
  lemma TailStarts(doc: string, p: nat, tail: string)
    requires Has(doc, p, tail) && Gap(tail) && (tail != "" ==> !White(tail[0]))
    ensures tail != "" ==> p < |doc| && doc[p] == '/'
  {
    hide Has, Gap;
    GapHead(tail, "");
    HasInside(doc, p, tail);
    if tail != "" {
      HasAt(doc, p, tail, 0);
    }
  }

  lemma TailSpace(tail: string)
    ensures tail == "" ==> AllSpace(tail)
  {
  }

  lemma HeadIs(c: char)
    requires HeadChar(c)
    ensures !White(c) && c != ']' && c != '/'
  {
  }

  lemma ReadableIs(env: Env, j: Json)
    requires Readable(env, j)
    ensures LooseJson(j)
    ensures j.JArray? ==> ReadableElements(env, j.elements)
    ensures j.JObject? ==> ReadableMembers(env, j.members) && !j.members.Dangling?
  {
    hide Gap, AllSpace;
  }

  lemma ElementReads(env: Env, es: Elements)
    requires es.Element? && ReadableElements(env, es)
    ensures ValueGap(env, es.before) && Readable(env, es.value) && Gap(es.after) && ReadableElements(env, es.rest)
    ensures LooseElements(es)
  {
    hide Gap, AllSpace, LooseJson, Uncommented;
  }

  lemma ArrayDenotes(j: Json, scan: string -> Option<real>)
    requires j.JArray? && LooseJson(j) && Scans(j, scan)
    ensures LooseElements(j.elements) && ScansElements(j.elements, scan)
    ensures Denote(j, scan) == Plain(Array(DenoteElements(j.elements, 0, scan)))
    ensures j.elements.NoElement? ==> Denote(j, scan) == Plain(Array(End))
  {
  }

  lemma ObjectDenotes(j: Json, scan: string -> Option<real>)
    requires j.JObject? && LooseJson(j) && Scans(j, scan)
    ensures LooseMembers(j.members) && ScansMembers(j.members, scan)
    ensures Denote(j, scan) == Plain(Object(DenoteMembers(j.members, End, scan)))
    ensures j.members.NoMember? ==> Denote(j, scan) == Plain(Object(End))
  {
  }

  /** What remains of a container without its offsets. */
  lemma StripContainer(v: Value, limit: nat)
    ensures v.body.Array? ==> Strip(v.(limit := limit)) == Plain(Array(StripEntries(v.body.elements)))
    ensures v.body.Object? ==> Strip(v.(limit := limit)) == Plain(Object(StripEntries(v.body.members)))
    ensures StripEntries(End) == End
  {
  }

  /** An outcome with the offsets of the container filled in. */
  lemma ContainerAccepted(r: Read, o: Read, v: Value)
    requires r == Read(o.ok, o.value.(limit := o.pos), o.pos, o.errors) && o.ok
    requires o.value.body.Array? ==> v == Plain(Array(StripEntries(o.value.body.elements)))
    requires o.value.body.Object? ==> v == Plain(Object(StripEntries(o.value.body.members)))
    requires o.value.body.Array? || o.value.body.Object?
    ensures Accepted(r, o.pos, v)
  {
    hide Strip, StripEntries;
    StripContainer(o.value, o.pos);
  }

  lemma AppendToEmpty(n: Entries)
    ensures Append(End, n) == n && IndicesBelow(End, 0)
  {
  }

  lemma EmptyArrayAccepted(env: Env, p: nat, current: Value, pre: string, j: Json)
    requires j.JArray? && j.elements.NoElement?
    requires ValueGap(env, pre) && Readable(env, j) && Scans(j, env.scan)
    requires Has(env.doc, p, pre + Render(j))
    ensures Accepted(ReadValue(env, p, current), p + |pre| + |Render(j)|, Denote(j, env.scan))
  {
    hide *;
    ReadableIs(env, j);
    ArrayText(env, p, pre, j);
    var t := FirstToken(env, p);
    ContainerIs(env, p, current, t);
    ArrayBegins(env, t);
    var arr := Value(Array(End), p + |pre|, 0);
    ArrayDenotes(j, env.scan);
    StripContainer(arr, 0);
    ContainerAccepted(ReadValue(env, p, current), ReadArray(env, t), Denote(j, env.scan));
  }

  lemma {:induction false} ArrayAccepted(env: Env, p: nat, current: Value, pre: string, j: Json)
    requires j.JArray?
    requires ValueGap(env, pre) && Readable(env, j) && Scans(j, env.scan)
    requires Has(env.doc, p, pre + Render(j))
    ensures Accepted(ReadValue(env, p, current), p + |pre| + |Render(j)|, Denote(j, env.scan))
    decreases j, 3
  {
    hide *;
    ReadableIs(env, j);
    var es := j.elements;
    if es.NoElement? {
      EmptyArrayAccepted(env, p, current, pre, j);
    } else {
      ArrayText(env, p, pre, j);
      var t := FirstToken(env, p);
      ContainerIs(env, p, current, t);
      ArrayBegins(env, t);
      ArrayDenotes(j, env.scan);
      var arr := Value(Array(End), p + |pre|, 0);
      AppendToEmpty(DenoteElements(es, 0, env.scan));
      StripContainer(arr, 0);
      var n := SkipSpaces(es.before, 0);
      ElementsAccepted(env, p + |pre| + 1 + n, es.before[n..], es, arr, 0);
      ContainerAccepted(ReadValue(env, p, current), ReadArray(env, t), Denote(j, env.scan));
    }
  }

  lemma NoSpace()
    ensures AllSpace("") && Gap("")
  {
  }

  lemma RenderElementIs(es: Elements)
    requires es.Element?
    ensures RenderElement(es) == Render(es.value) + AfterElement(es)
    ensures RenderElements(es) == es.before + RenderElement(es)
  {
    hide Render, AfterElement;
  }

  /** Where the parts of an element stand. */
  lemma ElementText(env: Env, p: nat, pre: string, es: Elements)
    requires es.Element? && LooseElements(es) && Has(env.doc, p, pre + RenderElement(es))
    ensures var end := p + |pre| + |Render(es.value)|;
            var next := end + |es.after| + 1;
            && Has(env.doc, p, pre + Render(es.value)) && Delimited(env.doc, end)
            && (es.rest.NoElement? ==>
                  && ReadPastComments(env.doc, end) == Token(ArrayEnd, next - 1, next)
                  && next == p + |pre| + |RenderElement(es)|)
            && (es.rest.Element? ==>
                  && ReadPastComments(env.doc, end) == Token(ArraySeparator, next - 1, next)
                  && Has(env.doc, next, RenderElements(es.rest))
                  && p + |pre| + |RenderElement(es)| == next + |RenderElements(es.rest)|)
  {
    hide Render, RenderElements, ReadPastComments, ReadToken, FirstToken, TokenAt, Has, Gap, AllSpace, LooseJson;
    RenderElementIs(es);
    var end := p + |pre| + |Render(es.value)|;
    HasSplit(env.doc, p, pre, Render(es.value) + AfterElement(es));
    HasSplit(env.doc, p + |pre|, Render(es.value), AfterElement(es));
    HasSplit(env.doc, p, pre, Render(es.value));
    if es.rest.NoElement? {
      AfterDelimits(env, end, es.after, "]");
      MarkBehind(env, end, es.after, "]");
    } else {
      var more := RenderElements(es.rest);
      AfterDelimits(env, end, es.after, "," + more);
      assert es.after + ("," + more) == (es.after + ",") + more;
      HasSplit(env.doc, end, es.after + ",", more);
      MarkBehind(env, end, es.after, ",");
    }
  }

  lemma ElementDenotes(es: Elements, index: nat, scan: string -> Option<real>)
    requires es.Element? && LooseElements(es) && ScansElements(es, scan)
    ensures LooseJson(es.value) && LooseElements(es.rest) && Scans(es.value, scan) && ScansElements(es.rest, scan)
    ensures DenoteElements(es, index, scan) ==
            Entry(Index(index), Denote(es.value, scan), DenoteElements(es.rest, index + 1, scan))
    ensures es.rest.NoElement? ==> DenoteElements(es.rest, index + 1, scan) == End
  {
    hide LooseJson, Scans, Denote, AllSpace, Gap;
  }

  lemma {:induction false} ElementsAccepted(env: Env, p: nat, pre: string, es: Elements, arr: Value, index: nat)
    requires es.Element? && ValueGap(env, pre) && ReadableElements(env, es) && ScansElements(es, env.scan)
    requires Has(env.doc, p, pre + RenderElement(es))
    requires arr.body.Array? && IndicesBelow(arr.body.elements, index)
    ensures var r := ReadElements(env, p, arr, index);
            && r.ok && r.pos == p + |pre| + |RenderElement(es)|
            && r.value.body.Array?
            && StripEntries(r.value.body.elements) ==
               Append(StripEntries(arr.body.elements), DenoteElements(es, index, env.scan))
    decreases es, 2
  {
    hide *;
    ElementReads(env, es);
    ElementText(env, p, pre, es);
    ElementDenotes(es, index, env.scan);
    var end := p + |pre| + |Render(es.value)|;
    var key := Index(index);
    var current := Child(arr.body.elements, key);
    ValueAccepted(env, p, current, pre, es.value);
    AcceptedIs(ReadValue(env, p, current), end, Denote(es.value, env.scan));
    ElementsIs(env, p, arr, index);
    var v := ReadValue(env, p, current).value;
    var more := DenoteElements(es.rest, index + 1, env.scan);
    StripPut(arr.body.elements, key, v);
    StripIndices(arr.body.elements, index);
    PutAppends(arr.body.elements, index, v, End);
    PutAppends(StripEntries(arr.body.elements), index, Strip(v), more);
    if es.rest.Element? {
      RenderElementIs(es.rest);
      ElementReads(env, es.rest);
      var grown := arr.(body := Array(Put(arr.body.elements, key, v)));
      ElementsAccepted(env, end + |es.after| + 1, es.rest.before, es.rest, grown, index + 1);
    }
  }

  lemma AcceptedIs(r: Read, end: nat, v: Value)
    requires Accepted(r, end, v)
    ensures r.ok && r.pos == end && Strip(r.value) == v
  {
    hide Strip;
  }

  /** Nothing that may follow a value prolongs a number. */
  lemma AfterDelimits(env: Env, p: nat, after: string, rest: string)
    requires Gap(after) && Has(env.doc, p, after + rest)
    requires rest != "" && (after == "" ==> rest[0] == ',' || rest[0] == ']' || rest[0] == '}')
    ensures Delimited(env.doc, p)
  {
    hide Gap;
    GapHead(after, rest);
    var text := after + rest;
    HasAt(env.doc, p, text, 0);
    assert env.doc[p] == text[0] == if after == "" then rest[0] else after[0];
  }

  /** Where the parts of an object stand. */
  lemma ObjectText(env: Env, p: nat, pre: string, j: Json)
    requires j.JObject? && ValueGap(env, pre) && LooseJson(j) && Has(env.doc, p, pre + Render(j))
    ensures FirstToken(env, p) == Token(ObjectBegin, p + |pre|, p + |pre| + 1)
    ensures j.members.NoMember? ==>
              && var end := p + |pre| + |Render(j)|;
              && ReadPastComments(env.doc, p + |pre| + 1) == Token(ObjectEnd, end - 1, end)
    ensures j.members.Member? ==>
              && Has(env.doc, p + |pre| + 1, RenderMembers(j.members))
              && |Render(j)| == 1 + |RenderMembers(j.members)|
  {
    hide TokenAt, FirstToken, ReadPastComments, ReadToken, RenderMembers, Has, Gap, AllSpace, ValueGap;
    var q := p + |pre|;
    var ms := j.members;
    assert Render(j) + "" == Render(j);
    ValueBehind(env, p, pre, j, "");
    var inner := if ms.NoMember? then j.gap + "}" else RenderMembers(ms);
    assert Render(j) == "{" + inner;
    HasSplit(env.doc, q, "{", inner);
    HasAt(env.doc, q, "{", 0);
    MarkAt(env.doc, q, ObjectBegin);
    if ms.NoMember? {
      MarkBehind(env, q + 1, j.gap, "}");
    }
  }

  lemma EmptyObjectAccepted(env: Env, p: nat, current: Value, pre: string, j: Json)
    requires j.JObject? && j.members.NoMember?
    requires ValueGap(env, pre) && Readable(env, j) && Scans(j, env.scan)
    requires Has(env.doc, p, pre + Render(j))
    ensures Accepted(ReadValue(env, p, current), p + |pre| + |Render(j)|, Denote(j, env.scan))
  {
    hide *;
    ReadableIs(env, j);
    ObjectText(env, p, pre, j);
    var t := FirstToken(env, p);
    ContainerIs(env, p, current, t);
    var obj := Value(Object(End), p + |pre|, 0);
    MembersStop(env, t.end, obj, "", ReadPastComments(env.doc, t.end));
    ObjectDenotes(j, env.scan);
    StripContainer(obj, 0);
    ContainerAccepted(ReadValue(env, p, current), ReadMembers(env, t.end, obj, ""), Denote(j, env.scan));
  }

  lemma {:induction false} ObjectAccepted(env: Env, p: nat, current: Value, pre: string, j: Json)
    requires j.JObject?
    requires ValueGap(env, pre) && Readable(env, j) && Scans(j, env.scan)
    requires Has(env.doc, p, pre + Render(j))
    ensures Accepted(ReadValue(env, p, current), p + |pre| + |Render(j)|, Denote(j, env.scan))
    decreases j, 3
  {
    hide *;
    ReadableIs(env, j);
    var ms := j.members;
    if ms.NoMember? {
      EmptyObjectAccepted(env, p, current, pre, j);
    } else {
      ObjectDenotes(j, env.scan);
      ObjectText(env, p, pre, j);
      var t := FirstToken(env, p);
      ContainerIs(env, p, current, t);
      var obj := Value(Object(End), p + |pre|, 0);
      StripContainer(obj, 0);
      MembersAccepted(env, t.end, obj, "", ms);
      ContainerAccepted(ReadValue(env, p, current), ReadMembers(env, t.end, obj, ""), Denote(j, env.scan));
    }
  }

  lemma RenderMembersIs(ms: Members)
    requires ms.Member?
    ensures RenderMembers(ms) ==
            ms.before + (RenderString(ms.name) + ((ms.beforeColon + ":") + (ms.afterColon + RenderMember(ms))))
    ensures RenderMember(ms) == Render(ms.value) + AfterMember(ms)
  {
    hide Render, RenderString, AfterMember;
    var tail := ms.afterColon + (Render(ms.value) + AfterMember(ms));
    assert ms.beforeColon + ":" + tail == (ms.beforeColon + ":") + tail;
  }

  /** Where the name and the colon of a member stand. */
  lemma NameText(env: Env, p: nat, ms: Members)
    requires ms.Member? && LooseMembers(ms) && Has(env.doc, p, RenderMembers(ms))
    ensures p <= |env.doc|
    ensures var q := p + |ms.before|;
            var end := q + |RenderString(ms.name)|;
            var next := end + |ms.beforeColon| + 1;
            && ReadPastComments(env.doc, p) == Token(StringToken, q, end)
            && Decode(env.doc, q + 1, end - 1) == Text(DenoteChars(ms.name))
            && ReadToken(env.doc, end) == Token(MemberSeparator, next - 1, next)
            && Has(env.doc, next, ms.afterColon + RenderMember(ms))
            && p + |RenderMembers(ms)| == next + |ms.afterColon + RenderMember(ms)|
  {
    hide ReadPastComments, ReadToken, FirstToken, TokenAt, Decode, Render, RenderString, RenderMembers,
         RenderMember, DenoteChars, Has, LooseChars, Gap, AllSpace, LooseJson;
    RenderMembersIs(ms);
    var text := RenderString(ms.name);
    var tail := ms.afterColon + RenderMember(ms);
    HasSplit(env.doc, p, ms.before, text + ((ms.beforeColon + ":") + tail));
    var q := p + |ms.before|;
    HasSplit(env.doc, q, text, (ms.beforeColon + ":") + tail);
    HasSplit(env.doc, q + |text|, ms.beforeColon + ":", tail);
    StringAccepted(env.doc, q, ms.name);
    QuoteAt(env.doc, q);
    GapSkipped(env.doc, p, ms.before);
    SpaceIsGap(ms.beforeColon);
    MarkBehind(env, q + |text|, ms.beforeColon, ":");
  }

  lemma QuoteAt(doc: string, q: nat)
    requires q < |doc| && doc[q] == '"'
    ensures !White(doc[q]) && TokenAt(doc, q).kind != CommentToken
  {
  }

  lemma MemberReads(env: Env, ms: Members)
    requires ms.Member? && ReadableMembers(env, ms)
    ensures ValueGap(env, ms.afterColon) && LooseChars(ms.name) && Readable(env, ms.value) && ReadableMembers(env, ms.rest)
    ensures LooseMembers(ms)
  {
    hide Gap, AllSpace, LooseJson, Uncommented, LooseChars, DenoteChars, Separates;
  }

  lemma {:induction false} MembersAccepted(env: Env, p: nat, obj: Value, name: string, ms: Members)
    requires ms.Member? && ReadableMembers(env, ms) && ScansMembers(ms, env.scan)
    requires Has(env.doc, p, RenderMembers(ms))
    requires obj.body.Object?
    ensures var r := ReadMembers(env, p, obj, name);
            && r.ok && r.pos == p + |RenderMembers(ms)|
            && r.value.body.Object?
            && StripEntries(r.value.body.members) ==
               DenoteMembers(ms, StripEntries(obj.body.members), env.scan)
    decreases ms, 2
  {
    hide *;
    MemberReads(env, ms);
    NameText(env, p, ms);
    var t := ReadPastComments(env.doc, p);
    NameShape(env, p, t);
    MembersNamed(env, p, obj, name, t);
    var next := p + |ms.before| + |RenderString(ms.name)| + |ms.beforeColon| + 1;
    MemberAccepted(env, next, obj, ms);
  }

  /** A closing brace behind a comma, after an empty name. */
  lemma DanglingAccepted(env: Env, p: nat, obj: Value, ms: Members)
    requires ms.Dangling? && LooseMembers(ms) && Has(env.doc, p, RenderMembers(ms))
    requires obj.body.Object?
    ensures ReadMembers(env, p, obj, "") == Read(true, obj, p + |RenderMembers(ms)|, [])
    ensures ScansMembers(ms, env.scan) && DenoteMembers(ms, StripEntries(obj.body.members), env.scan) ==
                                          StripEntries(obj.body.members)
  {
    hide ReadMembers, ReadPastComments, ReadToken, Has, StripEntries, Gap;
    MarkBehind(env, p, ms.gap, "}");
    MembersStop(env, p, obj, "", ReadPastComments(env.doc, p));
  }

  lemma MembersHead(ms: Members)
    requires !ms.NoMember? && LooseMembers(ms)
    ensures RenderMembers(ms) != "" && Stops(RenderMembers(ms)[0])
  {
    hide Gap, AllSpace, LooseJson, LooseChars, DenoteChars, Separates, Render;
    if ms.Dangling? {
      GapHead(ms.gap, "}");
    } else {
      GapHead(ms.before, RenderString(ms.name) + (ms.beforeColon + ":" + (ms.afterColon + RenderMember(ms))));
    }
  }

  /** What stands between two members ends the first. */
  lemma SeparatorText(env: Env, p: nat, after: string, separator: string, more: string)
    requires Gap(after) && Separates(after, separator) && Has(env.doc, p, after + (separator + more))
    requires more != "" && Stops(more[0])
    ensures p <= |env.doc| && Delimited(env.doc, p) && EndsMember(ReadToken(env.doc, p).kind)
    ensures ReadPastComments(env.doc, p).kind != ObjectEnd
    ensures ReadPastComments(env.doc, p).end == p + |after| + |separator|
    ensures Has(env.doc, p + |after| + |separator|, more)
  {
    hide ReadToken, ReadPastComments, Has, Gap, OneToken;
    SeparatorHead(after, separator);
    AfterDelimits(env, p, after, separator + more);
    HasSplit(env.doc, p, after, separator + more);
    HasSplit(env.doc, p + |after|, separator, more);
    HasSplit(env.doc, p, after, separator);
    HasInside(env.doc, p + |after| + |separator|, more);
    HasAt(env.doc, p + |after| + |separator|, more, 0);
    if separator == "," {
      MarkBehind(env, p, after, ",");
    } else {
      TokenExtends(env.doc, p + |after|, separator);
      GapSkipped(env.doc, p, after);
    }
  }

  lemma SeparatorHead(after: string, separator: string)
    requires Separates(after, separator)
    ensures separator != "" && (after == "" ==> separator == ",")
  {
  }

  /** Where the value of a member stands, and what follows it. */
  lemma MemberText(env: Env, p: nat, ms: Members)
    requires ms.Member? && LooseMembers(ms) && Has(env.doc, p, ms.afterColon + RenderMember(ms))
    ensures var end := p + |ms.afterColon| + |Render(ms.value)|;
            && end <= |env.doc|
            && Has(env.doc, p, ms.afterColon + Render(ms.value)) && Delimited(env.doc, end)
            && EndsMember(ReadToken(env.doc, end).kind)
            && (ms.rest.NoMember? ==>
                  var next := end + |ms.after| + 1;
                  && ReadPastComments(env.doc, end) == Token(ObjectEnd, next - 1, next)
                  && next == p + |ms.afterColon| + |RenderMember(ms)|)
            && (!ms.rest.NoMember? ==>
                  var next := end + |ms.after| + |ms.separator|;
                  && ReadPastComments(env.doc, end).kind != ObjectEnd
                  && ReadPastComments(env.doc, end).end == next
                  && Has(env.doc, next, RenderMembers(ms.rest))
                  && p + |ms.afterColon| + |RenderMember(ms)| == next + |RenderMembers(ms.rest)|)
  {
    hide Render, RenderMembers, RenderMember, ReadPastComments, ReadToken, FirstToken, TokenAt, Has, Gap, AllSpace,
         LooseJson, LooseChars, DenoteChars, Separates;
    RenderMembersIs(ms);
    var end := p + |ms.afterColon| + |Render(ms.value)|;
    HasSplit(env.doc, p, ms.afterColon, Render(ms.value) + AfterMember(ms));
    HasSplit(env.doc, p + |ms.afterColon|, Render(ms.value), AfterMember(ms));
    HasSplit(env.doc, p, ms.afterColon, Render(ms.value));
    if ms.rest.NoMember? {
      AfterDelimits(env, end, ms.after, "}");
      MarkBehind(env, end, ms.after, "}");
    } else {
      MembersHead(ms.rest);
      SeparatorText(env, end, ms.after, ms.separator, RenderMembers(ms.rest));
    }
  }

  lemma MemberDenotes(ms: Members, m: Entries, scan: string -> Option<real>)
    requires ms.Member? && LooseMembers(ms) && ScansMembers(ms, scan)
    ensures && LooseChars(ms.name) && LooseJson(ms.value) && LooseMembers(ms.rest)
            && Scans(ms.value, scan) && ScansMembers(ms.rest, scan)
    ensures DenoteMembers(ms, m, scan) ==
            DenoteMembers(ms.rest, Put(m, Name(CString(DenoteChars(ms.name))), Denote(ms.value, scan)), scan)
    ensures ms.rest.Dangling? ==> DenoteChars(ms.name) == ""
  {
    hide LooseChars, LooseJson, Scans, Denote, DenoteChars, CString, AllSpace, Gap, Separates, Put;
  }

  lemma LastMember(m: Entries, scan: string -> Option<real>)
    ensures ScansMembers(NoMember, scan) && DenoteMembers(NoMember, m, scan) == m
  {
  }

  lemma {:induction false} MemberAccepted(env: Env, p: nat, obj: Value, ms: Members)
    requires ms.Member? && ReadableMembers(env, ms) && ScansMembers(ms, env.scan)
    requires Has(env.doc, p, ms.afterColon + RenderMember(ms))
    requires obj.body.Object?
    ensures var r := ReadMember(env, p, obj, DenoteChars(ms.name));
            && r.ok && r.pos == p + |ms.afterColon| + |RenderMember(ms)|
            && r.value.body.Object?
            && StripEntries(r.value.body.members) ==
               DenoteMembers(ms, StripEntries(obj.body.members), env.scan)
    decreases ms, 1
  {
    hide *;
    MemberReads(env, ms);
    MemberText(env, p, ms);
    MemberDenotes(ms, StripEntries(obj.body.members), env.scan);
    var name := DenoteChars(ms.name);
    var key := Name(CString(name));
    var current := Child(obj.body.members, key);
    var end := p + |ms.afterColon| + |Render(ms.value)|;
    ValueAccepted(env, p, current, ms.afterColon, ms.value);
    AcceptedIs(ReadValue(env, p, current), end, Denote(ms.value, env.scan));
    MemberIs(env, p, obj, name);
    var v := ReadValue(env, p, current).value;
    StripPut(obj.body.members, key, v);
    var next := end + |ms.after| + |ms.separator|;
    var grown := obj.(body := Object(Put(obj.body.members, key, v)));
    match ms.rest {
      case Member(_, _, _, _, _, _, _, _) => MembersAccepted(env, next, grown, name, ms.rest);
      case Dangling(_) => DanglingAccepted(env, next, grown, ms.rest);
      case NoMember => LastMember(StripEntries(grown.body.members), env.scan);
    }
  }

  // ---------- documents ----------

  /** A document that starts with a gap and the text of `j`. */
  ghost predicate Starts(env: Env, strictRoot: bool, pre: string, j: Json, post: string) {
    && ValueGap(env, pre) && Readable(env, j) && Scans(j, env.scan)
    && env.doc == pre + Render(j) + post
    && (j.JNumber? && post != "" ==> !Numeric(post[0]))
    && (strictRoot ==> j.JArray? || j.JObject?)
  }

  /** The reader accepts every text `JsonSyntax` describes, comments included. */
  lemma DocumentAccepted(env: Env, strictRoot: bool, root: Value, pre: string, j: Json, post: string)
    requires Starts(env, strictRoot, pre, j, post)
    ensures var r := Parse(env, strictRoot, root);
            r.ok && r.errors == [] && r.pos == |pre + Render(j)| && Strip(r.value) == Denote(j, env.scan)
  {
    hide ReadValue, Render;
    assert Has(env.doc, 0, pre + Render(j));
    ValueAccepted(env, 0, root, pre, j);
  }

  /** The reader accepts every JSON text, with comments allowed or not, whatever
      root value it is given, and produces the value the text denotes. Text
      behind the root value is ignored. */
  lemma GrammarAccepted(env: Env, strictRoot: bool, root: Value, pre: string, j: Json, post: string)
    requires AllSpace(pre) && ValidJson(j) && Scans(j, env.scan)
    requires env.doc == pre + Render(j) + post
    requires j.JNumber? && post != "" ==> !Numeric(post[0])
    requires strictRoot ==> j.JArray? || j.JObject?
    ensures var r := Parse(env, strictRoot, root);
            r.ok && r.errors == [] && r.pos == |pre + Render(j)| && Strip(r.value) == Denote(j, env.scan)
  {
    hide Parse, Render, Denote, Scans, ValidJson, LooseJson, AllSpace, Gap;
    SpaceIsGap(pre);
    DocumentAccepted(env, strictRoot, root, pre, j, post);
  }
}
