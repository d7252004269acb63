/** Which documents the reader accepts: exactly those that start with one of the loose
    texts of `JsonSyntax` behind white space and comments. */
module JsonExact {
  import opened CStrings
  import opened Optional
  import opened JsonValue
  import opened JsonText
  import opened JsonScan
  import opened JsonNumber
  import opened JsonSyntax
  import opened JsonParse
  import opened JsonSteps
  import opened JsonGaps
  import opened JsonSpans
  import opened JsonAccept

  // ---------- tokens ----------

  /** The gap and the first token of a value. */
  lemma FirstFound(env: Env, p: nat) returns (pre: string)
    requires p <= |env.doc| && FirstToken(env, p).start < |env.doc|
    requires FirstToken(env, p).kind != CommentToken
    ensures var t := FirstToken(env, p);
            && ValueGap(env, pre) && Has(env.doc, p, pre) && t.start == p + |pre| && t == TokenAt(env.doc, t.start)
  {
    hide TokenAt, ReadToken, ReadPastComments, Gap, AllSpace;
    ReadTokenIs(env.doc, p);
    PastCommentsIs(env.doc, p);
    GapFound(env.doc, p);
    pre := env.doc[p..FirstToken(env, p).start];
  }

  /** The text of a one-character token. */
  function Mark(kind: TokenType): string {
    match kind
    case ObjectBegin => "{"
    case ObjectEnd => "}"
    case ArrayBegin => "["
    case ArrayEnd => "]"
    case ArraySeparator => ","
    case MemberSeparator => ":"
    case _ => ""
  }

  lemma Marks()
    ensures Mark(ArrayEnd) == "]" && Mark(ArraySeparator) == "," && Mark(ObjectEnd) == "}"
    ensures Mark(MemberSeparator) == ":" && Mark(ArrayBegin) == "[" && Mark(ObjectBegin) == "{"
    ensures Mark(EndOfStream) == "" && Mark(CommentToken) == ""
  {
  }

  lemma SliceStands(doc: string, p: nat, q: nat)
    requires p <= q <= |doc|
    ensures Has(doc, p, doc[p..q])
  {
  }

  lemma MarkIs(doc: string, q: nat)
    requires q <= |doc| && Mark(TokenAt(doc, q).kind) != ""
    ensures Has(doc, q, Mark(TokenAt(doc, q).kind)) && TokenAt(doc, q).end == q + 1
    ensures |Mark(TokenAt(doc, q).kind)| == 1
  {
    hide ScanString, ScanNumber, ScanComment, Keyword;
    assert q < |doc| && Mark(TokenAt(doc, q).kind) == [doc[q]];
    assert doc[q..q + 1] == [doc[q]];
  }

  lemma Joined(doc: string, p: nat, a: string, b: string)
    requires Has(doc, p, a) && Has(doc, p + |a|, b)
    ensures Has(doc, p, a + b)
  {
    HasSplit(doc, p, a, b);
  }

  /** White space, comments and a punctuation mark. */
  lemma MarkFound(doc: string, p: nat) returns (gap: string)
    requires p <= |doc| && Mark(ReadPastComments(doc, p).kind) != ""
    ensures Gap(gap) && (AllSpace(gap) <==> ReadToken(doc, p).kind != CommentToken)
    ensures var t := ReadPastComments(doc, p);
            && |Mark(t.kind)| == 1 && Has(doc, p, gap + Mark(t.kind))
            && t.start == p + |gap| && t.end == p + |gap| + 1 <= |doc|
            && (ReadToken(doc, p).kind != CommentToken ==> ReadToken(doc, p) == t)
  {
    hide *;
    Marks();
    var t := ReadPastComments(doc, p);
    GapFound(doc, p);
    gap := doc[p..t.start];
    SliceStands(doc, p, t.start);
    MarkIs(doc, t.start);
    Joined(doc, p, gap, Mark(t.kind));
  }

  /** The colon may stand behind white space only. */
  lemma ColonFound(doc: string, p: nat) returns (gap: string)
    requires p <= |doc| && ReadToken(doc, p).kind == MemberSeparator
    ensures var t := ReadToken(doc, p);
            AllSpace(gap) && Has(doc, p, gap + ":") && t.start == p + |gap| && t.end == p + |gap| + 1
  {
    hide *;
    Marks();
    PastCommentsIs(doc, p);
    gap := MarkFound(doc, p);
  }

  // ---------- strings ----------

  lemma HexFound(doc: string, i: nat, end: nat)
    requires i + 2 <= end <= |doc| && doc[i] == '\\' && doc[i + 1] == 'u'
    requires DecodeHex4(doc, i + 2, end).Point?
    ensures i + 6 <= end && IsHex4(doc[i + 2..i + 6]) && Has(doc, i, "\\u" + doc[i + 2..i + 6])
    ensures DecodeHex4(doc, i + 2, end) == Point(Hex4Value(doc[i + 2..i + 6]), i + 6)
  {
    hide HexDigit;
    var h := doc[i + 2..i + 6];
    assert doc[i..i + 6] == "\\u" + h;
  }

  lemma EscapeFound(doc: string, i: nat, end: nat) returns (c: Char)
    requires i + 2 <= end <= |doc| && doc[i] == '\\' && doc[i + 1] == 'u'
    requires DecodeCodePoint(doc, i + 2, end).Point?
    ensures LooseChar(c) && Has(doc, i, RenderChar(c)) && i < i + |RenderChar(c)| <= end
  {
    hide DecodeHex4, Hex4Value, IsHex4, Has;
    HexFound(doc, i, end);
    var h := doc[i + 2..i + 6];
    if HighSurrogate(Hex4Value(h)) {
      HexFound(doc, i + 6, end);
      var l := doc[i + 8..i + 12];
      c := Pair(h, l);
      Joined(doc, i, "\\u" + h, "\\u" + l);
      assert ("\\u" + h) + ("\\u" + l) == RenderChar(c);
    } else {
      c := Unicode(h);
    }
  }

  /** The first character of the inside of a string token. */
  lemma CharFound(doc: string, i: nat, end: nat) returns (c: Char)
    requires i < end <= |doc| && doc[i] != '"' && Decode(doc, i, end).Text?
    ensures LooseChar(c) && Has(doc, i, RenderChar(c)) && i < i + |RenderChar(c)| <= end
  {
    hide DecodeCodePoint, CodePointToUTF8;
    if doc[i] != '\\' {
      c := Raw(doc[i]);
    } else if doc[i + 1] == 'u' {
      c := EscapeFound(doc, i, end);
    } else {
      c := Short(doc[i + 1]);
      assert doc[i..i + 2] == ['\\', doc[i + 1]];
    }
  }

  lemma AfterFails(d: Decoded, s: string)
    requires d.After(s).Text?
    ensures d.Text?
  {
  }

  lemma QuoteEnds(doc: string, i: nat)
    requires i < |doc| && doc[i] == '"'
    ensures ScanString(doc, i) == Scan(true, i + 1)
  {
  }

  lemma {:induction false} CharsFound(doc: string, i: nat, end: nat) returns (cs: seq<Char>)
    requires i <= end < |doc| && ScanString(doc, i) == Scan(true, end + 1) && Decode(doc, i, end).Text?
    ensures LooseChars(cs) && Has(doc, i, RenderChars(cs)) && i + |RenderChars(cs)| == end
    decreases end - i
  {
    hide *;
    if i == end {
      cs := [];
      NoChars(doc, i);
    } else {
      if doc[i] == '"' {
        QuoteEnds(doc, i);
        assert false;
      }
      var c := CharFound(doc, i, end);
      var q := i + |RenderChar(c)|;
      CharScanned(doc, i, c);
      CharDecoded(doc, i, end, c);
      AfterFails(Decode(doc, q, end), DenoteChar(c));
      var more := CharsFound(doc, q, end);
      cs := [c] + more;
      CharsJoined(c, more);
      Joined(doc, i, RenderChar(c), RenderChars(more));
    }
  }

  lemma NoChars(doc: string, i: nat)
    requires i <= |doc|
    ensures LooseChars([]) && RenderChars([]) == "" && Has(doc, i, "")
  {
  }

  lemma CharsJoined(c: Char, more: seq<Char>)
    requires LooseChar(c) && LooseChars(more)
    ensures LooseChars([c] + more) && RenderChars([c] + more) == RenderChar(c) + RenderChars(more)
  {
    hide LooseChar, RenderChar;
    assert ([c] + more)[1..] == more;
  }

  lemma StringTokenIs(doc: string, q: nat)
    requires q <= |doc| && TokenAt(doc, q).kind == StringToken
    ensures q < |doc| && doc[q] == '"'
    ensures var end := TokenAt(doc, q).end;
            && q + 2 <= end <= |doc| && ScanString(doc, q + 1) == Scan(true, end) && doc[end - 1] == '"'
  {
    hide ScanString;
  }

  /** A string token that decodes. */
  lemma StringFound(doc: string, q: nat) returns (cs: seq<Char>)
    requires q <= |doc| && TokenAt(doc, q).kind == StringToken
    requires q + 2 <= TokenAt(doc, q).end && Decode(doc, q + 1, TokenAt(doc, q).end - 1).Text?
    ensures LooseChars(cs) && Has(doc, q, RenderString(cs)) && q + |RenderString(cs)| == TokenAt(doc, q).end
    ensures Decode(doc, q + 1, TokenAt(doc, q).end - 1) == Text(DenoteChars(cs))
  {
    hide *;
    StringTokenIs(doc, q);
    var end := TokenAt(doc, q).end;
    cs := CharsFound(doc, q + 1, end - 1);
    QuotesAround(doc, q, end, RenderChars(cs));
    RenderStringIs(cs);
    StringAccepted(doc, q, cs);
  }

  lemma RenderStringIs(cs: seq<Char>)
    ensures RenderString(cs) == "\"" + RenderChars(cs) + "\""
  {
  }

  lemma QuotesAround(doc: string, q: nat, end: nat, body: string)
    requires q + 1 < end <= |doc| && doc[q] == '"' && doc[end - 1] == '"'
    requires Has(doc, q + 1, body) && q + 1 + |body| == end - 1
    ensures Has(doc, q, "\"" + body + "\"") && q + |"\"" + body + "\""| == end
  {
    assert doc[q..end] == "\"" + body + "\"";
  }

  // ---------- numbers ----------

  /** A number token that decodes. */
  lemma NumberFound(text: string, scan: string -> Option<real>) returns (n: Number)
    requires NumberText(text) && DecodeNumber(text, scan).Some?
    ensures LooseNumber(n) && RenderNumber(n) == text && (ExactNumber(n) || scan(text).Some?)
  {
    if IsDouble(text) {
      n := Number(false, "", text, "");
      assert "" + "" + text + "" == text;
    } else {
      IntegerText(text);
      n := Number(Negative(text), Magnitude(text), "", "");
      assert RenderNumber(n) == text;
    }
  }

  lemma NumberTokenIs(doc: string, q: nat)
    requires q <= |doc| && TokenAt(doc, q).kind == NumberToken
    ensures Delimited(doc, TokenAt(doc, q).end)
  {
    hide ScanNumber;
  }

  // ---------- values ----------

  /** A gap and the text of `j` stand between p and `end`. */
  ghost predicate Found(env: Env, p: nat, pre: string, j: Json, end: nat) {
    && ValueGap(env, pre) && Readable(env, j) && Scans(j, env.scan)
    && Has(env.doc, p, pre + Render(j)) && end == p + |pre| + |Render(j)| && end <= |env.doc|
    && (j.JNumber? ==> Delimited(env.doc, end))
  }

  lemma NumberValueFound(env: Env, p: nat, current: Value) returns (pre: string, j: Json)
    requires p <= |env.doc|
    requires ReadValue(env, p, current).ok && FirstToken(env, p).kind == NumberToken
    ensures Found(env, p, pre, j, ReadValue(env, p, current).pos)
  {
    hide TokenAt, FirstToken, ReadValue, ReadToken, ReadPastComments, DecodeNumber, NumberText, LooseNumber,
         RenderNumber, ExactNumber, AllSpace, IsDouble;
    pre := FirstFound(env, p);
    var t := FirstToken(env, p);
    var q := t.start;
    NumberIs(env, p, current, t);
    var n := NumberFound(env.doc[t.start..t.end], env.scan);
    NumberTokenIs(env.doc, q);
    j := JNumber(n);
    Joined(env.doc, p, pre, RenderNumber(n));
  }

  lemma StringValueFound(env: Env, p: nat, current: Value) returns (pre: string, j: Json)
    requires p <= |env.doc|
    requires ReadValue(env, p, current).ok && FirstToken(env, p).kind == StringToken
    ensures Found(env, p, pre, j, ReadValue(env, p, current).pos)
  {
    hide *;
    pre := FirstFound(env, p);
    var q := FirstToken(env, p).start;
    StringIs(env, p, current, FirstToken(env, p));
    var cs := StringFound(env.doc, q);
    j := JString(cs);
    Joined(env.doc, p, pre, RenderString(cs));
    StringFoundIs(env, p, pre, cs);
  }

  lemma StringFoundIs(env: Env, p: nat, pre: string, cs: seq<Char>)
    requires ValueGap(env, pre) && LooseChars(cs) && Has(env.doc, p, pre + RenderString(cs))
    ensures Found(env, p, pre, JString(cs), p + |pre| + |RenderString(cs)|)
  {
    hide ValueGap, LooseChars, RenderString;
  }

  lemma WordTokenIs(doc: string, q: nat, j: Json)
    requires q <= |doc|
    requires match TokenAt(doc, q).kind case TrueToken => j == JTrue case FalseToken => j == JFalse
                                        case NullToken => j == JNull case _ => false
    ensures Has(doc, q, Render(j)) && TokenAt(doc, q).end == q + |Render(j)|
  {
    var t := TokenAt(doc, q);
    assert doc[q..t.end] == [doc[q]] + doc[q + 1..t.end];
  }

  lemma WordValueFound(env: Env, p: nat, current: Value) returns (pre: string, j: Json)
    requires p <= |env.doc|
    requires ReadValue(env, p, current).ok && FirstToken(env, p).kind in {TrueToken, FalseToken, NullToken}
    ensures Found(env, p, pre, j, ReadValue(env, p, current).pos)
  {
    hide TokenAt, FirstToken, ReadValue, ReadToken, ReadPastComments, AllSpace, Has;
    pre := FirstFound(env, p);
    var t := FirstToken(env, p);
    var q := t.start;
    WordIs(env, p, current, t);
    j := if t.kind == TrueToken then JTrue else if t.kind == FalseToken then JFalse else JNull;
    WordTokenIs(env.doc, q, j);
    Joined(env.doc, p, pre, Render(j));
  }

  /** What the reader reads successfully is a gap and a loose text. */
  lemma {:induction false} ValueFound(env: Env, p: nat, current: Value) returns (pre: string, j: Json)
    requires p <= |env.doc| && ReadValue(env, p, current).ok
    ensures Found(env, p, pre, j, ReadValue(env, p, current).pos)
    decreases |env.doc| - p, 2
  {
    hide *;
    var t := FirstToken(env, p);
    match t.kind {
      case ObjectBegin => pre, j := ObjectFound(env, p, current);
      case ArrayBegin => pre, j := ArrayFound(env, p, current);
      case NumberToken => pre, j := NumberValueFound(env, p, current);
      case StringToken => pre, j := StringValueFound(env, p, current);
      case TrueToken => pre, j := WordValueFound(env, p, current);
      case FalseToken => pre, j := WordValueFound(env, p, current);
      case NullToken => pre, j := WordValueFound(env, p, current);
      case _ =>
        WordIs(env, p, current, t);
        assert false;
    }
  }

  // ---------- arrays ----------

  /** The elements and the closing bracket stand between p and `end`. */
  ghost predicate FoundElements(env: Env, p: nat, es: Elements, end: nat) {
    && es.Element? && ReadableElements(env, es) && ScansElements(es, env.scan)
    && Has(env.doc, p, RenderElements(es)) && end == p + |RenderElements(es)| && end <= |env.doc|
  }

  lemma ElementJoined(env: Env, p: nat, pre: string, j: Json, mid: nat, after: string, rest: Elements, end: nat)
    requires Found(env, p, pre, j, mid) && Gap(after) && end <= |env.doc|
    requires rest.NoElement? ==> Has(env.doc, mid, after + "]") && end == mid + |after| + 1
    requires rest.Element? ==> Has(env.doc, mid, after + ",") && FoundElements(env, mid + |after| + 1, rest, end)
    ensures FoundElements(env, p, Element(pre, j, after, rest), end)
  {
    hide Gap, ValueGap, Readable, ReadableElements, Scans, Render, RenderElements, ScansElements, Has;
    var es := Element(pre, j, after, rest);
    var tail := after + (if rest.NoElement? then "]" else "," + RenderElements(rest));
    if rest.Element? {
      Joined(env.doc, mid, after + ",", RenderElements(rest));
      Bare(after, ",", RenderElements(rest));
    }
    Joined(env.doc, p, pre + Render(j), tail);
    Bare(pre, Render(j), tail);
    AfterElementIs(es);
    RenderElementIs(es);
    ReadableIs(env, j);
    ReadableElement(env, es);
  }

  lemma AfterElementIs(es: Elements)
    requires es.Element?
    ensures AfterElement(es) == es.after + (if es.rest.NoElement? then "]" else "," + RenderElements(es.rest))
  {
    hide RenderElements;
  }

  lemma ReadableElement(env: Env, es: Elements)
    requires es.Element? && ValueGap(env, es.before) && Readable(env, es.value) && Gap(es.after)
    requires Scans(es.value, env.scan)
    requires es.rest.Element? ==> ReadableElements(env, es.rest) && ScansElements(es.rest, env.scan)
    ensures ReadableElements(env, es) && ScansElements(es, env.scan)
  {
    hide LooseJson, Uncommented, Scans, AllSpace, Gap;
    if es.rest.NoElement? {
      assert es.rest == NoElement;
      assert ReadableElements(env, es.rest) && ScansElements(es.rest, env.scan);
    }
  }

  lemma {:induction false} ElementsFound(env: Env, p: nat, arr: Value, index: nat) returns (es: Elements)
    requires p <= |env.doc| && arr.body.Array? && ReadElements(env, p, arr, index).ok
    ensures FoundElements(env, p, es, ReadElements(env, p, arr, index).pos)
    decreases |env.doc| - p, 3
  {
    hide *;
    ElementsSucceed(env, p, arr, index);
    var key := Index(index);
    var current := Child(arr.body.elements, key);
    var v := ReadValue(env, p, current);
    var grown := arr.(body := Array(Put(arr.body.elements, key, v.value)));
    var pre, j := ValueFound(env, p, current);
    var t := ReadPastComments(env.doc, v.pos);
    Marks();
    var after := MarkFound(env.doc, v.pos);
    if t.kind == ArrayEnd {
      es := Element(pre, j, after, NoElement);
      ElementJoined(env, p, pre, j, v.pos, after, NoElement, t.end);
    } else {
      var rest := ElementsFound(env, t.end, grown, index + 1);
      var end := ReadElements(env, t.end, grown, index + 1).pos;
      es := Element(pre, j, after, rest);
      FoundElementsIs(env, t.end, rest, end);
      ElementJoined(env, p, pre, j, v.pos, after, rest, end);
    }
  }

  lemma FoundElementsIs(env: Env, p: nat, es: Elements, end: nat)
    requires FoundElements(env, p, es, end)
    ensures es.Element? && end <= |env.doc|
  {
    hide ReadableElements, ScansElements, RenderElements, Has;
  }

  /** The brackets of an array and white space in it. */
  lemma {:induction false} ArrayFound(env: Env, p: nat, current: Value) returns (pre: string, j: Json)
    requires p <= |env.doc|
    requires ReadValue(env, p, current).ok && FirstToken(env, p).kind == ArrayBegin
    ensures Found(env, p, pre, j, ReadValue(env, p, current).pos)
    decreases |env.doc| - p, 1
  {
    hide *;
    var t := FirstToken(env, p);
    Marks();
    pre := OpeningFound(env, p);
    ContainerIs(env, p, current, t);
    ArrayBegins(env, t);
    var q := SkipSpaces(env.doc, t.end);
    var gap := env.doc[t.end..q];
    SpacesFound(env.doc, t.end);
    SliceStands(env.doc, t.end, q);
    var end := ReadArray(env, t).pos;
    if At(env.doc, q) == ']' {
      j := JArray(gap, NoElement);
      BracketFound(env.doc, t.end, q, gap);
      EmptyArrayJoined(env, p, pre, gap, end);
    } else {
      var es := ElementsFound(env, q, Value(Array(End), t.start, 0), 0);
      FoundElementsIs(env, q, es, end);
      j := JArray("", Element(gap + es.before, es.value, es.after, es.rest));
      ArrayJoined(env, p, pre, gap, es, end);
    }
  }

  /** What stands before and at the begin of a container. */
  lemma OpeningFound(env: Env, p: nat) returns (pre: string)
    requires p <= |env.doc| && (FirstToken(env, p).kind == ArrayBegin || FirstToken(env, p).kind == ObjectBegin)
    ensures var t := FirstToken(env, p);
            ValueGap(env, pre) && Has(env.doc, p, pre + Mark(t.kind)) && t.end == p + |pre| + 1 <= |env.doc|
  {
    hide *;
    Marks();
    pre := FirstFound(env, p);
    var t := FirstToken(env, p);
    MarkIs(env.doc, t.start);
    Joined(env.doc, p, pre, Mark(t.kind));
  }

  lemma BracketFound(doc: string, p: nat, q: nat, gap: string)
    requires p <= q <= |doc| && gap == doc[p..q] && At(doc, q) == ']'
    ensures Has(doc, p, gap + "]") && q + 1 <= |doc|
  {
    assert doc[p..q + 1] == gap + "]";
  }

  lemma EmptyArrayJoined(env: Env, p: nat, pre: string, gap: string, end: nat)
    requires ValueGap(env, pre) && Has(env.doc, p, pre + "[")
    requires AllSpace(gap) && Has(env.doc, p + |pre| + 1, gap + "]") && end == p + |pre| + |gap| + 2
    requires end <= |env.doc|
    ensures Found(env, p, pre, JArray(gap, NoElement), end)
  {
    hide AllSpace, Has, ValueGap, Render, LooseJson, Uncommented, Scans;
    Joined(env.doc, p, pre + "[", gap + "]");
    Bare(pre, "[", gap + "]");
    EmptyArrayIs(gap, env.scan);
  }

  lemma EmptyArrayIs(gap: string, scan: string -> Option<real>)
    requires AllSpace(gap)
    ensures var j := JArray(gap, NoElement);
            Render(j) == "[" + (gap + "]") && LooseJson(j) && Uncommented(j) && Scans(j, scan)
  {
    assert LooseElements(NoElement) && UncommentedElements(NoElement) && ScansElements(NoElement, scan);
  }

  lemma WiderGap(env: Env, space: string, gap: string)
    requires AllSpace(space) && ValueGap(env, gap)
    ensures ValueGap(env, space + gap)
  {
    hide BlockComment, LineComment, Gap, AllSpace;
    if AllSpace(gap) {
      SpaceAppends(space, gap);
      SpaceIsGap(space + gap);
    } else {
      var n, m := GapParts(gap);
      CommentedIs(gap, n, m);
      SpaceAppends(space, gap[..n]);
      var k := |space|;
      var s := space + gap;
      DropFront(space, gap, n, m);
      assert Commented(s, k + n, k + m);
      PrependGap(s, k + n, k + m);
    }
  }

  lemma SpaceAppends(a: string, b: string)
    requires AllSpace(a) && AllSpace(b)
    ensures AllSpace(a + b)
  {
  }

  lemma DropFront(a: string, b: string, n: nat, m: nat)
    requires n <= m <= |b|
    ensures var s, k := a + b, |a|;
            s[..k + n] == a + b[..n] && s[k + n..k + m] == b[n..m] && s[k + m..] == b[m..]
  {
  }

  lemma ArrayJoined(env: Env, p: nat, pre: string, gap: string, es: Elements, end: nat)
    requires ValueGap(env, pre) && Has(env.doc, p, pre + "[")
    requires var q := p + |pre| + 1 + |gap|;
             AllSpace(gap) && Has(env.doc, p + |pre| + 1, gap) && FoundElements(env, q, es, end)
    ensures Found(env, p, pre, JArray("", Element(gap + es.before, es.value, es.after, es.rest)), end)
  {
    hide Render, RenderElements, RenderElement, AfterElement, Has, ValueGap, Readable, ReadableElements, Scans,
         ScansElements, Gap, AllSpace;
    var wider := Element(gap + es.before, es.value, es.after, es.rest);
    RenderElementIs(es);
    RenderElementIs(wider);
    AfterElementIs(es);
    AfterElementIs(wider);
    Bare(gap, es.before, RenderElement(es));
    Joined(env.doc, p + |pre| + 1, gap, RenderElements(es));
    Joined(env.doc, p, pre + "[", RenderElements(wider));
    Bare(pre, "[", RenderElements(wider));
    ArrayIs("", wider);
    ElementReads(env, es);
    ElementScans(es, env.scan);
    WiderGap(env, gap, es.before);
    ReadableElement(env, wider);
    ReadableArray(env, wider);
  }

  lemma ElementScans(es: Elements, scan: string -> Option<real>)
    requires es.Element? && LooseElements(es) && ScansElements(es, scan)
    ensures LooseJson(es.value) && Scans(es.value, scan) && LooseElements(es.rest) && ScansElements(es.rest, scan)
  {
    hide Gap, LooseJson, Scans;
  }

  lemma ArrayIs(gap: string, es: Elements)
    requires es.Element?
    ensures Render(JArray(gap, es)) == "[" + RenderElements(es)
  {
    hide RenderElements;
  }

  lemma ReadableArray(env: Env, es: Elements)
    requires ReadableElements(env, es) && ScansElements(es, env.scan)
    ensures Readable(env, JArray("", es)) && Scans(JArray("", es), env.scan)
  {
    hide LooseElements, ScansElements, UncommentedElements;
  }

  // ---------- objects ----------

  /** The members and the closing brace stand between p and `end`; the brace alone
      when the last name was empty. */
  ghost predicate FoundMembers(env: Env, p: nat, name: string, ms: Members, end: nat) {
    && !ms.NoMember? && ReadableMembers(env, ms) && ScansMembers(ms, env.scan) && (ms.Dangling? ==> name == "")
    && Has(env.doc, p, RenderMembers(ms)) && end == p + |RenderMembers(ms)| && end <= |env.doc|
  }

  /** The same from behind a colon. */
  ghost predicate FoundMember(env: Env, p: nat, ms: Members, end: nat) {
    && ms.Member? && ReadableMembers(env, ms) && ScansMembers(ms, env.scan)
    && Has(env.doc, p, ms.afterColon + RenderMember(ms)) && end == p + |ms.afterColon + RenderMember(ms)|
    && end <= |env.doc|
  }

  lemma MemberJoined(env: Env, p: nat, cs: seq<Char>, pre: string, j: Json, mid: nat, after: string,
                     separator: string, rest: Members, end: nat)
    requires LooseChars(cs)
    requires Found(env, p, pre, j, mid) && Gap(after) && end <= |env.doc|
    requires rest.NoMember? ==> Has(env.doc, mid, after + "}") && end == mid + |after| + 1
    requires !rest.NoMember? ==>
               && Separates(after, separator) && Has(env.doc, mid, after + separator)
               && FoundMembers(env, mid + |after| + |separator|, DenoteChars(cs), rest, end)
    ensures FoundMember(env, p, Member("", cs, "", pre, j, after, separator, rest), end)
  {
    hide Gap, ValueGap, Readable, ReadableMembers, Scans, Render, RenderMembers, RenderMember, ScansMembers, LooseChars,
         DenoteChars, Has, Separates;
    var ms := Member("", cs, "", pre, j, after, separator, rest);
    var tail := after + (if rest.NoMember? then "}" else separator + RenderMembers(rest));
    if !rest.NoMember? {
      Joined(env.doc, mid, after + separator, RenderMembers(rest));
      Bare(after, separator, RenderMembers(rest));
    }
    Joined(env.doc, p, pre + Render(j), tail);
    Bare(pre, Render(j), tail);
    AfterMemberIs(ms);
    RenderMembersIs(ms);
    NoSpace();
    ReadableIs(env, j);
    ReadableMember(env, ms);
  }

  lemma AfterMemberIs(ms: Members)
    requires ms.Member?
    ensures AfterMember(ms) ==
            ms.after + (if ms.rest.NoMember? then "}" else ms.separator + RenderMembers(ms.rest))
  {
    hide RenderMembers;
  }

  lemma ReadableMember(env: Env, ms: Members)
    requires ms.Member? && Gap(ms.before) && LooseChars(ms.name) && AllSpace(ms.beforeColon)
    requires ValueGap(env, ms.afterColon) && Readable(env, ms.value) && Gap(ms.after) && Scans(ms.value, env.scan)
    requires !ms.rest.NoMember? ==>
               Separates(ms.after, ms.separator) && ReadableMembers(env, ms.rest) && ScansMembers(ms.rest, env.scan)
    requires ms.rest.Dangling? ==> DenoteChars(ms.name) == ""
    ensures ReadableMembers(env, ms) && ScansMembers(ms, env.scan)
  {
    hide LooseJson, Uncommented, Scans, AllSpace, Gap, LooseChars, DenoteChars, Separates;
    if ms.rest.NoMember? {
      assert ms.rest == NoMember;
      assert ReadableMembers(env, ms.rest) && ScansMembers(ms.rest, env.scan);
    }
  }

  // What stands between two members.

  /** A token that ends inside the document is the token of its own text. */
  lemma TokenFits(doc: string, q: nat)
    requires q <= |doc| && TokenAt(doc, q).end < |doc| && !White(doc[q])
    requires TokenAt(doc, q).kind != ObjectEnd && TokenAt(doc, q).kind != CommentToken
    ensures q < TokenAt(doc, q).end && OneToken(doc[q..TokenAt(doc, q).end])
  {
    hide TokenAt, OneToken;
    var end := TokenAt(doc, q).end;
    var s := doc[q..end];
    TokenInSlice(doc, q, end, q);
    assert s[0] == doc[q];
    QuotedFits(doc, q);
    SlashFits(doc, q);
    if s[0] == '/' {
      assert s[1] == doc[q + 1];
    }
    OneTokenIff(s);
  }

  lemma {:induction false} UnterminatedEnds(doc: string, p: nat)
    requires p <= |doc| && !ScanString(doc, p).ok
    ensures ScanString(doc, p).pos == |doc|
    decreases |doc| - p
  {
    if p < |doc| && doc[p] != '"' {
      if doc[p] != '\\' {
        UnterminatedEnds(doc, p + 1);
      } else if p + 1 < |doc| {
        UnterminatedEnds(doc, p + 2);
      }
    }
  }

  lemma QuotedFits(doc: string, q: nat)
    requires q < |doc| && TokenAt(doc, q).end < |doc|
    ensures doc[q] == '"' ==> TokenAt(doc, q).kind == StringToken
  {
    hide ScanString, ScanNumber, ScanComment, Keyword;
    if doc[q] == '"' && !ScanString(doc, q + 1).ok {
      UnterminatedEnds(doc, q + 1);
    }
  }

  lemma {:induction false} OpenCommentEnds(doc: string, p: nat)
    requires p <= |doc| && !ScanCComment(doc, p).ok
    ensures ScanCComment(doc, p).pos == |doc|
    decreases |doc| - p
  {
    if p < |doc| && !(doc[p] == '*' && At(doc, p + 1) == '/') {
      OpenCommentEnds(doc, p + 1);
    }
  }

  lemma SlashFits(doc: string, q: nat)
    requires q < |doc| && TokenAt(doc, q).end < |doc| && TokenAt(doc, q).kind != CommentToken
    ensures doc[q] == '/' ==> TokenAt(doc, q).end == q + 2 && doc[q + 1] != '*' && doc[q + 1] != '/'
  {
    hide ScanString, ScanNumber, ScanCComment, ScanCppComment, Keyword;
    if doc[q] == '/' && q + 1 < |doc| && doc[q + 1] == '*' && !ScanCComment(doc, q + 2).ok {
      OpenCommentEnds(doc, q + 2);
    }
  }

  /** What the reader takes for the comma. */
  lemma SeparatorFound(doc: string, p: nat) returns (after: string, separator: string)
    requires p <= |doc| && EndsMember(ReadToken(doc, p).kind)
    requires ReadPastComments(doc, p).kind != ObjectEnd && ReadPastComments(doc, p).end < |doc|
    ensures Gap(after) && Separates(after, separator) && Has(doc, p, after + separator)
    ensures ReadPastComments(doc, p).end == p + |after| + |separator|
  {
    hide *;
    var t := ReadPastComments(doc, p);
    EndsMemberIs(ReadToken(doc, p).kind);
    GapFound(doc, p);
    PastCommentsIs(doc, p);
    after := doc[p..t.start];
    separator := doc[t.start..t.end];
    SliceStands(doc, p, t.start);
    SliceStands(doc, t.start, t.end);
    Joined(doc, p, after, separator);
    if ReadToken(doc, p).kind == CommentToken {
      TokenFits(doc, t.start);
    } else {
      Marks();
      MarkIs(doc, t.start);
      CommaIs(doc, t.start);
    }
    SeparatesIs(after, separator);
  }

  lemma CommaIs(doc: string, q: nat)
    requires Has(doc, q, ",")
    ensures doc[q..q + 1] == ","
  {
  }

  lemma SeparatesIs(after: string, separator: string)
    ensures Separates(after, separator) <==> separator == "," || (!AllSpace(after) && OneToken(separator))
  {
  }

  lemma {:induction false} MemberFound(env: Env, p: nat, obj: Value, cs: seq<Char>) returns (ms: Members)
    requires p <= |env.doc| && obj.body.Object?
    requires LooseChars(cs) && ReadMember(env, p, obj, DenoteChars(cs)).ok
    ensures FoundMember(env, p, ms, ReadMember(env, p, obj, DenoteChars(cs)).pos)
    ensures ms.Member? && ms.name == cs
    decreases |env.doc| - p, 3
  {
    hide *;
    var name := DenoteChars(cs);
    MemberSucceeds(env, p, obj, name);
    var key := Name(CString(name));
    var current := Child(obj.body.members, key);
    var v := ReadValue(env, p, current);
    var grown := obj.(body := Object(Put(obj.body.members, key, v.value)));
    var pre, j := ValueFound(env, p, current);
    var next := ReadPastComments(env.doc, v.pos);
    Marks();
    if next.kind == ObjectEnd {
      var after := MarkFound(env.doc, v.pos);
      ms := Member("", cs, "", pre, j, after, ",", NoMember);
      MemberJoined(env, p, cs, pre, j, v.pos, after, ",", NoMember, next.end);
    } else {
      var rest := MembersFound(env, next.end, grown, name);
      var end := ReadMembers(env, next.end, grown, name).pos;
      FoundMembersIs(env, next.end, name, rest, end);
      var after, separator := SeparatorFound(env.doc, v.pos);
      ms := Member("", cs, "", pre, j, after, separator, rest);
      MemberJoined(env, p, cs, pre, j, v.pos, after, separator, rest, end);
    }
  }

  lemma FoundMembersIs(env: Env, p: nat, name: string, ms: Members, end: nat)
    requires FoundMembers(env, p, name, ms, end)
    ensures !ms.NoMember? && p < end <= |env.doc|
  {
    hide ScansMembers, RenderMembers, Has, ReadableMembers;
    ReadableMembersAre(env, ms);
    MembersHead(ms);
  }

  lemma ReadableMembersAre(env: Env, ms: Members)
    requires ReadableMembers(env, ms)
    ensures LooseMembers(ms)
  {
    hide LooseMembers, UncommentedMembers;
  }

  lemma {:induction false} MembersFound(env: Env, p: nat, obj: Value, name: string) returns (ms: Members)
    requires p <= |env.doc| && obj.body.Object? && ReadMembers(env, p, obj, name).ok
    ensures FoundMembers(env, p, name, ms, ReadMembers(env, p, obj, name).pos)
    decreases |env.doc| - p, 0
  {
    hide *;
    MembersSucceed(env, p, obj, name);
    var t := ReadPastComments(env.doc, p);
    Marks();
    if t.kind != StringToken {
      var before := MarkFound(env.doc, p);
      ms := Dangling(before);
      DanglingFound(env, p, name, before, t.end);
    } else {
      var gap := NameGap(env.doc, p);
      var cs := StringFound(env.doc, t.start);
      var colon := ReadToken(env.doc, t.end);
      var beforeColon := ColonFound(env.doc, t.end);
      var m := MemberFound(env, colon.end, obj, cs);
      ms := m.(before := gap, beforeColon := beforeColon);
      NamedJoined(env, p, gap, beforeColon, m, ReadMembers(env, p, obj, name).pos, name);
    }
  }

  /** What stands before a name. */
  lemma NameGap(doc: string, p: nat) returns (gap: string)
    requires p <= |doc| && ReadPastComments(doc, p).kind == StringToken
    ensures var t := ReadPastComments(doc, p);
            Gap(gap) && Has(doc, p, gap) && t.start == p + |gap| && t == TokenAt(doc, t.start)
  {
    hide TokenAt, ReadToken, ReadPastComments, Gap, AllSpace;
    GapFound(doc, p);
    gap := doc[p..ReadPastComments(doc, p).start];
  }

  lemma DanglingFound(env: Env, p: nat, name: string, gap: string, end: nat)
    requires Gap(gap) && Has(env.doc, p, gap + "}") && end == p + |gap| + 1 && name == ""
    requires end <= |env.doc|
    ensures FoundMembers(env, p, name, Dangling(gap), end)
  {
    hide Gap, Has;
  }

  lemma NamedJoined(env: Env, p: nat, before: string, beforeColon: string, m: Members, end: nat, name: string)
    requires m.Member? && Gap(before) && AllSpace(beforeColon)
    requires var q := p + |before| + |RenderString(m.name)|;
             && Has(env.doc, p, before) && Has(env.doc, p + |before|, RenderString(m.name))
             && Has(env.doc, q, beforeColon + ":") && FoundMember(env, q + |beforeColon| + 1, m, end)
    ensures FoundMembers(env, p, name, m.(before := before, beforeColon := beforeColon), end)
  {
    hide Render, RenderString, RenderMembers, RenderMember, LooseChars, DenoteChars, ReadableMembers, Scans,
         ScansMembers, Has, AllSpace, Gap, AfterMember, Separates, Readable, ValueGap;
    var ms := m.(before := before, beforeColon := beforeColon);
    var q := p + |before| + |RenderString(m.name)|;
    RenderMembersIs(m);
    RenderMembersIs(ms);
    AfterMemberIs(m);
    AfterMemberIs(ms);
    var tail := m.afterColon + RenderMember(m);
    Joined(env.doc, q, beforeColon + ":", tail);
    Joined(env.doc, p + |before|, RenderString(m.name), (beforeColon + ":") + tail);
    Joined(env.doc, p, before, RenderString(m.name) + ((beforeColon + ":") + tail));
    MemberReads(env, m);
    ReadableMembersAre(env, m);
    MemberParts(m, env.scan);
    ReadableMember(env, ms);
  }

  lemma MemberParts(ms: Members, scan: string -> Option<real>)
    requires ms.Member? && LooseMembers(ms) && ScansMembers(ms, scan)
    ensures LooseChars(ms.name) && Gap(ms.after) && LooseJson(ms.value) && LooseMembers(ms.rest)
    ensures Scans(ms.value, scan) && ScansMembers(ms.rest, scan)
    ensures !ms.rest.NoMember? ==> Separates(ms.after, ms.separator)
    ensures ms.rest.Dangling? ==> DenoteChars(ms.name) == ""
  {
    hide LooseJson, Scans, AllSpace, Gap, LooseChars, DenoteChars, Separates;
  }

  lemma {:induction false} ObjectFound(env: Env, p: nat, current: Value) returns (pre: string, j: Json)
    requires p <= |env.doc|
    requires ReadValue(env, p, current).ok && FirstToken(env, p).kind == ObjectBegin
    ensures Found(env, p, pre, j, ReadValue(env, p, current).pos)
    decreases |env.doc| - p, 1
  {
    hide *;
    var t := FirstToken(env, p);
    Marks();
    pre := OpeningFound(env, p);
    ContainerIs(env, p, current, t);
    var obj := Value(Object(End), t.start, 0);
    var ms := MembersFound(env, t.end, obj, "");
    var end := ReadMembers(env, t.end, obj, "").pos;
    j := if ms.Dangling? then JObject(ms.gap, NoMember) else JObject("", ms);
    ObjectJoined(env, p, pre, ms, end);
  }

  lemma ObjectJoined(env: Env, p: nat, pre: string, ms: Members, end: nat)
    requires ValueGap(env, pre) && Has(env.doc, p, pre + "{") && FoundMembers(env, p + |pre| + 1, "", ms, end)
    ensures Found(env, p, pre, if ms.Dangling? then JObject(ms.gap, NoMember) else JObject("", ms), end)
  {
    hide RenderMembers, ReadableMembers, ScansMembers, Has, ValueGap, Render, Readable, Scans;
    Joined(env.doc, p, pre + "{", RenderMembers(ms));
    Bare(pre, "{", RenderMembers(ms));
    ReadableMembersAre(env, ms);
    ObjectIs(ms, env.scan);
    ReadableObject(env, ms);
  }

  lemma ReadableObject(env: Env, ms: Members)
    requires !ms.NoMember? && ReadableMembers(env, ms)
    ensures Readable(env, if ms.Dangling? then JObject(ms.gap, NoMember) else JObject("", ms))
  {
    hide Gap;
    NoSpace();
    assert LooseMembers(NoMember) && UncommentedMembers(NoMember);
  }

  lemma ObjectIs(ms: Members, scan: string -> Option<real>)
    requires !ms.NoMember? && LooseMembers(ms) && ScansMembers(ms, scan)
    ensures var j := if ms.Dangling? then JObject(ms.gap, NoMember) else JObject("", ms);
            Render(j) == "{" + RenderMembers(ms) && LooseJson(j) && Scans(j, scan)
  {
    hide Gap;
    NoSpace();
  }

  // ---------- documents ----------

  /** A document is accepted if and only if it starts with a gap and a loose text whose
      comments the setting allows, and then the value is what that text denotes. */
  lemma AcceptedIff(env: Env, strictRoot: bool, root: Value)
    ensures Parse(env, strictRoot, root).ok <==> exists pre, j, post :: Starts(env, strictRoot, pre, j, post)
    ensures forall pre, j, post :: Starts(env, strictRoot, pre, j, post) ==>
              && Parse(env, strictRoot, root).pos == |pre + Render(j)|
              && LooseJson(j) && Scans(j, env.scan)
              && Strip(Parse(env, strictRoot, root).value) == Denote(j, env.scan)
  {
    hide Parse, Render, Scans, Denote, Strip;
    forall pre, j, post | Starts(env, strictRoot, pre, j, post)
      ensures Parse(env, strictRoot, root).ok
      ensures Parse(env, strictRoot, root).pos == |pre + Render(j)|
      ensures LooseJson(j) && Scans(j, env.scan)
      ensures Strip(Parse(env, strictRoot, root).value) == Denote(j, env.scan)
    {
      DocumentAccepted(env, strictRoot, root, pre, j, post);
    }
    if Parse(env, strictRoot, root).ok {
      var _, _, _ := DocumentFound(env, strictRoot, root);
    }
  }

  lemma DocumentFound(env: Env, strictRoot: bool, root: Value) returns (pre: string, j: Json, post: string)
    requires Parse(env, strictRoot, root).ok
    ensures Starts(env, strictRoot, pre, j, post)
  {
    hide ReadValue, Render, LooseJson, Uncommented, ValueGap, Scans, Denote, Strip;
    pre, j := ValueFound(env, 0, root);
    post := env.doc[|pre| + |Render(j)|..];
    assert env.doc == env.doc[0..|pre + Render(j)|] + post;
    assert Starts(env, false, pre, j, post);
    DocumentAccepted(env, false, root, pre, j, post);
    RootKind(ReadValue(env, 0, root).value, j, env.scan);
  }

  lemma RootKind(v: Value, j: Json, scan: string -> Option<real>)
    requires LooseJson(j) && Scans(j, scan) && Strip(v) == Denote(j, scan)
    ensures v.body.Array? <==> j.JArray?
    ensures v.body.Object? <==> j.JObject?
  {
  }
}
