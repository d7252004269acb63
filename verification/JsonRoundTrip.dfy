/** What the writers print is JSON text for the value, so reading it back gives
    the value again; and the three writers differ in white space only. */
module JsonRoundTrip {
  import opened CStrings
  import opened Optional
  import opened Decimal
  import opened JsonValue
  import opened JsonText
  import opened JsonScan
  import opened JsonNumber
  import opened JsonSyntax
  import opened JsonPrint
  import opened JsonParse
  import opened JsonAccept

  // ---------- strings ----------

  lemma QuoteCharValid(c: char)
    requires c != '\0'
    ensures ValidChar(QuoteChar(c)) && DenoteChar(QuoteChar(c)) == [c]
  {
    if IsControl(c) {
      PrintHex4Value(c as int);
    }
  }

  /** The quoted form of a C string is a JSON string that denotes it. */
  lemma {:induction false} QuoteDenotes(s: string)
    requires NulFree(s)
    ensures ValidChars(QuoteChars(s)) && DenoteChars(QuoteChars(s)) == s
    decreases |s|
  {
    if s != "" {
      hide QuoteChar, ValidChar, DenoteChar;
      QuoteCharValid(s[0]);
      QuoteDenotes(s[1..]);
      var cs := QuoteChars(s);
      assert cs[0] == QuoteChar(s[0]) && cs[1..] == QuoteChars(s[1..]);
      forall i | 0 <= i < |cs| ensures ValidChar(cs[i]) {
        if i > 0 {
          assert cs[i] == cs[1..][i - 1];
        }
      }
    }
  }

  /** A quoted string, whatever text follows it, is one string token that ends at its
      closing quote and decodes to the string. */
  lemma QuotedStringRoundTrip(doc: string, p: nat, s: string)
    requires NulFree(s) && Has(doc, p, Quoted(s))
    ensures TokenAt(doc, p) == Token(StringToken, p, p + |Quoted(s)|)
    ensures p + 1 < p + |Quoted(s)| && Decode(doc, p + 1, p + |Quoted(s)| - 1) == Text(s)
  {
    hide TokenAt, Decode, ValidChars, DenoteChars, QuoteChars, Has;
    QuoteDenotes(s);
    StringAccepted(doc, p, QuoteChars(s));
  }

  // ---------- the syntax tree FastWriter prints ----------

  function IntegerJson(i: int): Json {
    JNumber(Number(i < 0, Print(if i < 0 then 0 - i else i), "", ""))
  }

  function FastJson(v: Value, space: string): Json
    decreases Weight(v), 0
  {
    match v.body
    case Int(i) => IntegerJson(i)
    case UInt(u) => IntegerJson(u)
    case Str(s) => JString(QuoteChars(s))
    case Bool(b) => if b then JTrue else JFalse
    case Array(es) => JArray("", FastElementsJson(es, 0, space))
    case Object(ms) => JObject("", FastMembersJson(ms, space))
    case _ => JNull
  }

  function FastElementsJson(es: Entries, i: nat, space: string): Elements
    decreases 1 + WeightEntries(es), Size(es) - i
  {
    if i >= Size(es) then NoElement
    else Element("", FastJson(ElementAt(es, i), space), "", FastElementsJson(es, i + 1, space))
  }

  function FastMembersJson(ms: Entries, space: string): Members
    decreases WeightEntries(ms), 0
  {
    match ms
    case End => NoMember
    case Entry(k, v, rest) =>
      Member("", QuoteChars(NameOf(k)), "", space, FastJson(v, space), "", ",", FastMembersJson(rest, space))
  }

  function Space(style: FastStyle): string {
    if style.yaml then " " else ""
  }

  lemma IntegerRenders(i: int)
    ensures Render(IntegerJson(i)) == PrintInteger(i)
  {
    var s := Print(if i < 0 then 0 - i else i);
    assert "" + s + "" + "" == s;
    assert "-" + s + "" + "" == "-" + s;
  }

  lemma {:induction false} FindWritable(es: Entries, key: Key)
    requires WritableEntries(es)
    ensures Writable(Find(es, key))
  {
    if es.Entry? {
      FindWritable(es.rest, key);
    }
  }

  lemma TightElement(t: Elements)
    requires t.Element? && t.before == "" && t.after == ""
    ensures RenderElements(t) ==
            Render(t.value) + (if t.rest.NoElement? then "]" else "," + RenderElements(t.rest))
  {
    hide Render;
    var tail := if t.rest.NoElement? then "]" else "," + RenderElements(t.rest);
    Bare(tail, "", "");
    assert AfterElement(t) == tail;
    Bare(Render(t.value) + tail, "", "");
  }

  lemma TightMember(t: Members)
    requires t.Member? && t.before == "" && t.beforeColon == "" && t.after == "" && t.separator == ","
    ensures RenderMembers(t) ==
            RenderString(t.name) + (":" + (t.afterColon +
              (Render(t.value) + (if t.rest.NoMember? then "}" else "," + RenderMembers(t.rest)))))
  {
    hide Render, RenderString;
    var tail := if t.rest.NoMember? then "}" else "," + RenderMembers(t.rest);
    Bare(tail, "", "");
    assert AfterMember(t) == tail;
    var rest := ":" + (t.afterColon + RenderMember(t));
    assert "" + ":" + (t.afterColon + RenderMember(t)) == rest;
    Bare(RenderString(t.name) + rest, "", "");
  }

  lemma {:induction false} FastRenders(v: Value, style: FastStyle)
    requires Writable(v) && !style.dropNull
    ensures FastText(v, style) == Render(FastJson(v, Space(style)))
    decreases Weight(v), 0
  {
    hide RenderElements, RenderMembers, FastElements, FastMembers, Quoted, IntegerJson, RenderString, QuoteChars, Print,
         FastElementsJson, FastMembersJson, WritableEntries, Sorted, RenderNumber, Size, Count;
    match v.body {
      case Int(i) => IntegerRenders(i);
      case UInt(u) => IntegerRenders(u);
      case Str(s) => QuotedIs(s);
      case Array(es) =>
        FastElementsRender(es, 0, style);
        Bare("[", FastElements(es, 0, style), "]");
        Bare("]", "", "");
        Bare(RenderOf(FastElementsJson(es, 0, Space(style))), "", "");
      case Object(ms) =>
        FastMembersRender(ms, true, style);
        Bare("{", FastMembers(ms, true, style), "}");
        Bare("}", "", "");
      case _ =>
    }
  }

  lemma QuotedIs(s: string)
    ensures Quoted(s) == RenderString(QuoteChars(s))
  {
  }

  function RenderOf(es: Elements): string {
    if es.NoElement? then "]" else RenderElements(es)
  }

  function RenderOfMembers(ms: Members): string {
    if ms.NoMember? then "}" else RenderMembers(ms)
  }

  lemma {:induction false} FastElementsRender(es: Entries, i: nat, style: FastStyle)
    requires WritableEntries(es) && !style.dropNull
    ensures var t := FastElementsJson(es, i, Space(style));
            FastElements(es, i, style) + "]" == (if 0 < i < Size(es) then "," else "") + RenderOf(t)
    decreases 1 + WeightEntries(es), Size(es) - i
  {
    hide FastText, FastJson, Render, RenderElements, WritableEntries;
    if i < Size(es) {
      FindWritable(es, Index(i));
      FastRenders(ElementAt(es, i), style);
      FastElementsRender(es, i + 1, style);
      TightElement(FastElementsJson(es, i, Space(style)));
      var text, more := FastText(ElementAt(es, i), style), FastElements(es, i + 1, style);
      CommaText(if i > 0 then "," else "", text, more, "]");
    }
  }

  lemma CommaText(comma: string, text: string, more: string, close: string)
    ensures (comma + text + more) + close == comma + (text + (more + close))
  {
  }

  lemma NameText(comma: string, name: string, space: string, text: string, more: string)
    ensures (comma + name + (":" + space) + text + more) + "}" ==
            comma + (name + (":" + (space + (text + (more + "}")))))
  {
  }

  lemma {:induction false} FastMembersRender(ms: Entries, first: bool, style: FastStyle)
    requires WritableEntries(ms) && !style.dropNull
    ensures var t := FastMembersJson(ms, Space(style));
            FastMembers(ms, first, style) + "}" == (if first || ms.End? then "" else ",") + RenderOfMembers(t)
    decreases WeightEntries(ms), 0
  {
    hide FastText, FastJson, Render, RenderString, RenderMembers, Quoted;
    if ms.Entry? {
      FastRenders(ms.value, style);
      FastMembersRender(ms.rest, false, style);
      QuotedIs(NameOf(ms.key));
      TightMember(FastMembersJson(ms, Space(style)));
      var text, more := FastText(ms.value, style), FastMembers(ms.rest, false, style);
      assert (if style.yaml then ": " else ":") == ":" + Space(style);
      NameText(if first then "" else ",", Quoted(NameOf(ms.key)), Space(style), text, more);
    }
  }

  // ---------- what it denotes ----------

  lemma IntegerValid(i: int)
    requires MIN_INT64 <= i <= MAX_UINT64
    ensures ValidJson(IntegerJson(i)) && ExactNumber(IntegerJson(i).number)
    ensures IntegerBody(IntegerJson(i).number.negative, ValueOf(IntegerJson(i).number.digits)) == NormalInteger(i)
  {
    PrintRoundTrip(if i < 0 then 0 - i else i);
    PrintZero(if i < 0 then 0 - i else i);
  }

  /** Printing an integer and reading it back, over the whole signed and unsigned
      64-bit range and without any help from the C library. */
  lemma IntegerRoundTrip(doc: string, p: nat, i: int, scan: string -> Option<real>)
    requires MIN_INT64 <= i <= MAX_UINT64
    requires Has(doc, p, PrintInteger(i)) && Delimited(doc, p + |PrintInteger(i)|)
    ensures TokenAt(doc, p) == Token(NumberToken, p, p + |PrintInteger(i)|)
    ensures NumberText(PrintInteger(i)) && DecodeNumber(PrintInteger(i), scan) == Some(NormalInteger(i))
  {
    hide TokenAt, DecodeNumber, PrintInteger, NumberText, Has, RenderNumber;
    IntegerRenders(i);
    IntegerValid(i);
    NumberAccepted(doc, p, IntegerJson(i).number, scan);
  }

  lemma PrintZero(n: nat)
    ensures Print(n) != "" && (Print(n)[0] == '0' ==> |Print(n)| == 1)
  {
    PrintRoundTrip(n);
  }

  lemma {:induction false} FastDenotes(v: Value, space: string, scan: string -> Option<real>)
    requires Writable(v) && AllSpace(space)
    ensures var j := FastJson(v, space);
            ValidJson(j) && Scans(j, scan) && Denote(j, scan) == Normal(v)
    decreases Weight(v), 0
  {
    match v.body {
      case Int(i) => IntegerValid(i);
      case UInt(u) => IntegerValid(u);
      case Str(s) => QuoteDenotes(s);
      case Array(es) => FastElementsDenote(es, 0, space, scan);
      case Object(ms) => FastMembersDenote(ms, End, space, scan);
      case _ =>
    }
  }

  lemma {:induction false} FastElementsDenote(es: Entries, i: nat, space: string, scan: string -> Option<real>)
    requires WritableEntries(es) && AllSpace(space)
    ensures var t := FastElementsJson(es, i, space);
            ValidElements(t) && ScansElements(t, scan) && DenoteElements(t, i, scan) == NormalElements(es, i)
    decreases 1 + WeightEntries(es), Size(es) - i
  {
    hide FastJson, Denote, Normal, ValidJson, Scans;
    if i < Size(es) {
      FindWritable(es, Index(i));
      FastDenotes(ElementAt(es, i), space, scan);
      FastElementsDenote(es, i + 1, space, scan);
    }
  }

  /** All keys of `m` lie below all keys of `n`. */
  predicate Precedes(m: Entries, n: Entries) {
    m.Entry? ==> Above(n, m.key) && Precedes(m.rest, n)
  }

  lemma {:induction false} PutLast(m: Entries, key: Key, v: Value, rest: Entries)
    requires Precedes(m, Entry(key, v, rest)) && Above(rest, key)
    ensures Append(Put(m, key, v), rest) == Append(m, Entry(key, v, rest))
    ensures Precedes(Put(m, key, v), rest)
  {
    if m.Entry? {
      PutLast(m.rest, key, v, rest);
      NotBelow(m.key, key);
    }
  }

  lemma NotBelow(a: Key, b: Key)
    requires KeyLess(a, b)
    ensures a != b && !KeyLess(b, a)
  {
    KeyTotal(a, b);
  }

  lemma {:induction false} AboveNormal(ms: Entries, low: Key)
    ensures Above(NormalMembers(ms), low) <==> Above(ms, low)
  {
    if ms.Entry? {
      AboveNormal(ms.rest, low);
    }
  }

  lemma {:induction false} FastMembersDenote(ms: Entries, m: Entries, space: string, scan: string -> Option<real>)
    requires WritableEntries(ms) && Sorted(ms, true) && AllSpace(space) && Precedes(m, NormalMembers(ms))
    ensures var t := FastMembersJson(ms, space);
            && ValidMembers(t) && ScansMembers(t, scan)
            && DenoteMembers(t, m, scan) == Append(m, NormalMembers(ms))
    decreases WeightEntries(ms), 0
  {
    hide *;
    if ms.End? {
      assert ms == End;
      NoMembers(m, space, scan);
    } else {
      var key, v := ms.key, Normal(ms.value);
      MembersUnfold(ms, space);
      QuoteDenotes(NameOf(key));
      FastDenotes(ms.value, space, scan);
      AboveNormal(ms.rest, key);
      PutLast(m, key, v, NormalMembers(ms.rest));
      FastMembersDenote(ms.rest, Put(m, key, v), space, scan);
      MemberValid(FastMembersJson(ms, space), scan);
      DenoteNext(FastMembersJson(ms, space), m, scan);
    }
  }

  lemma NoMembers(m: Entries, space: string, scan: string -> Option<real>)
    ensures FastMembersJson(End, space) == NoMember && NormalMembers(End) == End
    ensures ValidMembers(NoMember) && ScansMembers(NoMember, scan) && DenoteMembers(NoMember, m, scan) == m
    ensures Append(m, End) == m
  {
    AppendNothing(m);
  }

  lemma MembersUnfold(ms: Entries, space: string)
    requires ms.Entry? && WritableEntries(ms) && Sorted(ms, true)
    ensures NulFree(NameOf(ms.key)) && Name(NameOf(ms.key)) == ms.key
    ensures Writable(ms.value) && WritableEntries(ms.rest) && Sorted(ms.rest, true) && Above(ms.rest, ms.key)
    ensures NormalMembers(ms) == Entry(ms.key, Normal(ms.value), NormalMembers(ms.rest))
    ensures FastMembersJson(ms, space) ==
            Member("", QuoteChars(NameOf(ms.key)), "", space, FastJson(ms.value, space), "", ",",
                   FastMembersJson(ms.rest, space))
    ensures WeightEntries(ms) == 1 + Weight(ms.value) + WeightEntries(ms.rest)
  {
    hide Normal, QuoteChars, FastJson, Writable;
  }

  lemma MemberValid(t: Members, scan: string -> Option<real>)
    requires t.Member? && t.before == "" && t.beforeColon == "" && t.after == "" && AllSpace(t.afterColon)
    requires t.separator == ","
    requires ValidChars(t.name) && ValidJson(t.value) && ValidMembers(t.rest)
    requires Scans(t.value, scan) && ScansMembers(t.rest, scan)
    ensures ValidMembers(t) && ScansMembers(t, scan)
  {
    hide ValidJson, Scans, ValidChars;
  }

  lemma DenoteNext(t: Members, m: Entries, scan: string -> Option<real>)
    requires t.Member? && ValidMembers(t) && ScansMembers(t, scan)
    ensures DenoteMembers(t, m, scan) ==
            DenoteMembers(t.rest, Put(m, Name(CString(DenoteChars(t.name))), Denote(t.value, scan)), scan)
  {
    hide Put, Denote, DenoteChars;
  }

  lemma {:induction false} AppendNothing(m: Entries)
    ensures Append(m, End) == m
  {
    if m.Entry? {
      AppendNothing(m.rest);
    }
  }

  // ---------- printing what was read back ----------

  lemma {:induction false} NormalSize(es: Entries, i: nat)
    requires i < Size(es)
    ensures Size(NormalElements(es, i)) == Size(es)
    decreases Size(es) - i
  {
    hide Normal;
    if i + 1 < Size(es) {
      NormalSize(es, i + 1);
    }
  }

  lemma {:induction false} NormalElementAt(es: Entries, i: nat, k: nat)
    requires i <= k < Size(es)
    ensures ElementAt(NormalElements(es, i), k) == Normal(ElementAt(es, k))
    decreases k - i
  {
    hide Normal;
    if i < k {
      NormalElementAt(es, i + 1, k);
    }
  }

  lemma NoElements(es: Entries)
    requires Size(es) == 0
    ensures NormalElements(es, 0) == End && Size(End) == 0
  {
  }

  /** The normal form of a value prints the identical text. */
  lemma {:induction false} NormalPrintsSame(v: Value, style: FastStyle)
    requires Writable(v)
    ensures FastText(Normal(v), style) == FastText(v, style)
    decreases Weight(v), 0
  {
    match v.body {
      case Array(es) =>
        if Size(es) == 0 {
          NoElements(es);
        } else {
          NormalSize(es, 0);
          NormalElementsPrintSame(es, 0, style);
        }
      case Object(ms) =>
        NormalMembersPrintSame(ms, true, style);
      case _ =>
    }
  }

  lemma {:induction false} NormalElementsPrintSame(es: Entries, i: nat, style: FastStyle)
    requires WritableEntries(es) && Size(NormalElements(es, 0)) == Size(es)
    ensures FastElements(NormalElements(es, 0), i, style) == FastElements(es, i, style)
    decreases 1 + WeightEntries(es), Size(es) - i
  {
    hide FastText, Normal, NormalElements;
    if i < Size(es) {
      NormalElementAt(es, 0, i);
      FindWritable(es, Index(i));
      NormalPrintsSame(ElementAt(es, i), style);
      NormalElementsPrintSame(es, i + 1, style);
    }
  }

  lemma {:induction false} NormalMembersPrintSame(ms: Entries, first: bool, style: FastStyle)
    requires WritableEntries(ms)
    ensures FastMembers(NormalMembers(ms), first, style) == FastMembers(ms, first, style)
    decreases WeightEntries(ms), 0
  {
    hide FastText, Normal, Quoted;
    if ms.Entry? {
      NormalPrintsSame(ms.value, style);
      NormalMembersPrintSame(ms.rest, false, style);
    }
  }

  lemma {:induction false} FindStrip(m: Entries, key: Key)
    ensures Find(StripEntries(m), key) == Strip(Find(m, key))
    ensures Size(StripEntries(m)) == Size(m)
  {
    if m.Entry? {
      FindStrip(m.rest, key);
    }
  }

  /** The offsets of a value are not written. */
  lemma {:induction false} StripPrintsSame(v: Value, style: FastStyle)
    ensures FastText(Strip(v), style) == FastText(v, style)
    decreases Weight(v), 0
  {
    match v.body {
      case Array(es) => StripElementsPrintSame(es, 0, style);
      case Object(ms) => StripMembersPrintSame(ms, true, style);
      case _ =>
    }
  }

  lemma {:induction false} StripElementsPrintSame(es: Entries, i: nat, style: FastStyle)
    ensures FastElements(StripEntries(es), i, style) == FastElements(es, i, style)
    decreases 1 + WeightEntries(es), Size(es) - i
  {
    hide FastText, Strip, StripEntries, Find;
    FindStrip(es, Index(i));
    if i < Size(es) {
      StripPrintsSame(ElementAt(es, i), style);
      StripElementsPrintSame(es, i + 1, style);
    }
  }

  lemma {:induction false} StripMembersPrintSame(ms: Entries, first: bool, style: FastStyle)
    ensures FastMembers(StripEntries(ms), first, style) == FastMembers(ms, first, style)
    decreases WeightEntries(ms), 0
  {
    hide FastText, Strip, Quoted;
    if ms.Entry? {
      StripPrintsSame(ms.value, style);
      StripMembersPrintSame(ms.rest, false, style);
    }
  }

  // ---------- FastWriter and the reader ----------

  /** Parsing what FastWriter printed succeeds and gives the value back, up to the
      reader's choice of integer representation and nulls for array holes; writing
      what was read prints the same text again. */
  lemma FastRoundTrip(v: Value, style: FastStyle, env: Env, root: Value)
    requires Writable(v) && !style.dropNull && env.doc == FastText(v, style)
    ensures var r := Parse(env, false, root);
            && r.ok && r.errors == [] && r.pos == |env.doc| && Strip(r.value) == Normal(v)
            && FastText(r.value, style) == env.doc
  {
    hide *;
    var j := FastJson(v, Space(style));
    FastRenders(v, style);
    SpaceIsWhite(style);
    FastDenotes(v, Space(style), env.scan);
    Spaces();
    Bare(Render(j), "", "");
    assert "" + Render(j) + "" == Render(j);
    GrammarAccepted(env, false, root, "", j, "");
    StripPrintsSame(Parse(env, false, root).value, style);
    NormalPrintsSame(v, style);
  }

  lemma SpaceIsWhite(style: FastStyle)
    ensures AllSpace(Space(style))
  {
  }

  lemma Spaces()
    ensures AllSpace("") && AllSpace(" ")
  {
  }

  // ---------- white space ----------

  /** The syntax tree without any white space. */
  function Compact(j: Json): Json {
    match j
    case JArray(_, es) => JArray("", CompactElements(es))
    case JObject(_, ms) => JObject("", CompactMembers(ms))
    case _ => j
  }

  function CompactElements(es: Elements): Elements {
    if es.NoElement? then es else Element("", Compact(es.value), "", CompactElements(es.rest))
  }

  function CompactMembers(ms: Members): Members {
    if ms.Member? then Member("", ms.name, "", "", Compact(ms.value), "", ms.separator, CompactMembers(ms.rest)) else ms
  }

  /** White space carries no meaning. */
  lemma {:induction false} CompactDenotes(j: Json, scan: string -> Option<real>)
    requires ValidJson(j)
    ensures ValidJson(Compact(j))
    ensures Scans(Compact(j), scan) <==> Scans(j, scan)
    ensures Scans(j, scan) ==> Denote(Compact(j), scan) == Denote(j, scan)
  {
    match j {
      case JArray(_, es) => CompactElementsDenote(es, 0, scan);
      case JObject(_, ms) => CompactMembersDenote(ms, End, scan);
      case _ =>
    }
  }

  lemma {:induction false} CompactElementsDenote(es: Elements, i: nat, scan: string -> Option<real>)
    requires ValidElements(es)
    ensures ValidElements(CompactElements(es))
    ensures ScansElements(CompactElements(es), scan) <==> ScansElements(es, scan)
    ensures ScansElements(es, scan) ==> DenoteElements(CompactElements(es), i, scan) == DenoteElements(es, i, scan)
  {
    if es.Element? {
      hide Denote, ValidJson, Scans, Compact;
      CompactDenotes(es.value, scan);
      CompactElementsDenote(es.rest, i + 1, scan);
    }
  }

  lemma {:induction false} CompactMembersDenote(ms: Members, m: Entries, scan: string -> Option<real>)
    requires ValidMembers(ms)
    ensures ValidMembers(CompactMembers(ms))
    ensures ScansMembers(CompactMembers(ms), scan) <==> ScansMembers(ms, scan)
    ensures ScansMembers(ms, scan) ==> DenoteMembers(CompactMembers(ms), m, scan) == DenoteMembers(ms, m, scan)
  {
    if ms.Member? {
      hide Denote, ValidJson, Scans, Compact, Put, DenoteChars, ValidChars;
      CompactDenotes(ms.value, scan);
      CompactMembersDenote(ms.rest, if ScansMembers(ms, scan)
        then Put(m, Name(CString(DenoteChars(ms.name))), Denote(ms.value, scan)) else m, scan);
    }
  }

  /** A text with the white space outside its string literals removed. */
  function RemoveSpace(s: string, inString: bool): string {
    if s == "" then ""
    else if !inString then
      if White(s[0]) then RemoveSpace(s[1..], false)
      else [s[0]] + RemoveSpace(s[1..], s[0] == '"')
    else if s[0] == '\\' && |s| > 1 then s[..2] + RemoveSpace(s[2..], true)
    else [s[0]] + RemoveSpace(s[1..], s[0] != '"')
  }

  lemma {:induction false} RemoveLeading(pre: string, rest: string)
    requires AllSpace(pre)
    ensures RemoveSpace(pre + rest, false) == RemoveSpace(rest, false)
    decreases |pre|
  {
    if pre == "" {
      assert pre + rest == rest;
    } else {
      assert (pre + rest)[1..] == pre[1..] + rest;
      RemoveLeading(pre[1..], rest);
    }
  }

  /** A piece of text outside string literals that holds no white space. */
  predicate Solid(s: string) {
    forall i :: 0 <= i < |s| ==> !White(s[i]) && s[i] != '"'
  }

  lemma {:induction false} RemoveSolid(s: string, rest: string)
    requires Solid(s)
    ensures RemoveSpace(s + rest, false) == s + RemoveSpace(rest, false)
    decreases |s|
  {
    if s == "" {
      assert s + rest == rest;
    } else {
      assert (s + rest)[1..] == s[1..] + rest;
      RemoveSolid(s[1..], rest);
      assert [s[0]] + (s[1..] + RemoveSpace(rest, false)) == s + RemoveSpace(rest, false);
    }
  }

  /** The inside of a string literal is kept as it is. */
  lemma {:induction false} RemoveInString(cs: seq<Char>, rest: string)
    requires ValidChars(cs)
    ensures RemoveSpace(RenderChars(cs) + ("\"" + rest), true) ==
            RenderChars(cs) + ("\"" + RemoveSpace(rest, false))
    decreases |cs|
  {
    hide RenderChar, ValidChar, DenoteChar;
    if cs == [] {
      assert RenderChars(cs) + ("\"" + rest) == "\"" + rest;
      assert ("\"" + rest)[1..] == rest;
      Bare("\"" + RemoveSpace(rest, false), "", "");
    } else {
      hide RemoveSpace, RenderChars, ValidChars, DenoteChars;
      CharsUnfold(cs);
      var c, more := RenderChar(cs[0]), RenderChars(cs[1..]);
      Bare(c, more, "\"" + rest);
      RemoveChar(cs[0], more + ("\"" + rest));
      RemoveInString(cs[1..], rest);
      Bare(c, more, "\"" + RemoveSpace(rest, false));
    }
  }

  lemma RemoveChar(c: Char, rest: string)
    requires ValidChar(c)
    ensures RemoveSpace(RenderChar(c) + rest, true) == RenderChar(c) + RemoveSpace(rest, true)
  {
    var s := RenderChar(c);
    match c {
      case Raw(_) =>
        assert (s + rest)[1..] == rest;
      case Short(_) =>
        assert (s + rest)[..2] == s && (s + rest)[2..] == rest;
      case Unicode(h) =>
        RemoveUnicode(h, rest);
      case Pair(h, l) =>
        RemovePair(h, l, rest);
    }
  }

  lemma RemovePair(h: string, l: string, rest: string)
    requires IsHex4(h) && IsHex4(l)
    ensures RemoveSpace(RenderChar(Pair(h, l)) + rest, true) == RenderChar(Pair(h, l)) + RemoveSpace(rest, true)
  {
    hide RemoveSpace, IsHex4;
    var s := RenderChar(Pair(h, l));
    assert s + rest == ("\\u" + h) + (("\\u" + l) + rest);
    RemoveUnicode(h, ("\\u" + l) + rest);
    RemoveUnicode(l, rest);
    assert ("\\u" + h) + (("\\u" + l) + RemoveSpace(rest, true)) == s + RemoveSpace(rest, true);
  }

  lemma RemoveUnicode(h: string, rest: string)
    requires IsHex4(h)
    ensures RemoveSpace(("\\u" + h) + rest, true) == ("\\u" + h) + RemoveSpace(rest, true)
  {
    var s := ("\\u" + h) + rest;
    assert s[..2] == "\\u" && s[2..] == h + rest;
    RemoveHex(h, rest);
    assert "\\u" + (h + RemoveSpace(rest, true)) == ("\\u" + h) + RemoveSpace(rest, true);
  }

  lemma {:induction false} RemoveHex(h: string, rest: string)
    requires forall i :: 0 <= i < |h| ==> HexDigit(h[i]) >= 0
    ensures RemoveSpace(h + rest, true) == h + RemoveSpace(rest, true)
    decreases |h|
  {
    if h == "" {
      assert h + rest == rest;
    } else {
      HexIsPlain(h[0]);
      assert (h + rest)[1..] == h[1..] + rest;
      RemoveHex(h[1..], rest);
      assert [h[0]] + (h[1..] + RemoveSpace(rest, true)) == h + RemoveSpace(rest, true);
    }
  }

  lemma RemoveString(cs: seq<Char>, rest: string)
    requires ValidChars(cs)
    ensures RemoveSpace(RenderString(cs) + rest, false) == RenderString(cs) + RemoveSpace(rest, false)
  {
    hide RenderChars, ValidChars;
    var body := RenderChars(cs);
    assert RenderString(cs) + rest == "\"" + (body + ("\"" + rest));
    var s := RenderString(cs) + rest;
    assert s[0] == '"' && s[1..] == body + ("\"" + rest);
    RemoveInString(cs, rest);
    assert RenderString(cs) + RemoveSpace(rest, false) == "\"" + (body + ("\"" + RemoveSpace(rest, false)));
  }

  lemma NumberSolid(n: Number)
    requires ValidNumber(n)
    ensures Solid(RenderNumber(n))
  {
    hide RenderNumber;
    NumberChars(n);
  }

  /** White space, then a solid piece. */
  lemma RemoveMark(pre: string, mark: string, rest: string)
    requires AllSpace(pre) && Solid(mark)
    ensures RemoveSpace((pre + mark) + rest, false) == mark + RemoveSpace(rest, false)
  {
    hide RemoveSpace;
    Bare(pre, mark, rest);
    RemoveLeading(pre, mark + rest);
    RemoveSolid(mark, rest);
  }

  /** Removing the white space from a JSON text leaves the text of its compact form. */
  lemma {:induction false} CompactText(j: Json, rest: string)
    requires ValidJson(j)
    ensures RemoveSpace(Render(j) + rest, false) == Render(Compact(j)) + RemoveSpace(rest, false)
    decreases j, 4
  {
    hide RemoveSpace, RenderElements, RenderMembers, RenderNumber, RenderString;
    match j {
      case JNull => RemoveSolid("null", rest);
      case JTrue => RemoveSolid("true", rest);
      case JFalse => RemoveSolid("false", rest);
      case JNumber(n) =>
        NumberSolid(n);
        RemoveSolid(RenderNumber(n), rest);
      case JString(cs) => RemoveString(cs, rest);
      case JArray(gap, es) =>
        var inner := if es.NoElement? then gap + "]" else RenderElements(es);
        Bare("[", inner, rest);
        RemoveSolid("[", inner + rest);
        if es.NoElement? {
          RemoveMark(gap, "]", rest);
          Bare("]", "", "");
          Bare("[", "]", RemoveSpace(rest, false));
        } else {
          CompactElementsText(es, rest);
          Bare("[", RenderElements(CompactElements(es)), RemoveSpace(rest, false));
        }
      case JObject(gap, ms) =>
        var inner := if ms.NoMember? then gap + "}" else RenderMembers(ms);
        Bare("{", inner, rest);
        RemoveSolid("{", inner + rest);
        if ms.NoMember? {
          RemoveMark(gap, "}", rest);
          Bare("}", "", "");
          Bare("{", "}", RemoveSpace(rest, false));
        } else {
          CompactMembersText(ms, rest);
          Bare("{", RenderMembers(CompactMembers(ms)), RemoveSpace(rest, false));
        }
    }
  }

  lemma SplitElement(es: Elements, rest: string)
    requires es.Element?
    ensures var close := if es.rest.NoElement? then "]" else "," + RenderElements(es.rest);
            RenderElements(es) + rest == es.before + (Render(es.value) + (es.after + (close + rest)))
  {
    hide Render;
    var close := if es.rest.NoElement? then "]" else "," + RenderElements(es.rest);
    assert AfterElement(es) == es.after + close;
    Bare(es.after, close, rest);
    Bare(Render(es.value), AfterElement(es), rest);
    Bare(es.before, RenderElement(es), rest);
  }

  lemma {:induction false} CompactElementsText(es: Elements, rest: string)
    requires es.Element? && ValidElements(es)
    ensures RemoveSpace(RenderElements(es) + rest, false) ==
            RenderElements(CompactElements(es)) + RemoveSpace(rest, false)
    decreases es, 3
  {
    hide RemoveSpace, Render, RenderElements, Compact, ValidJson;
    var close := if es.rest.NoElement? then "]" else "," + RenderElements(es.rest);
    var out := RemoveSpace(rest, false);
    var tail := if es.rest.NoElement? then "]" else "," + RenderElements(CompactElements(es.rest));
    SplitElement(es, rest);
    RemoveLeading(es.before, Render(es.value) + (es.after + (close + rest)));
    CompactText(es.value, es.after + (close + rest));
    RemoveLeading(es.after, close + rest);
    if es.rest.NoElement? {
      RemoveSolid("]", rest);
    } else {
      Bare(",", RenderElements(es.rest), rest);
      RemoveSolid(",", RenderElements(es.rest) + rest);
      CompactElementsText(es.rest, rest);
      Bare(",", RenderElements(CompactElements(es.rest)), out);
    }
    TightElement(CompactElements(es));
    Bare(Render(Compact(es.value)), tail, out);
  }

  lemma SplitMember(ms: Members, rest: string)
    requires ms.Member? && ms.separator == ","
    ensures var close := if ms.rest.NoMember? then "}" else "," + RenderMembers(ms.rest);
            RenderMembers(ms) + rest ==
            ms.before + (RenderString(ms.name) + ((ms.beforeColon + ":") + (ms.afterColon +
              (Render(ms.value) + (ms.after + (close + rest))))))
  {
    hide Render, RenderString, RenderMembers, RenderMember;
    var close := if ms.rest.NoMember? then "}" else "," + RenderMembers(ms.rest);
    RenderMembersIs(ms);
    assert AfterMember(ms) == ms.after + close;
    Bare(ms.after, close, rest);
    Bare(Render(ms.value), AfterMember(ms), rest);
    Bare(ms.afterColon, RenderMember(ms), rest);
    Bare(ms.beforeColon + ":", ms.afterColon + RenderMember(ms), rest);
    Bare(RenderString(ms.name), (ms.beforeColon + ":") + (ms.afterColon + RenderMember(ms)), rest);
    Bare(ms.before, RenderString(ms.name) + ((ms.beforeColon + ":") + (ms.afterColon + RenderMember(ms))), rest);
  }

  lemma {:induction false} CompactMembersText(ms: Members, rest: string)
    requires ms.Member? && ValidMembers(ms)
    ensures RemoveSpace(RenderMembers(ms) + rest, false) ==
            RenderMembers(CompactMembers(ms)) + RemoveSpace(rest, false)
    decreases ms, 3
  {
    hide RemoveSpace, Render, RenderMembers, RenderString, Compact, ValidJson, ValidChars;
    var close := if ms.rest.NoMember? then "}" else "," + RenderMembers(ms.rest);
    var out := RemoveSpace(rest, false);
    var tail := if ms.rest.NoMember? then "}" else "," + RenderMembers(CompactMembers(ms.rest));
    var value := Render(ms.value) + (ms.after + (close + rest));
    SplitMember(ms, rest);
    RemoveLeading(ms.before, RenderString(ms.name) + ((ms.beforeColon + ":") + (ms.afterColon + value)));
    RemoveString(ms.name, (ms.beforeColon + ":") + (ms.afterColon + value));
    RemoveMark(ms.beforeColon, ":", ms.afterColon + value);
    RemoveLeading(ms.afterColon, value);
    CompactText(ms.value, ms.after + (close + rest));
    RemoveLeading(ms.after, close + rest);
    if ms.rest.NoMember? {
      RemoveSolid("}", rest);
    } else {
      Bare(",", RenderMembers(ms.rest), rest);
      RemoveSolid(",", RenderMembers(ms.rest) + rest);
      CompactMembersText(ms.rest, rest);
      Bare(",", RenderMembers(CompactMembers(ms.rest)), out);
    }
    TightMember(CompactMembers(ms));
    JoinMember(RenderString(ms.name), Render(Compact(ms.value)), tail, out);
  }

  lemma JoinMember(name: string, value: string, tail: string, out: string)
    ensures (name + (":" + ("" + (value + tail)))) + out == name + (":" + (value + (tail + out)))
  {
  }

  // ---------- the styled writers ----------

  /** A layout whose indentation is white space. */
  predicate Blank(layout: Layout) {
    AllSpace(Unit(layout))
  }

  lemma GapIsWhite(layout: Layout, doc: string, indent: string)
    requires AllSpace(indent)
    ensures AllSpace(LineBreak(layout, doc, indent))
  {
  }

  lemma {:induction false} CompactFast(v: Value, space: string)
    ensures Compact(FastJson(v, space)) == FastJson(v, "")
    decreases Weight(v), 0
  {
    match v.body {
      case Array(es) => CompactFastElements(es, 0, space);
      case Object(ms) => CompactFastMembers(ms, space);
      case _ =>
    }
  }

  lemma {:induction false} CompactFastElements(es: Entries, i: nat, space: string)
    ensures CompactElements(FastElementsJson(es, i, space)) == FastElementsJson(es, i, "")
    decreases 1 + WeightEntries(es), Size(es) - i
  {
    hide FastJson, Compact;
    if i < Size(es) {
      CompactFast(ElementAt(es, i), space);
      CompactFastElements(es, i + 1, space);
    }
  }

  lemma {:induction false} CompactFastMembers(ms: Entries, space: string)
    ensures CompactMembers(FastMembersJson(ms, space)) == FastMembersJson(ms, "")
    decreases WeightEntries(ms), 0
  {
    hide FastJson, Compact;
    if ms.Entry? {
      CompactFast(ms.value, space);
      CompactFastMembers(ms.rest, space);
    }
  }

  /** `j` is the value's syntax tree, up to white space. */
  ghost predicate Depicts(j: Json, v: Value) {
    ValidJson(j) && Compact(j) == FastJson(v, "")
  }

  ghost predicate DepictsElements(t: Elements, es: Entries, i: nat) {
    ValidElements(t) && CompactElements(t) == FastElementsJson(es, i, "")
  }

  ghost predicate DepictsMembers(t: Members, ms: Entries) {
    ValidMembers(t) && CompactMembers(t) == FastMembersJson(ms, "")
  }

  lemma FastDepicts(v: Value)
    requires Writable(v)
    ensures Depicts(FastJson(v, ""), v)
  {
    hide FastJson, Compact, Writable, ValidJson;
    Spaces();
    FastDenotes(v, "", s => None);
    CompactFast(v, "");
  }

  lemma LeafRenders(v: Value, printReal: real -> string)
    requires Writable(v) && IsLeaf(v)
    ensures Render(FastJson(v, "")) == LeafText(v.body, printReal)
  {
    match v.body {
      case Int(i) => IntegerRenders(i);
      case UInt(u) => IntegerRenders(u);
      case Array(es) =>
        assert FastElementsJson(es, 0, "") == NoElement;
        assert "[" + ("" + "]") == "[]";
      case Object(ms) =>
        assert FastMembersJson(ms, "") == NoMember;
        assert "{" + ("" + "}") == "{}";
      case _ =>
    }
  }

  /** Whatever the document so far, a styled writer adds white space and the text
      of the value. */
  lemma {:induction false} StyledIsGrammar(layout: Layout, doc: string, v: Value, indent: string, printReal: real -> string)
    returns (lead: string, j: Json)
    requires Writable(v) && Blank(layout) && AllSpace(indent)
    ensures AllSpace(lead) && Depicts(j, v)
    ensures StyledText(layout, doc, v, indent, printReal) == doc + (lead + Render(j))
    decreases Weight(v), 0
  {
    hide Depicts, FastJson, Render, LeafText, LineBreak, Writable, StyledText;
    var inside := indent + Unit(layout);
    if IsLeaf(v) {
      lead, j := "", FastJson(v, "");
      FastDepicts(v);
      LeafRenders(v, printReal);
      StyledLeaf(layout, doc, v, indent, printReal);
      Bare(Render(j), "", "");
    } else {
      match v.body {
        case Object(ms) =>
          lead := LineBreak(layout, doc, indent);
          GapIsWhite(layout, doc, indent);
          WritableParts(v);
          var start := doc + lead + "{";
          var inner := StyledMembers(layout, start, ms, inside, printReal);
          var close := LineBreak(layout, inner, indent);
          GapIsWhite(layout, inner, indent);
          var t := StyledMembersAre(layout, start, ms, inside, close, printReal);
          j := JObject("", t);
          ObjectDepicts(t, v);
          StyledObject(layout, doc, v, indent, printReal);
          ContainerText(doc, lead, "{", RenderMembers(t), inner, close, "}");
        case Array(es) =>
          WritableParts(v);
          if MultiLine(es, printReal) {
            lead := LineBreak(layout, doc, indent);
            GapIsWhite(layout, doc, indent);
            var start := doc + lead + "[";
            var inner := StyledElements(layout, start, es, 0, inside, printReal);
            var close := LineBreak(layout, inner, indent);
            GapIsWhite(layout, inner, indent);
            var t := StyledElementsAre(layout, start, es, 0, inside, close, printReal);
            j := JArray("", t);
            ArrayDepicts(t, v);
            StyledArray(layout, doc, v, indent, printReal);
            ContainerText(doc, lead, "[", RenderElements(t), inner, close, "]");
          } else {
            lead := "";
            var t := LeafLineIs(es, 0, printReal);
            j := JArray("", t);
            ArrayDepicts(t, v);
            StyledLine(layout, doc, v, indent, printReal);
            LineText(doc, LeafLine(es, 0, printReal), RenderElements(t));
          }
      }
    }
  }

  lemma WritableParts(v: Value)
    requires Writable(v)
    ensures v.body.Object? ==> WritableEntries(v.body.members) && Sorted(v.body.members, true)
    ensures v.body.Array? ==> WritableEntries(v.body.elements)
  {
  }

  lemma ContainerText(doc: string, lead: string, begin: string, items: string, inner: string, close: string, end: string)
    requires inner + (close + end) == (doc + lead + begin) + items
    ensures (inner + close) + end == doc + (lead + (begin + items))
  {
    Bare(inner, close, end);
    Bare(lead, begin, items);
    Bare(doc, lead + begin, items);
    Bare(doc, lead, begin);
  }

  lemma LineText(doc: string, line: string, items: string)
    requires " " + (line + " ]") == items
    ensures doc + "[ " + line + " ]" == doc + ("" + ("[" + items))
  {
    assert "[ " == "[" + " ";
    assert "" + ("[" + items) == "[" + items;
    assert doc + ("[" + " ") + line + " ]" == doc + ("[" + (" " + (line + " ]")));
  }

  lemma ObjectDepicts(t: Members, v: Value)
    requires v.body.Object? && t.Member? && DepictsMembers(t, v.body.members)
    ensures Depicts(JObject("", t), v) && Render(JObject("", t)) == "{" + RenderMembers(t)
  {
    Spaces();
  }

  lemma ArrayDepicts(t: Elements, v: Value)
    requires v.body.Array? && t.Element? && DepictsElements(t, v.body.elements, 0)
    ensures Depicts(JArray("", t), v) && Render(JArray("", t)) == "[" + RenderElements(t)
  {
    Spaces();
  }

  lemma StyledLeaf(layout: Layout, doc: string, v: Value, indent: string, printReal: real -> string)
    requires IsLeaf(v)
    ensures StyledText(layout, doc, v, indent, printReal) == doc + LeafText(v.body, printReal)
  {
  }

  lemma StyledObject(layout: Layout, doc: string, v: Value, indent: string, printReal: real -> string)
    requires v.body.Object? && !IsLeaf(v)
    ensures var start := Indented(layout, doc, indent) + "{";
            var inner := StyledMembers(layout, start, v.body.members, indent + Unit(layout), printReal);
            StyledText(layout, doc, v, indent, printReal) == Indented(layout, inner, indent) + "}"
  {
    hide StyledMembers, Indented;
  }

  lemma StyledArray(layout: Layout, doc: string, v: Value, indent: string, printReal: real -> string)
    requires v.body.Array? && !IsLeaf(v) && MultiLine(v.body.elements, printReal)
    ensures var start := Indented(layout, doc, indent) + "[";
            var inner := StyledElements(layout, start, v.body.elements, 0, indent + Unit(layout), printReal);
            StyledText(layout, doc, v, indent, printReal) == Indented(layout, inner, indent) + "]"
  {
    hide StyledElements, Indented, MultiLine;
  }

  lemma StyledLine(layout: Layout, doc: string, v: Value, indent: string, printReal: real -> string)
    requires v.body.Array? && !IsLeaf(v) && !MultiLine(v.body.elements, printReal)
    ensures StyledText(layout, doc, v, indent, printReal) ==
            doc + "[ " + LeafLine(v.body.elements, 0, printReal) + " ]"
  {
    hide MultiLine, LeafLine;
  }

  lemma {:induction false} LeafLineIs(es: Entries, i: nat, printReal: real -> string) returns (t: Elements)
    requires WritableEntries(es) && i < Size(es) && AllLeaves(es, 0)
    ensures t.Element? && DepictsElements(t, es, i)
    ensures (if i == 0 then " " else "") + (LeafLine(es, i, printReal) + " ]") ==
            (if i > 0 then "," else "") + RenderElements(t)
    decreases Size(es) - i
  {
    hide Depicts, DepictsElements, FastJson, Render, LeafText, WritableEntries, ElementAt, IsLeaf, Compact, ValidJson;
    var v := ElementAt(es, i);
    FindWritable(es, Index(i));
    ElementAtIs(es, i);
    LeafAt(es, 0, i);
    FastDepicts(v);
    LeafRenders(v, printReal);
    Spaces();
    var text := LeafText(v.body, printReal);
    if i + 1 < Size(es) {
      var rest := LeafLineIs(es, i + 1, printReal);
      t := Element(" ", FastJson(v, ""), "", rest);
      Spaces();
      var more := LeafLine(es, i + 1, printReal);
      assert "" + (more + " ]") == more + " ]";
      assert "" + ("," + RenderElements(rest)) == "," + RenderElements(rest);
      assert AfterElement(t) == more + " ]";
    } else {
      t := Element(" ", FastJson(v, ""), " ", NoElement);
      Spaces();
      assert LeafLine(es, i + 1, printReal) == "";
      assert AfterElement(t) == " ]";
      assert LeafLine(es, i + 1, printReal) + " ]" == " ]";
    }
    DepictsElement(t, es, i);
    RenderElementIs(t);
    LeafLineNext(i == 0, text, LeafLine(es, i + 1, printReal));
    assert RenderElements(t) == " " + (text + (LeafLine(es, i + 1, printReal) + " ]"));
  }

  lemma LeafLineNext(first: bool, text: string, more: string)
    ensures (if first then " " else "") + (((if first then "" else ", ") + text + more) + " ]") ==
            (if first then "" else ",") + (" " + (text + (more + " ]")))
  {
  }

  lemma ElementAtIs(es: Entries, i: nat)
    ensures ElementAt(es, i) == Find(es, Index(i))
  {
  }

  lemma DepictsIs(j: Json, v: Value)
    requires Depicts(j, v)
    ensures ValidJson(j) && Compact(j) == FastJson(v, "")
  {
  }

  lemma DepictsElement(t: Elements, es: Entries, i: nat)
    requires t.Element? && AllSpace(t.before) && AllSpace(t.after) && i < Size(es)
    requires Depicts(t.value, ElementAt(es, i))
    requires if i + 1 < Size(es) then DepictsElements(t.rest, es, i + 1) else t.rest.NoElement?
    ensures DepictsElements(t, es, i)
  {
    hide ElementAt, FastJson, Compact, ValidJson;
    if i + 1 == Size(es) {
      assert FastElementsJson(es, i + 1, "") == NoElement;
      assert t.rest == NoElement && ValidElements(t.rest) && CompactElements(t.rest) == NoElement;
    }
  }

  lemma DepictsMember(t: Members, ms: Entries)
    requires t.Member? && AllSpace(t.before) && AllSpace(t.beforeColon) && AllSpace(t.afterColon) && AllSpace(t.after)
    requires t.separator == ","
    requires ms.Entry? && t.name == QuoteChars(NameOf(ms.key)) && ValidChars(t.name)
    requires Depicts(t.value, ms.value)
    requires if ms.rest.Entry? then DepictsMembers(t.rest, ms.rest) else t.rest.NoMember?
    ensures DepictsMembers(t, ms)
  {
    hide QuoteChars, ValidChars, FastJson, Compact, ValidJson;
    if ms.rest.End? {
      assert FastMembersJson(ms.rest, "") == NoMember;
      assert t.rest == NoMember && ValidMembers(t.rest) && CompactMembers(t.rest) == NoMember;
    }
  }

  lemma {:induction false} StyledElementsAre(layout: Layout, doc: string, es: Entries, i: nat, indent: string,
                                             close: string, printReal: real -> string)
    returns (t: Elements)
    requires WritableEntries(es) && i < Size(es)
    requires Blank(layout) && AllSpace(indent) && AllSpace(close)
    ensures t.Element? && DepictsElements(t, es, i)
    ensures StyledElements(layout, doc, es, i, indent, printReal) + (close + "]") == doc + RenderElements(t)
    decreases 1 + WeightEntries(es), Size(es) - i
  {
    hide Depicts, DepictsElements, FastJson, Render, StyledText, WritableEntries, ElementAt, Compact, ValidJson, LineBreak;
    var v := ElementAt(es, i);
    FindWritable(es, Index(i));
    ElementAtIs(es, i);
    var gap := LineBreak(layout, doc, indent);
    GapIsWhite(layout, doc, indent);
    var lead, j := StyledIsGrammar(layout, doc + gap, v, indent, printReal);
    DepictsIs(j, v);
    var d := StyledText(layout, doc + gap, v, indent, printReal);
    Spaces();
    SpaceJoin(gap, lead);
    if i + 1 < Size(es) {
      var rest := StyledElementsAre(layout, d + ",", es, i + 1, indent, close, printReal);
      t := Element(gap + lead, j, "", rest);
      Bare("," + RenderElements(rest), "", "");
      assert AfterElement(t) == "," + RenderElements(rest);
      ItemText(doc, gap, lead, Render(j), d, ",", RenderElements(rest));
    } else {
      t := Element(gap + lead, j, close, NoElement);
      assert AfterElement(t) == close + "]";
      ItemText(doc, gap, lead, Render(j), d, close, "]");
      assert StyledElements(layout, d, es, i + 1, indent, printReal) == d;
    }
    DepictsElement(t, es, i);
    RenderElementIs(t);
  }

  lemma SpaceJoin(a: string, b: string)
    requires AllSpace(a) && AllSpace(b)
    ensures AllSpace(a + b)
  {
  }

  lemma ItemText(doc: string, gap: string, lead: string, value: string, d: string, sep: string, rest: string)
    requires d == (doc + gap) + (lead + value)
    ensures (d + sep) + rest == doc + ((gap + lead) + (value + (sep + rest)))
    ensures d + (sep + rest) == doc + ((gap + lead) + (value + (sep + rest)))
  {
  }

  lemma {:induction false} StyledMembersAre(layout: Layout, doc: string, ms: Entries, indent: string,
                                            close: string, printReal: real -> string)
    returns (t: Members)
    requires WritableEntries(ms) && Sorted(ms, true) && ms.Entry?
    requires Blank(layout) && AllSpace(indent) && AllSpace(close)
    ensures t.Member? && DepictsMembers(t, ms)
    ensures StyledMembers(layout, doc, ms, indent, printReal) + (close + "}") == doc + RenderMembers(t)
    decreases WeightEntries(ms), 0
  {
    hide Depicts, DepictsMembers, FastJson, Render, RenderString, QuoteChars, ValidChars, StyledText, Compact,
         ValidJson, LineBreak, Writable,
         RenderMembers, RenderMember;
    var name, v := NameOf(ms.key), ms.value;
    QuoteDenotes(name);
    QuotedIs(name);
    var gap := LineBreak(layout, doc, indent);
    GapIsWhite(layout, doc, indent);
    var front := doc + gap + Quoted(name) + " : ";
    var lead, j := StyledIsGrammar(layout, front, v, indent, printReal);
    DepictsIs(j, v);
    var d := StyledText(layout, front, v, indent, printReal);
    Spaces();
    SpaceJoin(" ", lead);
    if ms.rest.Entry? {
      var rest := StyledMembersAre(layout, d + ",", ms.rest, indent, close, printReal);
      t := Member(gap, QuoteChars(name), " ", " " + lead, j, "", ",", rest);
      Bare("," + RenderMembers(rest), "", "");
      assert AfterMember(t) == "," + RenderMembers(rest);
      MemberItemText(doc, gap, Quoted(name), lead, Render(j), d, ",", RenderMembers(rest));
    } else {
      t := Member(gap, QuoteChars(name), " ", " " + lead, j, close, ",", NoMember);
      assert AfterMember(t) == close + "}";
      MemberItemText(doc, gap, Quoted(name), lead, Render(j), d, close, "}");
      assert ms.rest == End;
      assert StyledMembers(layout, d, ms.rest, indent, printReal) == d;
    }
    DepictsMember(t, ms);
    RenderMembersIs(t);
  }

  lemma MemberItemText(
    doc: string, gap: string, name: string, lead: string, value: string, d: string, sep: string, rest: string)
    requires d == (doc + gap + name + " : ") + (lead + value)
    ensures (d + sep) + rest ==
            doc + (gap + (name + ((" " + ":") + ((" " + lead) + (value + (sep + rest))))))
    ensures d + (sep + rest) == (d + sep) + rest
  {
  }

  // ---------- the styled writers and the reader ----------

  /** What a styled writer prints for a value. */
  function StyledDocument(layout: Layout, v: Value, printReal: real -> string): string {
    StyledText(layout, "", v, "", printReal) + "\n"
  }

  /** A styled document is FastWriter's text plus white space outside strings. */
  lemma StyledIsFastPlusSpace(layout: Layout, v: Value, style: FastStyle)
    requires Writable(v) && Blank(layout) && !style.yaml && !style.dropNull
    ensures RemoveSpace(StyledDocument(layout, v, style.printReal), false) == FastText(v, style)
  {
    hide StyledText, Depicts, FastJson, Render, Compact, ValidJson, FastText, RemoveSpace;
    Spaces();
    var lead, j := StyledIsGrammar(layout, "", v, "", style.printReal);
    DepictsIs(j, v);
    var text := Render(j);
    assert StyledDocument(layout, v, style.printReal) == lead + (text + "\n");
    RemoveLeading(lead, text + "\n");
    CompactText(j, "\n");
    RemoveNewline();
    assert Render(Compact(j)) + "" == Render(Compact(j));
    FastRenders(v, style);
  }

  lemma RemoveNewline()
    ensures RemoveSpace("\n", false) == ""
  {
    assert "\n"[1..] == "";
  }

  /** Parsing a styled document gives the value back, exactly as parsing
      FastWriter's output does. */
  lemma StyledRoundTrip(layout: Layout, v: Value, printReal: real -> string, env: Env, root: Value)
    requires Writable(v) && Blank(layout) && env.doc == StyledDocument(layout, v, printReal)
    ensures var r := Parse(env, false, root);
            r.ok && r.errors == [] && Strip(r.value) == Normal(v)
  {
    hide StyledText, Depicts, FastJson, Render, Compact, ValidJson, Denote, Scans, Normal, Strip, Parse;
    Spaces();
    var lead, j := StyledIsGrammar(layout, "", v, "", printReal);
    DepictsIs(j, v);
    FastDenotes(v, "", env.scan);
    CompactDenotes(j, env.scan);
    assert env.doc == lead + Render(j) + "\n";
    GrammarAccepted(env, false, root, lead, j, "\n");
  }
}
