/** What the reader takes although the JSON grammar does not have it, each with a
    text that shows it. */
module JsonQuirks {
  import opened CStrings
  import opened Optional
  import opened Decimal
  import opened JsonValue
  import opened JsonText
  import opened JsonScan
  import opened JsonSyntax
  import opened JsonParse
  import opened JsonSteps
  import opened JsonAccept
  import opened JsonExact

  lemma BareToken(env: Env, p: nat)
    requires p < |env.doc| && !White(env.doc[p])
    ensures ReadToken(env.doc, p) == TokenAt(env.doc, p)
    ensures TokenAt(env.doc, p).kind != CommentToken ==>
              ReadPastComments(env.doc, p) == TokenAt(env.doc, p) == FirstToken(env, p)
  {
    hide TokenAt;
  }

  lemma NotSpace()
    ensures !White('"') && !White('/') && !White('{') && !White(']') && !White('}')
  {
  }

  // ---------- texts outside the grammar ----------

  /** Text behind the root value is not looked at. */
  lemma TrailingTextExample(env: Env, root: Value)
    requires env.doc == "null]"
    ensures var r := Parse(env, false, root);
            r.ok && r.pos == 4 && Strip(r.value) == Plain(Null)
  {
    hide Parse, Strip;
    assert "" + Render(JNull) + "]" == "null]";
    DocumentAccepted(env, false, root, "", JNull, "]");
  }

  /** A minus sign alone is the number zero. */
  lemma LoneMinusExample(env: Env, root: Value)
    requires env.doc == "-"
    ensures var r := Parse(env, false, root);
            r.ok && Strip(r.value) == Plain(Int(0))
    ensures forall n :: ValidNumber(n) ==> RenderNumber(n) != "-"
  {
    hide Parse, Strip;
    var n := Number(true, "", "", "");
    assert RenderNumber(n) == "-";
    assert "" + Render(JNumber(n)) + "" == "-";
    DocumentAccepted(env, false, root, "", JNumber(n), "");
    assert ValueOf("") == 0;
    forall n | ValidNumber(n) ensures RenderNumber(n) != "-" {
      NumberParts(n);
      assert IsDigit(n.digits[0]);
    }
  }

  lemma OneIs(one: Number, scan: string -> Option<real>)
    requires one == Number(false, "1", "", "")
    ensures RenderNumber(one) == "1" && LooseNumber(one) && ExactNumber(one)
    ensures DenoteNumber(one, scan) == Int(1)
  {
    assert RenderNumber(one) == "1";
    assert "1"[..0] == "" && ValueOf("") == 0;
    assert ValueOf("1") == 1;
  }

  lemma DanglingText(one: Number)
    requires RenderNumber(one) == "1"
    ensures Render(JObject("", Member("", [], "", "", JNumber(one), "", ",", Dangling("")))) == "{\"\":1,}"
  {
    var ms := Member("", [], "", "", JNumber(one), "", ",", Dangling(""));
    assert RenderMembers(ms.rest) == "}";
    assert AfterMember(ms) == ",}";
    assert RenderMember(ms) == "1,}";
    assert RenderString([]) == "\"\"";
    RenderMembersIs(ms);
    assert RenderMembers(ms) == "\"\":1,}";
  }

  lemma OneJson(one: Number, env: Env)
    requires LooseNumber(one) && ExactNumber(one) && DenoteNumber(one, env.scan) == Int(1) && RenderNumber(one) == "1"
    ensures LooseJson(JNumber(one)) && Readable(env, JNumber(one)) && Scans(JNumber(one), env.scan)
    ensures Render(JNumber(one)) == "1" && Denote(JNumber(one), env.scan) == Plain(Int(1))
  {
    hide LooseNumber, ExactNumber, DenoteNumber, RenderNumber;
  }

  lemma NoGap(env: Env)
    ensures AllSpace("") && Gap("") && ValueGap(env, "")
  {
    hide Gap;
    NoSpace();
  }

  lemma Nothing(m: Entries, env: Env)
    ensures LooseChars([]) && DenoteChars([]) == "" && CString("") == "" && Separates("", ",")
    ensures LooseMembers(Dangling("")) && ReadableMembers(env, Dangling("")) && ScansMembers(Dangling(""), env.scan)
    ensures DenoteMembers(Dangling(""), m, env.scan) == m
    ensures Put(End, Name(""), Plain(Int(1))) == Entry(Name(""), Plain(Int(1)), End)
  {
    hide Gap, OneToken;
    NoSpace();
  }

  lemma DanglingDenotes(one: Number, env: Env)
    requires LooseNumber(one) && ExactNumber(one) && DenoteNumber(one, env.scan) == Int(1) && RenderNumber(one) == "1"
    ensures var j := JObject("", Member("", [], "", "", JNumber(one), "", ",", Dangling("")));
            && Readable(env, j) && Scans(j, env.scan)
            && Denote(j, env.scan) == Plain(Object(Entry(Name(""), Plain(Int(1)), End)))
  {
    hide *;
    var ms := Member("", [], "", "", JNumber(one), "", ",", Dangling(""));
    NoGap(env);
    OneJson(one, env);
    Nothing(Entry(Name(""), Plain(Int(1)), End), env);
    ReadableMember(env, ms);
    ReadableMembersAre(env, ms);
    ObjectIs(ms, env.scan);
    ReadableObject(env, ms);
    MemberDenotes(ms, End, env.scan);
    ObjectDenotes(JObject("", ms), env.scan);
  }

  /** Behind an empty name the closing brace may follow a comma. */
  lemma DanglingCommaExample(env: Env, root: Value)
    requires env.doc == "{\"\":1,}"
    ensures var r := Parse(env, true, root);
            r.ok && Strip(r.value) == Plain(Object(Entry(Name(""), Plain(Int(1)), End)))
  {
    hide Parse, Strip, RenderNumber, LooseNumber, ExactNumber, DenoteNumber, Render, LooseJson, Scans, Denote;
    var one := Number(false, "1", "", "");
    var j := JObject("", Member("", [], "", "", JNumber(one), "", ",", Dangling("")));
    OneIs(one, env.scan);
    DanglingText(one);
    DanglingDenotes(one, env);
    NoSpace();
    assert "" + Render(j) + "" == env.doc;
    DocumentAccepted(env, true, root, "", j, "");
  }

  const NUL_ESCAPE := "\"a\\u0000b\""

  const NUL_CHARS: seq<Char> := [Raw('a'), Unicode("0000"), Raw('b')]

  lemma NulChars()
    ensures LooseChars(NUL_CHARS) && RenderString(NUL_CHARS) == NUL_ESCAPE
    ensures CString(DenoteChars(NUL_CHARS)) == "a"
  {
    var z := Unicode("0000");
    assert Hex4Value("0000") == 0;
    assert RenderChar(z) == "\\u0000" && DenoteChar(z) == "\0";
    assert NUL_CHARS[1..] == [z, Raw('b')] && NUL_CHARS[1..][1..] == [Raw('b')] && [Raw('b')][1..] == [];
    CharsUnfold(NUL_CHARS);
    CharsUnfold([z, Raw('b')]);
    CharsUnfold([Raw('b')]);
    CharsUnfold([]);
    hide RenderChars, DenoteChars;
    assert DenoteChars(NUL_CHARS) == "a\0b";
    assert "a\0b"[1..] == "\0b";
  }

  /** A NUL escape ends the string it stands in. */
  lemma NulEscapeExample(env: Env, root: Value)
    requires env.doc == NUL_ESCAPE
    ensures var r := Parse(env, false, root);
            r.ok && Strip(r.value) == Plain(Str("a"))
  {
    hide Parse, Strip, LooseChars, RenderString, DenoteChars, CString;
    NulChars();
    NoSpace();
    assert "" + Render(JString(NUL_CHARS)) + "" == NUL_ESCAPE;
    DocumentAccepted(env, false, root, "", JString(NUL_CHARS), "");
  }

  const LONE_HIGH := "\"\\ud800\""

  lemma LoneHighToken(doc: string)
    requires doc == LONE_HIGH
    ensures |doc| == 8 && TokenAt(doc, 0) == Token(StringToken, 0, 8)
  {
    hide TokenAt;
    StringTokenAt(doc, 0);
    assert ScanString(doc, 7) == Scan(true, 8);
    assert ScanString(doc, 5) == ScanString(doc, 6) == ScanString(doc, 7);
    assert ScanString(doc, 3) == ScanString(doc, 4) == ScanString(doc, 5);
    assert ScanString(doc, 1) == ScanString(doc, 3);
  }

  lemma LoneHighDecodes(doc: string)
    requires doc == LONE_HIGH
    ensures Decode(doc, 1, 7) == Bad(SurrogateTooShort, 7)
  {
    assert doc[3..7] == "d800" && Hex4Value("d800") == 0xd800;
    assert DecodeHex4(doc, 3, 7) == Point(0xd800, 7);
    assert DecodeCodePoint(doc, 3, 7) == BadPoint(SurrogateTooShort, 7);
  }

  /** A high surrogate alone is refused. */
  lemma LoneHighExample(env: Env, root: Value)
    requires env.doc == LONE_HIGH
    ensures !Parse(env, false, root).ok
  {
    hide ReadValue, ReadToken, ReadPastComments, FirstToken, TokenAt, Decode;
    NotSpace();
    BareToken(env, 0);
    LoneHighToken(env.doc);
    LoneHighDecodes(env.doc);
    StringIs(env, 0, root, FirstToken(env, 0));
  }

  // ---------- the comma between members ----------

  /** When no closing brace follows the value of a member, a missing comma is noticed
      if and only if no comma follows and no comment stands before what does. */
  lemma CommaMissedIff(env: Env, p: nat, obj: Value, name: string)
    requires p <= |env.doc| && obj.body.Object?
    requires ReadValue(env, p, Child(obj.body.members, Name(CString(name)))).ok
    ensures var end := ReadValue(env, p, Child(obj.body.members, Name(CString(name)))).pos;
            var token, next := ReadToken(env.doc, end), ReadPastComments(env.doc, end);
            next.kind != ObjectEnd ==>
              (ReadMember(env, p, obj, name).errors == [Error(MissingCommaOrBrace, token, None)] <==>
               next.kind != ArraySeparator && token.kind != CommentToken)
  {
    hide *;
    MemberIs(env, p, obj, name);
    var key := Name(CString(name));
    var v := ReadValue(env, p, Child(obj.body.members, key));
    var grown := obj.(body := Object(Put(obj.body.members, key, v.value)));
    var token, next := ReadToken(env.doc, v.pos), ReadPastComments(env.doc, v.pos);
    EndsMemberIs(token.kind);
    PastCommentsIs(env.doc, v.pos);
    FailIs(env.doc, grown, token, ObjectEnd, MissingCommaOrBrace);
    if EndsMember(token.kind) && next.kind != ObjectEnd {
      LaterErrors(env, next.end, grown, name, token);
    }
  }

  lemma FailIs(doc: string, value: Value, t: Token, until: TokenType, kind: ErrorKind)
    requires t.end <= |doc|
    ensures Fail(doc, value, t, until, kind).errors == [Error(kind, t, None)]
  {
    hide Recover;
  }

  lemma LaterErrors(env: Env, p: nat, obj: Value, name: string, t: Token)
    requires p <= |env.doc| && obj.body.Object? && t.start < p
    ensures ReadMembers(env, p, obj, name).errors != [Error(MissingCommaOrBrace, t, None)]
  {
    hide ReadMembers;
    assert SoundRead(env.doc, p, ReadMembers(env, p, obj, name));
  }

  lemma OneChar(c: char)
    requires c != '"' && c != '\\' && c != '\0'
    ensures LooseChars([Raw(c)]) && RenderString([Raw(c)]) == ['"', c, '"'] && DenoteChars([Raw(c)]) == [c]
    ensures CString([c]) == [c]
  {
    var cs := [Raw(c)];
    assert LooseChar(Raw(c)) && cs[1..] == [];
    CharsUnfold(cs);
    CharsUnfold([]);
    assert RenderChars(cs) == [c] + "" == [c];
    assert DenoteChars(cs) == [c] + "" == [c];
    assert CString([c]) == [c];
  }

  lemma ColonAt(doc: string, p: nat)
    requires p < |doc| && doc[p] == ':'
    ensures ReadToken(doc, p) == Token(MemberSeparator, p, p + 1)
  {
  }

  /** Reading a member with a name of one character and the value 1. */
  lemma ShortMember(env: Env, p: nat, obj: Value, name: string, c: char)
    requires Has(env.doc, p, ['"', c, '"', ':', '1']) && c != '"' && c != '\\' && c != '\0'
    requires obj.body.Object? && Delimited(env.doc, p + 5)
    ensures CString([c]) == [c] && p + 5 <= |env.doc|
    ensures var v := ReadValue(env, p + 4, Child(obj.body.members, Name([c])));
            && v.ok && v.pos == p + 5 && Strip(v.value) == Plain(Int(1))
            && ReadMembers(env, p, obj, name) == ReadMember(env, p + 4, obj, [c])
  {
    hide *;
    var text := ['"', c, '"', ':', '1'];
    HasInside(env.doc, p, text);
    HasAt(env.doc, p, text, 0);
    HasAt(env.doc, p, text, 3);
    assert text == ['"', c, '"'] + [':', '1'] && [':', '1'] == [':'] + "1";
    HasSplit(env.doc, p, ['"', c, '"'], [':', '1']);
    HasSplit(env.doc, p + 3, [':'], "1");
    OneChar(c);
    StringAccepted(env.doc, p, [Raw(c)]);
    NotSpace();
    BareToken(env, p);
    MembersNamed(env, p, obj, name, TokenAt(env.doc, p));
    ColonAt(env.doc, p + 3);
    OneRead(env, p + 4, Child(obj.body.members, Name([c])));
  }

  lemma OneRead(env: Env, p: nat, current: Value)
    requires Has(env.doc, p, "1") && Delimited(env.doc, p + 1)
    ensures p <= |env.doc|
    ensures var v := ReadValue(env, p, current);
            v.ok && v.pos == p + 1 && Strip(v.value) == Plain(Int(1))
  {
    hide *;
    var one := Number(false, "1", "", "");
    OneIs(one, env.scan);
    OneJson(one, env);
    NoGap(env);
    HasInside(env.doc, p, "1");
    assert "" + "1" == "1";
    ValueAccepted(env, p, current, "", JNumber(one));
    AcceptedIs(ReadValue(env, p, current), p + 1, Denote(JNumber(one), env.scan));
  }

  lemma StarsAt(doc: string, p: nat)
    requires p + 4 <= |doc| && doc[p] == '/' && doc[p + 1] == '*' && doc[p + 2] == '*' && doc[p + 3] == '/'
    ensures TokenAt(doc, p) == Token(CommentToken, p, p + 4)
  {
    assert ScanCComment(doc, p + 2) == Scan(true, p + 4);
  }

  lemma BracketsAt(doc: string, p: nat)
    requires p < |doc|
    ensures doc[p] == '{' ==> TokenAt(doc, p) == Token(ObjectBegin, p, p + 1)
    ensures doc[p] == '}' ==> TokenAt(doc, p) == Token(ObjectEnd, p, p + 1)
    ensures doc[p] == ']' ==> TokenAt(doc, p) == Token(ArrayEnd, p, p + 1)
  {
  }

  const NO_COMMA := "{\"a\":1/**/]\"b\":1}"

  lemma NoCommaText(doc: string)
    requires doc == NO_COMMA
    ensures |doc| == 17 && doc[0] == '{' && doc[16] == '}' && doc[10] == ']'
    ensures doc[6] == '/' && doc[7] == '*' && doc[8] == '*' && doc[9] == '/'
    ensures Has(doc, 1, ['"', 'a', '"', ':', '1']) && Has(doc, 11, ['"', 'b', '"', ':', '1'])
    ensures Delimited(doc, 6) && Delimited(doc, 16)
  {
  }

  /** Behind a comment a closing bracket passes for the comma. */
  lemma AnyTokenForCommaExample(env: Env, root: Value)
    requires env.doc == NO_COMMA
    ensures var r := Parse(env, true, root);
            r.ok && Strip(r.value) ==
                    Plain(Object(Entry(Name("a"), Plain(Int(1)), Entry(Name("b"), Plain(Int(1)), End))))
  {
    hide *;
    var doc := env.doc;
    NoCommaText(doc);
    NotSpace();
    BareToken(env, 0);
    BracketsAt(doc, 0);
    ContainerIs(env, 0, root, FirstToken(env, 0));
    var obj := Value(Object(End), 0, 0);
    ShortMember(env, 1, obj, "", 'a');
    MemberIs(env, 5, obj, "a");
    BareToken(env, 6);
    StarsAt(doc, 6);
    EndsMemberIs(CommentToken);
    PastCommentsIs(doc, 6);
    BareToken(env, 10);
    BracketsAt(doc, 10);
    var v := ReadValue(env, 5, Child(End, Name("a"))).value;
    var more := obj.(body := Object(Put(End, Name("a"), v)));
    ShortMember(env, 11, more, "a", 'b');
    MemberIs(env, 15, more, "b");
    BareToken(env, 16);
    BracketsAt(doc, 16);
    EndsMemberIs(ObjectEnd);
    var w := ReadValue(env, 15, Child(more.body.members, Name("b"))).value;
    var o := ReadMembers(env, 1, obj, "");
    assert o.ok && o.value == more.(body := Object(Put(more.body.members, Name("b"), w)));
    TwoMembers(v, w);
    StripContainer(o.value, o.pos);
    ParseIs(env, root);
  }

  lemma TwoMembers(v: Value, w: Value)
    requires Strip(v) == Plain(Int(1)) && Strip(w) == Plain(Int(1))
    ensures StripEntries(Put(Put(End, Name("a"), v), Name("b"), w)) ==
            Entry(Name("a"), Plain(Int(1)), Entry(Name("b"), Plain(Int(1)), End))
  {
    StripPut(Put(End, Name("a"), v), Name("b"), w);
    StripPut(End, Name("a"), v);
    hide Strip;
    assert Put(Entry(Name("a"), Plain(Int(1)), End), Name("b"), Plain(Int(1))) ==
           Entry(Name("a"), Plain(Int(1)), Entry(Name("b"), Plain(Int(1)), End));
  }

  lemma ParseIs(env: Env, root: Value)
    ensures var r := ReadValue(env, 0, root);
            r.value.body.Object? ==> Parse(env, true, root) == r
  {
    hide ReadValue;
  }

  // ---------- a comment the reader does not skip ----------

  const COMMENTED_EMPTY := "[/**/]"

  lemma CommentedEmptyText(doc: string)
    requires doc == COMMENTED_EMPTY
    ensures |doc| == 6 && doc[0] == '[' && doc[5] == ']'
    ensures doc[1] == '/' && doc[2] == '*' && doc[3] == '*' && doc[4] == '/'
  {
  }

  /** The test for the empty array looks behind white space only, and then an element
      is expected. */
  lemma CommentedEmptyExample(env: Env, root: Value)
    requires env.doc == COMMENTED_EMPTY
    ensures !Parse(env, false, root).ok
  {
    hide *;
    var doc := env.doc;
    CommentedEmptyText(doc);
    NotSpace();
    OpeningBracket(doc, 0);
    BareToken(env, 0);
    ContainerIs(env, 0, root, FirstToken(env, 0));
    ArrayBegins(env, FirstToken(env, 0));
    BareSpaces(doc, 1);
    var arr := Value(Array(End), 0, 0);
    var current := Child(End, Index(0));
    ElementsIs(env, 1, arr, 0);
    BareToken(env, 1);
    StarsAt(doc, 1);
    PastCommentsIs(doc, 1);
    BareToken(env, 5);
    BracketsAt(doc, 5);
    FirstTokenIs(env, 1);
    WordIs(env, 1, current, FirstToken(env, 1));
    PlainParse(env, root);
  }

  lemma OpeningBracket(doc: string, p: nat)
    requires p < |doc| && doc[p] == '['
    ensures TokenAt(doc, p) == Token(ArrayBegin, p, p + 1) && !White('[')
  {
  }

  lemma BareSpaces(doc: string, p: nat)
    requires p < |doc| && !White(doc[p])
    ensures SkipSpaces(doc, p) == p && At(doc, p) == doc[p]
  {
  }

  lemma FirstTokenIs(env: Env, p: nat)
    requires p <= |env.doc|
    ensures FirstToken(env, p) == if env.allowComments then ReadPastComments(env.doc, p) else ReadToken(env.doc, p)
  {
    hide ReadPastComments, ReadToken;
  }

  lemma PlainParse(env: Env, root: Value)
    ensures Parse(env, false, root) == ReadValue(env, 0, root)
  {
    hide ReadValue;
  }
}
