/** What the socket messages say: the object that `JoinElements` composes, read back by
    `Reader`. */
module MessageJson {
  import opened CStrings
  import opened JsonValue
  import opened JsonText
  import opened JsonSyntax
  import opened JsonParse
  import opened JsonAccept
  import Framing

  /** The type is written without escapes. */
  predicate PlainText(s: string) {
    forall i :: 0 <= i < |s| ==> s[i] >= ' ' && s[i] != '"' && s[i] != '\\'
  }

  function Raws(s: string): (cs: seq<Char>)
    ensures |cs| == |s| && forall i :: 0 <= i < |s| ==> cs[i] == Raw(s[i])
  {
    if s == "" then [] else [Raw(s[0])] + Raws(s[1..])
  }

  lemma {:induction false} RawsAre(s: string)
    requires PlainText(s)
    ensures ValidChars(Raws(s)) && NulFree(s)
    ensures RenderChars(Raws(s)) == s && DenoteChars(Raws(s)) == s
  {
    if s != "" {
      RawsAre(s[1..]);
      assert Raws(s)[1..] == Raws(s[1..]);
      assert s == [s[0]] + s[1..];
    }
  }

  /** The syntax tree of a message. */
  function MessageTree(typ: string, data: Json): Json {
    JObject("", Member("", Raws("type"), "", "", JString(Raws(typ)), "", ",",
                Member(" ", Raws("data"), "", "", data, "", ",", NoMember)))
  }

  /** A member without white space. */
  function Tight(before: string, name: string, value: Json, rest: Members): Members {
    Member(before, Raws(name), "", "", value, "", ",", rest)
  }

  lemma TightText(before: string, name: string, value: Json, rest: Members)
    requires PlainText(name)
    ensures RenderMembers(Tight(before, name, value, rest)) ==
            before + ("\"" + name + "\"" + (":" + (Render(value) + TightEnd(rest))))
  {
    hide Render, RenderMembers, RenderChars, PlainText, RenderMember;
    RawsAre(name);
    var m := Tight(before, name, value, rest);
    RenderMembersIs(m);
    Bare(":", "", "");
    Bare(RenderMember(m), "", "");
    Bare(TightEnd(rest), "", "");
    assert AfterMember(m) == TightEnd(rest);
  }

  function TightEnd(rest: Members): string {
    if rest.NoMember? then "}" else "," + RenderMembers(rest)
  }

  lemma MessageRenders(typ: string, data: Json)
    requires PlainText(typ)
    ensures Framing.Payload(typ, Render(data)) == Render(MessageTree(typ, data))
  {
    hide *;
    NamesArePlain();
    TightIs();
    var second := Tight(" ", "data", data, NoMember);
    TightText(" ", "data", data, NoMember);
    TightText("", "type", JString(Raws(typ)), second);
    TightEnds(second);
    TypeRenders(typ);
    TreeIs(typ, data);
    ObjectRenders(Tight("", "type", JString(Raws(typ)), second));
    PayloadText(typ, Render(data));
  }

  lemma TightIs()
    ensures forall before, name, value, rest :: Tight(before, name, value, rest).Member?
  {
  }

  lemma TightEnds(ms: Members)
    ensures TightEnd(NoMember) == "}"
    ensures ms.Member? ==> TightEnd(ms) == "," + RenderMembers(ms)
  {
    hide RenderMembers;
  }

  lemma TypeRenders(typ: string)
    requires PlainText(typ)
    ensures Render(JString(Raws(typ))) == "\"" + typ + "\""
  {
    hide RenderChars;
    RawsAre(typ);
  }

  lemma ObjectRenders(ms: Members)
    requires ms.Member?
    ensures Render(JObject("", ms)) == "{" + RenderMembers(ms)
  {
    hide RenderMembers;
  }

  lemma NamesArePlain()
    ensures PlainText("type") && PlainText("data")
  {
  }

  lemma PayloadText(typ: string, text: string)
    ensures Framing.Payload(typ, text) ==
            "{" + ("" + ("\"type\"" + (":" + ("\"" + typ + "\"" + ("," + (" " + ("\"data\"" + (":" + (text + "}")))))))))
    ensures "\"" + "type" + "\"" == "\"type\"" && "\"" + "data" + "\"" == "\"data\""
  {
  }

  function MessageValue(typ: string, data: Value): Value {
    Plain(Object(Entry(Name("data"), data, Entry(Name("type"), Plain(Str(typ)), End))))
  }

  lemma TightDenotes(before: string, name: string, value: Json, rest: Members, m: Entries, env: Env)
    requires PlainText(name) && AllSpace(before)
    requires ValidJson(value) && Scans(value, env.scan) && ValidMembers(rest) && ScansMembers(rest, env.scan)
    ensures var t := Tight(before, name, value, rest);
            && ValidMembers(t) && ScansMembers(t, env.scan)
            && DenoteMembers(t, m, env.scan) ==
               DenoteMembers(rest, Put(m, Name(name), Denote(value, env.scan)), env.scan)
  {
    hide ValidJson, Scans, Denote, Put, DenoteChars, ValidChars, PlainText;
    RawsAre(name);
  }

  lemma MessageDenotes(typ: string, data: Json, env: Env)
    requires PlainText(typ) && ValidJson(data) && Scans(data, env.scan)
    ensures var j := MessageTree(typ, data);
            && ValidJson(j) && Scans(j, env.scan)
            && Denote(j, env.scan) == MessageValue(typ, Denote(data, env.scan))
  {
    hide *;
    NamesArePlain();
    TypeDenotes(typ, env);
    NoSpace();
    var first, second := JString(Raws(typ)), Tight(" ", "data", data, NoMember);
    var m := Entry(Name("type"), Plain(Str(typ)), End);
    NothingMore(m, env);
    NothingMore(Entry(Name("data"), Denote(data, env.scan), m), env);
    DataFirst(Denote(data, env.scan), Plain(Str(typ)));
    TightDenotes(" ", "data", data, NoMember, m, env);
    TightDenotes("", "type", first, second, End, env);
    ObjectDenotes(Tight("", "type", first, second), env);
    TreeIs(typ, data);
    ValueIs(typ, Denote(data, env.scan));
  }

  lemma TypeDenotes(typ: string, env: Env)
    requires PlainText(typ)
    ensures var j := JString(Raws(typ));
            ValidJson(j) && Scans(j, env.scan) && Denote(j, env.scan) == Plain(Str(typ))
    ensures AllSpace(" ")
  {
    hide DenoteChars, ValidChars, PlainText;
    RawsAre(typ);
  }

  lemma ObjectDenotes(ms: Members, env: Env)
    requires ValidMembers(ms) && ScansMembers(ms, env.scan)
    ensures var j := JObject("", ms);
            ValidJson(j) && Scans(j, env.scan) && Denote(j, env.scan) == Plain(Object(DenoteMembers(ms, End, env.scan)))
  {
    hide ValidMembers, ScansMembers, DenoteMembers;
  }

  lemma TreeIs(typ: string, data: Json)
    ensures MessageTree(typ, data) ==
            JObject("", Tight("", "type", JString(Raws(typ)), Tight(" ", "data", data, NoMember)))
  {
  }

  lemma ValueIs(typ: string, data: Value)
    ensures MessageValue(typ, data) ==
            Plain(Object(Entry(Name("data"), data, Entry(Name("type"), Plain(Str(typ)), End))))
  {
  }

  lemma NothingMore(m: Entries, env: Env)
    ensures ValidMembers(NoMember) && ScansMembers(NoMember, env.scan) && DenoteMembers(NoMember, m, env.scan) == m
  {
  }

  lemma DataFirst(data: Value, typ: Value)
    ensures Put(End, Name("type"), typ) == Entry(Name("type"), typ, End)
    ensures Put(Entry(Name("type"), typ, End), Name("data"), data) ==
            Entry(Name("data"), data, Entry(Name("type"), typ, End))
  {
    assert StringLess("data", "type");
  }

  lemma {:induction false} StripFind(m: Entries, key: Key)
    ensures Contains(StripEntries(m), key) <==> Contains(m, key)
    ensures Contains(m, key) ==> Strip(Child(m, key)) == Find(StripEntries(m), key)
  {
    if m.Entry? {
      StripFind(m.rest, key);
    }
  }

  /** A message whose data is a JSON text is itself one: the reader takes the whole of it
      for an object with the type and what the data denotes. */
  lemma MessageParses(typ: string, data: Json, env: Env, strictRoot: bool, root: Value)
    requires PlainText(typ) && ValidJson(data) && Scans(data, env.scan)
    requires env.doc == Framing.Payload(typ, Render(data))
    ensures var r := Parse(env, strictRoot, root);
            && r.ok && r.pos == |env.doc| && r.value.body.Object?
            && Strip(Child(r.value.body.members, Name("type"))) == Plain(Str(typ))
            && Strip(Child(r.value.body.members, Name("data"))) == Denote(data, env.scan)
  {
    hide *;
    var j := MessageTree(typ, data);
    MessageRenders(typ, data);
    MessageDenotes(typ, data, env);
    NoSpace();
    Bare(Render(j), "", "");
    TreeIsObject(typ, data);
    GrammarAccepted(env, strictRoot, root, "", j, "");
    var v := Parse(env, strictRoot, root).value;
    MessageParts(v, typ, Denote(data, env.scan));
  }

  lemma NoSpace()
    ensures AllSpace("")
  {
  }

  lemma TreeIsObject(typ: string, data: Json)
    ensures MessageTree(typ, data).JObject?
  {
  }

  lemma MessageParts(v: Value, typ: string, data: Value)
    requires Strip(v) == MessageValue(typ, data)
    ensures v.body.Object?
    ensures Strip(Child(v.body.members, Name("type"))) == Plain(Str(typ))
    ensures Strip(Child(v.body.members, Name("data"))) == data
  {
    hide StripEntries, Child;
    var m := v.body.members;
    StripFind(m, Name("type"));
    StripFind(m, Name("data"));
    PartsFound(typ, data);
  }

  lemma PartsFound(typ: string, data: Value)
    ensures var m := MessageValue(typ, data).body.members;
            && Contains(m, Name("data")) && Contains(m, Name("type"))
            && Find(m, Name("data")) == data && Find(m, Name("type")) == Plain(Str(typ))
  {
    assert "data"[0] != "type"[0];
  }
}
