/** What reading does, one token at a time: the equations of `JsonParse`, each with
    only the functions it is about. */
module JsonSteps {
  import opened CStrings
  import opened Optional
  import opened JsonValue
  import opened JsonText
  import opened JsonScan
  import opened JsonNumber
  import opened JsonParse

  lemma PastCommentsIs(doc: string, p: nat)
    requires p <= |doc|
    ensures var t := ReadToken(doc, p);
            ReadPastComments(doc, p) == if t.kind == CommentToken then ReadPastComments(doc, t.end) else t
  {
    hide ReadToken;
  }

  lemma BracketIs(doc: string, p: nat)
    requires p <= |doc| && At(doc, p) == ']'
    ensures ReadToken(doc, p) == Token(ArrayEnd, p, p + 1)
  {
  }

  // ---------- values, by their first token ----------

  lemma ContainerIs(env: Env, p: nat, v: Value, t: Token)
    requires p <= |env.doc| && t == FirstToken(env, p)
    ensures t.kind == ObjectBegin ==>
              var o := ReadMembers(env, t.end, Value(Object(End), t.start, 0), "");
              ReadValue(env, p, v) == Read(o.ok, o.value.(limit := o.pos), o.pos, o.errors)
    ensures t.kind == ArrayBegin ==>
              var o := ReadArray(env, t);
              ReadValue(env, p, v) == Read(o.ok, o.value.(limit := o.pos), o.pos, o.errors)
  {
    hide FirstToken, ReadMembers, ReadArray, DecodeNumber, Decode;
  }

  lemma NumberIs(env: Env, p: nat, v: Value, t: Token)
    requires p <= |env.doc| && t == FirstToken(env, p) && t.kind == NumberToken
    ensures NumberText(env.doc[t.start..t.end])
    ensures var d := DecodeNumber(env.doc[t.start..t.end], env.scan);
            ReadValue(env, p, v) ==
            if d.Some? then Read(true, Value(d.value, t.start, t.end), t.end, [])
            else Read(false, v, t.end, [Error(NotANumber, t, None)])
  {
    hide FirstToken, DecodeNumber;
    NumberTokenText(env, p);
  }

  lemma StringIs(env: Env, p: nat, v: Value, t: Token)
    requires p <= |env.doc| && t == FirstToken(env, p) && t.kind == StringToken
    ensures t.start + 2 <= t.end
    ensures var d := Decode(env.doc, t.start + 1, t.end - 1);
            ReadValue(env, p, v) ==
            if d.Text? then Read(true, Value(Str(CString(d.text)), t.start, t.end), t.end, [])
            else Read(false, v, t.end, [Error(d.kind, t, Some(d.at))])
  {
    hide FirstToken, Decode;
    StringTokenShape(env, p);
  }

  lemma WordIs(env: Env, p: nat, v: Value, t: Token)
    requires p <= |env.doc| && t == FirstToken(env, p)
    ensures t.kind == TrueToken ==> ReadValue(env, p, v) == Read(true, Value(Bool(true), t.start, t.end), t.end, [])
    ensures t.kind == FalseToken ==> ReadValue(env, p, v) == Read(true, Value(Bool(false), t.start, t.end), t.end, [])
    ensures t.kind == NullToken ==> ReadValue(env, p, v) == Read(true, Value(Null, t.start, t.end), t.end, [])
    ensures !t.kind.ObjectBegin? && !t.kind.ArrayBegin? && !t.kind.NumberToken? && !t.kind.StringToken? &&
            !t.kind.TrueToken? && !t.kind.FalseToken? && !t.kind.NullToken? ==>
              ReadValue(env, p, v) ==
              Read(false, v.(start := t.start, limit := t.end), t.end, [Error(ValueExpected, t, None)])
  {
    hide FirstToken, ReadMembers, ReadArray, DecodeNumber, Decode;
  }

  // ---------- members, by the next tokens ----------

  lemma MembersStop(env: Env, p: nat, obj: Value, name: string, t: Token)
    requires p <= |env.doc| && obj.body.Object? && t == ReadPastComments(env.doc, p) && t.kind != StringToken
    ensures ReadMembers(env, p, obj, name) ==
            if t.kind == ObjectEnd && name == "" then Read(true, obj, t.end, [])
            else Read(false, obj, Recover(env.doc, t.end, ObjectEnd), [Error(MissingBraceOrName, t, None)])
  {
    hide ReadPastComments, Recover;
  }

  lemma NameShape(env: Env, p: nat, t: Token)
    requires p <= |env.doc| && t == ReadPastComments(env.doc, p) && t.kind == StringToken
    ensures t.start + 2 <= t.end
  {
    hide ReadPastComments, TokenAt;
    PastCommentsAt(env.doc, p);
    TokenShape(env.doc, t.start);
  }

  lemma MembersBadName(env: Env, p: nat, obj: Value, name: string, t: Token)
    requires p <= |env.doc| && obj.body.Object? && t == ReadPastComments(env.doc, p)
    requires t.kind == StringToken && t.start + 2 <= t.end && Decode(env.doc, t.start + 1, t.end - 1).Bad?
    ensures var d := Decode(env.doc, t.start + 1, t.end - 1);
            ReadMembers(env, p, obj, name) ==
            Read(false, obj, Recover(env.doc, t.end, ObjectEnd), [Error(d.kind, t, Some(d.at))])
  {
    hide ReadPastComments, ReadToken, Recover, Decode, ReadMember, Fail;
  }

  lemma MembersNamed(env: Env, p: nat, obj: Value, name: string, t: Token)
    requires p <= |env.doc| && obj.body.Object? && t == ReadPastComments(env.doc, p)
    requires t.kind == StringToken && t.start + 2 <= t.end && Decode(env.doc, t.start + 1, t.end - 1).Text?
    ensures var colon := ReadToken(env.doc, t.end);
            ReadMembers(env, p, obj, name) ==
            if colon.kind == MemberSeparator then
              ReadMember(env, colon.end, obj, Decode(env.doc, t.start + 1, t.end - 1).text)
            else Read(false, obj, Recover(env.doc, colon.end, ObjectEnd), [Error(MissingColon, colon, None)])
  {
    hide ReadPastComments, ReadToken, Recover, Decode, ReadMember;
  }

  /** What may follow the value of a member. */
  predicate EndsMember(kind: TokenType) {
    kind == ObjectEnd || kind == ArraySeparator || kind == CommentToken
  }

  lemma MemberIs(env: Env, p: nat, obj: Value, name: string)
    requires p <= |env.doc| && obj.body.Object?
    ensures var key := Name(CString(name));
            var v := ReadValue(env, p, Child(obj.body.members, key));
            var grown := obj.(body := Object(Put(obj.body.members, key, v.value)));
            var r := ReadMember(env, p, obj, name);
            var comma := ReadToken(env.doc, v.pos);
            var next := ReadPastComments(env.doc, v.pos);
            && p <= v.pos <= |env.doc|
            && (!v.ok ==> r == Read(false, grown, Recover(env.doc, v.pos, ObjectEnd), v.errors))
            && (v.ok && !EndsMember(comma.kind) ==>
                  r == Fail(env.doc, grown, comma, ObjectEnd, MissingCommaOrBrace))
            && (v.ok && EndsMember(comma.kind) ==>
                  r == if next.kind == ObjectEnd then Read(true, grown, next.end, [])
                       else ReadMembers(env, next.end, grown, name))
  {
    hide ReadValue, ReadMembers, ReadPastComments, ReadToken, Put, Resolve, Find, Recover, CString;
    var key := Name(CString(name));
    PutResolve(obj.body.members, key, ReadValue(env, p, Child(obj.body.members, key)).value);
  }

  lemma FailFails(doc: string, value: Value, t: Token, until: TokenType, kind: ErrorKind)
    requires t.end <= |doc|
    ensures !Fail(doc, value, t, until, kind).ok
  {
    hide Recover;
  }

  lemma ReadOn(env: Env, p: nat, current: Value)
    requires p <= |env.doc|
    ensures p <= ReadValue(env, p, current).pos <= |env.doc|
    ensures ReadValue(env, p, current).ok ==> p < ReadValue(env, p, current).pos
  {
    hide ReadValue;
  }

  lemma MembersOn(env: Env, p: nat, obj: Value, name: string)
    requires p <= |env.doc| && obj.body.Object?
    ensures p <= ReadMembers(env, p, obj, name).pos <= |env.doc|
  {
    hide ReadMembers;
  }

  lemma ElementsOn(env: Env, p: nat, arr: Value, index: nat)
    requires p <= |env.doc| && arr.body.Array?
    ensures p <= ReadElements(env, p, arr, index).pos <= |env.doc|
  {
    hide ReadElements;
  }

  lemma EndsMemberIs(kind: TokenType)
    ensures EndsMember(kind) <==> kind == ObjectEnd || kind == ArraySeparator || kind == CommentToken
  {
  }

  lemma MemberOn(env: Env, p: nat, obj: Value, name: string)
    requires p <= |env.doc| && obj.body.Object?
    ensures p <= ReadMember(env, p, obj, name).pos <= |env.doc|
  {
    hide ReadMember;
  }

  /** What members read successfully start with. */
  lemma MembersSucceed(env: Env, p: nat, obj: Value, name: string)
    requires p <= |env.doc| && obj.body.Object? && ReadMembers(env, p, obj, name).ok
    ensures var t, r := ReadPastComments(env.doc, p), ReadMembers(env, p, obj, name);
            && t.end <= r.pos
            && (t.kind != StringToken ==> t.kind == ObjectEnd && name == "" && r == Read(true, obj, t.end, []))
            && (t.kind == StringToken ==>
                  && t.start + 2 <= t.end && Decode(env.doc, t.start + 1, t.end - 1).Text?
                  && var colon := ReadToken(env.doc, t.end);
                  && colon.kind == MemberSeparator && t.end < colon.end <= r.pos
                  && r == ReadMember(env, colon.end, obj, Decode(env.doc, t.start + 1, t.end - 1).text))
  {
    hide *;
    var t := ReadPastComments(env.doc, p);
    if t.kind != StringToken {
      MembersStop(env, p, obj, name, t);
    } else {
      NameShape(env, p, t);
      if Decode(env.doc, t.start + 1, t.end - 1).Bad? {
        MembersBadName(env, p, obj, name, t);
      } else {
        MembersNamed(env, p, obj, name, t);
        MemberOn(env, ReadToken(env.doc, t.end).end, obj, Decode(env.doc, t.start + 1, t.end - 1).text);
      }
    }
  }

  /** What a member read successfully consists of. */
  lemma MemberSucceeds(env: Env, p: nat, obj: Value, name: string)
    requires p <= |env.doc| && obj.body.Object? && ReadMember(env, p, obj, name).ok
    ensures var key := Name(CString(name));
            var v := ReadValue(env, p, Child(obj.body.members, key));
            var grown := obj.(body := Object(Put(obj.body.members, key, v.value)));
            var r := ReadMember(env, p, obj, name);
            var next := ReadPastComments(env.doc, v.pos);
            && v.ok && p < v.pos <= |env.doc| && EndsMember(ReadToken(env.doc, v.pos).kind)
            && v.pos < next.end && ReadToken(env.doc, v.pos).end <= next.end <= r.pos
            && r == if next.kind == ObjectEnd then Read(true, grown, next.end, [])
                    else ReadMembers(env, next.end, grown, name)
  {
    hide *;
    MemberIs(env, p, obj, name);
    var key := Name(CString(name));
    var v := ReadValue(env, p, Child(obj.body.members, key));
    var grown := obj.(body := Object(Put(obj.body.members, key, v.value)));
    var token, next := ReadToken(env.doc, v.pos), ReadPastComments(env.doc, v.pos);
    ReadOn(env, p, Child(obj.body.members, key));
    EndsMemberIs(token.kind);
    FailFails(env.doc, grown, token, ObjectEnd, MissingCommaOrBrace);
    PastCommentsIs(env.doc, v.pos);
    NextEnds(env, v.pos, grown, name);
  }

  /** Whatever follows the value of a member ends behind the next token. */
  lemma NextEnds(env: Env, p: nat, obj: Value, name: string)
    requires p <= |env.doc| && obj.body.Object? && EndsMember(ReadToken(env.doc, p).kind)
    ensures p < ReadPastComments(env.doc, p).end <= ReadMembers(env, ReadPastComments(env.doc, p).end, obj, name).pos
  {
    hide *;
    var token := ReadToken(env.doc, p);
    EndsMemberIs(token.kind);
    PastCommentsIs(env.doc, p);
    MembersOn(env, ReadPastComments(env.doc, p).end, obj, name);
  }

  // ---------- elements ----------

  lemma ArrayBegins(env: Env, t: Token)
    requires t.end <= |env.doc|
    ensures var p := SkipSpaces(env.doc, t.end);
            var arr := Value(Array(End), t.start, 0);
            ReadArray(env, t) ==
            if At(env.doc, p) == ']' then Read(true, arr, p + 1, []) else ReadElements(env, p, arr, 0)
  {
    hide ReadElements, SkipSpaces, At;
  }

  lemma ElementsIs(env: Env, p: nat, arr: Value, index: nat)
    requires p <= |env.doc| && arr.body.Array?
    ensures var v := ReadValue(env, p, Child(arr.body.elements, Index(index)));
            var grown := arr.(body := Array(Put(arr.body.elements, Index(index), v.value)));
            var r := ReadElements(env, p, arr, index);
            var t := ReadPastComments(env.doc, v.pos);
            && p <= v.pos <= |env.doc|
            && (!v.ok ==> r == Read(false, grown, Recover(env.doc, v.pos, ArrayEnd), v.errors))
            && (v.ok && t.kind == ArrayEnd ==> r == Read(true, grown, t.end, []))
            && (v.ok && t.kind == ArraySeparator ==> r == ReadElements(env, t.end, grown, index + 1))
            && (v.ok && t.kind != ArrayEnd && t.kind != ArraySeparator ==>
                  r == Fail(env.doc, grown, t, ArrayEnd, MissingCommaOrBracket))
  {
    hide ReadValue, ReadPastComments, Put, Resolve, Find, Recover;
    PutResolve(arr.body.elements, Index(index), ReadValue(env, p, Child(arr.body.elements, Index(index))).value);
  }

  /** What elements read successfully consist of. */
  lemma ElementsSucceed(env: Env, p: nat, arr: Value, index: nat)
    requires p <= |env.doc| && arr.body.Array? && ReadElements(env, p, arr, index).ok
    ensures var v := ReadValue(env, p, Child(arr.body.elements, Index(index)));
            var grown := arr.(body := Array(Put(arr.body.elements, Index(index), v.value)));
            var r := ReadElements(env, p, arr, index);
            var t := ReadPastComments(env.doc, v.pos);
            && v.ok && p < v.pos < t.end <= r.pos && v.pos <= |env.doc|
            && (t.kind == ArrayEnd || t.kind == ArraySeparator)
            && r == if t.kind == ArrayEnd then Read(true, grown, t.end, [])
                    else ReadElements(env, t.end, grown, index + 1)
  {
    hide *;
    ElementsIs(env, p, arr, index);
    var v := ReadValue(env, p, Child(arr.body.elements, Index(index)));
    var grown := arr.(body := Array(Put(arr.body.elements, Index(index), v.value)));
    var t := ReadPastComments(env.doc, v.pos);
    ReadOn(env, p, Child(arr.body.elements, Index(index)));
    FailFails(env.doc, grown, t, ArrayEnd, MissingCommaOrBracket);
    ElementsOn(env, t.end, grown, index + 1);
  }
}
