/** What `Reader::parse` computes, as a function of the document. */
module JsonParse {
  import opened CStrings
  import opened Optional
  import opened JsonValue
  import opened JsonText
  import opened JsonScan
  import opened JsonNumber

  datatype Error = Error(kind: ErrorKind, token: Token, extra: Option<nat>)

  /** The document, whether comments are allowed before a value, and the C
      library's conversion of a text to a floating-point number. */
  datatype Env = Env(doc: string, allowComments: bool, scan: string -> Option<real>)

  /** Outcome of reading a value: the value as it now stands, the position behind
      it, and the errors recorded. */
  datatype Read = Read(ok: bool, value: Value, pos: nat, errors: seq<Error>)

  /** The first token of a value. */
  function FirstToken(env: Env, p: nat): (t: Token)
    requires p <= |env.doc|
    ensures p <= t.start <= t.end <= |env.doc|
    ensures t.kind != EndOfStream ==> t.start < t.end
  {
    if env.allowComments then ReadPastComments(env.doc, p) else ReadToken(env.doc, p)
  }

  /** Skip to the closing token, or to the end of the document. */
  function Recover(doc: string, p: nat, until: TokenType): (q: nat)
    requires p <= |doc|
    ensures p <= q <= |doc|
    decreases |doc| - p
  {
    var t := ReadToken(doc, p);
    if t.kind == until || t.kind == EndOfStream then t.end else Recover(doc, t.end, until)
  }

  function Fail(doc: string, value: Value, t: Token, until: TokenType, kind: ErrorKind): (r: Read)
    requires t.end <= |doc|
    ensures t.end <= r.pos <= |doc|
  {
    Read(false, value, Recover(doc, t.end, until), [Error(kind, t, None)])
  }

  predicate SoundRead(doc: string, p: nat, r: Read) {
    && p <= r.pos <= |doc|
    && (r.ok ==> r.errors == [] && p < r.pos)
    && (!r.ok ==> |r.errors| == 1 && ErrorInside(doc, p, r.errors[0]))
  }

  /** The error's offsets lie in the document, not before `p`. */
  predicate ErrorInside(doc: string, p: nat, e: Error) {
    && p <= e.token.start <= e.token.end <= |doc|
    && (e.extra.Some? ==> e.token.start <= e.extra.value <= e.token.end)
  }

  function Elements(v: Value): Entries {
    match v.body
    case Array(es) => es
    case Object(es) => es
    case _ => End
  }

  function ReadValue(env: Env, p: nat, current: Value): (r: Read)
    requires p <= |env.doc|
    ensures SoundRead(env.doc, p, r)
    decreases |env.doc| - p, 2
  {
    var t := FirstToken(env, p);
    match t.kind
    case ObjectBegin =>
      var r := ReadMembers(env, t.end, Value(Object(End), t.start, 0), "");
      Read(r.ok, r.value.(limit := r.pos), r.pos, r.errors)
    case ArrayBegin =>
      var r := ReadArray(env, t);
      Read(r.ok, r.value.(limit := r.pos), r.pos, r.errors)
    case NumberToken =>
      NumberTokenText(env, p);
      (match DecodeNumber(env.doc[t.start..t.end], env.scan)
       case Some(body) => Read(true, Value(body, t.start, t.end), t.end, [])
       case None => Read(false, current, t.end, [Error(NotANumber, t, None)]))
    case StringToken =>
      StringTokenShape(env, p);
      (match Decode(env.doc, t.start + 1, t.end - 1)
       case Text(s) => Read(true, Value(Str(CString(s)), t.start, t.end), t.end, [])
       case Bad(kind, at) => Read(false, current, t.end, [Error(kind, t, Some(at))]))
    case TrueToken => Read(true, Value(Bool(true), t.start, t.end), t.end, [])
    case FalseToken => Read(true, Value(Bool(false), t.start, t.end), t.end, [])
    case NullToken => Read(true, Value(Null, t.start, t.end), t.end, [])
    case _ => Read(false, current.(start := t.start, limit := t.end), t.end, [Error(ValueExpected, t, None)])
  }

  lemma PastCommentsAt(doc: string, p: nat)
    requires p <= |doc|
    ensures exists q :: p <= q <= |doc| && ReadPastComments(doc, p) == TokenAt(doc, q)
    decreases |doc| - p
  {
    var t := ReadToken(doc, p);
    if t.kind == CommentToken {
      PastCommentsAt(doc, t.end);
    } else {
      assert ReadPastComments(doc, p) == TokenAt(doc, SkipSpaces(doc, p));
    }
  }

  lemma FirstTokenAt(env: Env, p: nat)
    requires p <= |env.doc|
    ensures FirstToken(env, p) == TokenAt(env.doc, FirstToken(env, p).start)
  {
    if env.allowComments {
      PastCommentsAt(env.doc, p);
    }
  }

  lemma NumberTokenText(env: Env, p: nat)
    requires p <= |env.doc| && FirstToken(env, p).kind == NumberToken
    ensures var t := FirstToken(env, p); NumberText(env.doc[t.start..t.end])
  {
    FirstTokenAt(env, p);
    TokenShape(env.doc, FirstToken(env, p).start);
  }

  lemma StringTokenShape(env: Env, p: nat)
    requires p <= |env.doc| && FirstToken(env, p).kind == StringToken
    ensures FirstToken(env, p).start + 2 <= FirstToken(env, p).end
  {
    FirstTokenAt(env, p);
    TokenShape(env.doc, FirstToken(env, p).start);
  }

  /** The members of an object from `p` on; `name` is the last member name read. */
  function ReadMembers(env: Env, p: nat, obj: Value, name: string): (r: Read)
    requires p <= |env.doc| && obj.body.Object?
    ensures SoundRead(env.doc, p, r) && r.value.body.Object?
    decreases |env.doc| - p, 0
  {
    var t := ReadPastComments(env.doc, p);
    if t.kind == ObjectEnd && name == "" then Read(true, obj, t.end, [])
    else if t.kind != StringToken then Fail(env.doc, obj, t, ObjectEnd, MissingBraceOrName)
    else
      PastCommentsAt(env.doc, p);
      TokenShape(env.doc, t.start);
      match Decode(env.doc, t.start + 1, t.end - 1)
      case Bad(kind, at) =>
        Read(false, obj, Recover(env.doc, t.end, ObjectEnd), [Error(kind, t, Some(at))])
      case Text(text) =>
        var colon := ReadToken(env.doc, t.end);
        if colon.kind != MemberSeparator then Fail(env.doc, obj, colon, ObjectEnd, MissingColon)
        else ReadMember(env, colon.end, obj, text)
  }

  /** The member called `name`, from behind its colon, and the members after it. */
  function ReadMember(env: Env, p: nat, obj: Value, name: string): (r: Read)
    requires p <= |env.doc| && obj.body.Object?
    ensures SoundRead(env.doc, p, r) && r.value.body.Object?
    decreases |env.doc| - p, 3
  {
    var key := Name(CString(name));
    var members := Resolve(obj.body.members, key);
    var v := ReadValue(env, p, Find(members, key));
    var grown := obj.(body := Object(Put(members, key, v.value)));
    if !v.ok then Read(false, grown, Recover(env.doc, v.pos, ObjectEnd), v.errors)
    else
      var comma := ReadToken(env.doc, v.pos);
      if comma.kind != ObjectEnd && comma.kind != ArraySeparator && comma.kind != CommentToken then
        Fail(env.doc, grown, comma, ObjectEnd, MissingCommaOrBrace)
      else
        var next := ReadPastComments(env.doc, v.pos);
        if next.kind == ObjectEnd then Read(true, grown, next.end, [])
        else ReadMembers(env, next.end, grown, name)
  }

  function ReadArray(env: Env, begin: Token): (r: Read)
    requires begin.end <= |env.doc|
    ensures SoundRead(env.doc, begin.end, r) && r.value.body.Array?
    decreases |env.doc| - begin.end, 4
  {
    var arr := Value(Array(End), begin.start, 0);
    var p := SkipSpaces(env.doc, begin.end);
    if At(env.doc, p) == ']' then Read(true, arr, p + 1, [])
    else ReadElements(env, p, arr, 0)
  }

  /** The elements of an array from number `index` on. */
  function ReadElements(env: Env, p: nat, arr: Value, index: nat): (r: Read)
    requires p <= |env.doc| && arr.body.Array?
    ensures SoundRead(env.doc, p, r) && r.value.body.Array?
    decreases |env.doc| - p, 3
  {
    var elements := Resolve(arr.body.elements, Index(index));
    var v := ReadValue(env, p, Find(elements, Index(index)));
    var grown := arr.(body := Array(Put(elements, Index(index), v.value)));
    if !v.ok then Read(false, grown, Recover(env.doc, v.pos, ArrayEnd), v.errors)
    else
      var t := ReadPastComments(env.doc, v.pos);
      if t.kind == ArrayEnd then Read(true, grown, t.end, [])
      else if t.kind == ArraySeparator then ReadElements(env, t.end, grown, index + 1)
      else Fail(env.doc, grown, t, ArrayEnd, MissingCommaOrBracket)
  }

  /** `parse` on a fresh root value. */
  function Parse(env: Env, strictRoot: bool, root: Value): (r: Read)
    ensures !strictRoot ==> SoundRead(env.doc, 0, r)
    ensures r.ok ==> r.errors == [] && (strictRoot ==> r.value.body.Array? || r.value.body.Object?)
    ensures !r.ok ==> 1 <= |r.errors| <= 2
    ensures forall e :: e in r.errors ==> ErrorInside(env.doc, 0, e)
  {
    var r := ReadValue(env, 0, root);
    if strictRoot && !r.value.body.Array? && !r.value.body.Object? then
      Read(false, r.value, r.pos, r.errors + [Error(RootNotContainer, Token(ErrorToken, 0, |env.doc|), None)])
    else r
  }
}
