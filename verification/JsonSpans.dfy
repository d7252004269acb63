/** The offsets the reader records: every value lies inside its parent, siblings
    do not overlap, and the slice of the document a value occupies is itself a
    document for that value. */
module JsonSpans {
  import opened CStrings
  import opened JsonValue
  import opened JsonText
  import opened JsonScan
  import opened JsonNumber
  import opened JsonParse
  import opened JsonSteps

  // ---------- nesting ----------

  predicate Apart(v: Value, w: Value) {
    v.limit <= w.start || w.limit <= v.start
  }

  predicate ApartFrom(v: Value, m: Entries) {
    m.Entry? ==> Apart(v, m.value) && ApartFrom(v, m.rest)
  }

  /** Every value of the map lies between `low` and `high`, no two overlap. */
  predicate Spread(m: Entries, low: nat, high: nat) {
    m.Entry? ==>
      && low <= m.value.start < m.value.limit <= high
      && ApartFrom(m.value, m.rest) && Spread(m.rest, low, high)
  }

  /** The range of `v` is where the reader finds `v` in the document. */
  predicate Occurs(env: Env, v: Value) {
    v.start < v.limit <= |env.doc| && ReadValue(env, v.start, Plain(Null)) == Read(true, v, v.limit, [])
  }

  /** Every value where the reader finds it, children inside their parent and apart
      from each other, at every level. */
  predicate WellPlaced(env: Env, v: Value)
    decreases v, 1
  {
    Occurs(env, v) && ChildrenPlaced(env, v)
  }

  predicate ChildrenPlaced(env: Env, v: Value)
    requires v.start < v.limit
    decreases v, 0
  {
    match v.body
    case Array(es) => Spread(es, v.start + 1, v.limit - 1) && AllPlaced(env, es)
    case Object(ms) => Spread(ms, v.start + 1, v.limit - 1) && AllPlaced(env, ms)
    case _ => true
  }

  predicate AllPlaced(env: Env, m: Entries)
    decreases m
  {
    m.Entry? ==> WellPlaced(env, m.value) && AllPlaced(env, m.rest)
  }

  lemma {:induction false} SpreadWider(m: Entries, low: nat, high: nat, higher: nat)
    requires Spread(m, low, high) && high <= higher
    ensures Spread(m, low, higher)
  {
    if m.Entry? {
      SpreadWider(m.rest, low, high, higher);
    }
  }

  lemma {:induction false} BehindIsApart(v: Value, m: Entries, low: nat, high: nat)
    requires Spread(m, low, high) && high <= v.start
    ensures ApartFrom(v, m)
  {
    if m.Entry? {
      BehindIsApart(v, m.rest, low, high);
    }
  }

  lemma {:induction false} PutApart(w: Value, m: Entries, key: Key, v: Value)
    requires ApartFrom(w, m) && Apart(w, v)
    ensures ApartFrom(w, Put(m, key, v))
  {
    if m.Entry? {
      PutApart(w, m.rest, key, v);
    }
  }

  /** A value read behind all others joins the map without overlap, whether its key
      is new or takes the place of an earlier value. */
  lemma {:induction false} PutSpread(env: Env, m: Entries, key: Key, v: Value, low: nat, p: nat)
    requires Spread(m, low, p) && low <= p <= v.start < v.limit && WellPlaced(env, v) && AllPlaced(env, m)
    ensures Spread(Put(m, key, v), low, v.limit) && AllPlaced(env, Put(m, key, v))
  {
    hide WellPlaced;
    if m.Entry? {
      SpreadWider(m, low, p, v.limit);
      BehindIsApart(v, m, low, p);
      BehindIsApart(v, m.rest, low, p);
      PutApart(m.value, m.rest, key, v);
      PutSpread(env, m.rest, key, v, low, p);
    }
  }

  /** What is placed correctly behind position p. */
  ghost predicate PlacedFrom(env: Env, v: Value, p: nat, end: nat) {
    WellPlaced(env, v) && p <= v.start < v.limit == end
  }

  lemma PlacedIs(env: Env, v: Value, p: nat, end: nat)
    requires PlacedFrom(env, v, p, end)
    ensures WellPlaced(env, v) && p <= v.start < v.limit == end
  {
    hide WellPlaced;
  }

  /** Reading again from the place a value starts at finds the same value, whatever
      stood there before. */
  lemma Reread(env: Env, p: nat, current: Value)
    requires p <= |env.doc| && ReadValue(env, p, current).ok
    ensures ReadValue(env, FirstToken(env, p).start, Plain(Null)) == ReadValue(env, p, current)
  {
    hide ReadValue, FirstToken;
    FirstKind(env, p, current);
    FirstTokenAgain(env, p);
    ReadFrom(env, p, FirstToken(env, p).start, current);
  }

  lemma FirstKind(env: Env, p: nat, current: Value)
    requires p <= |env.doc| && ReadValue(env, p, current).ok
    ensures FirstToken(env, p).kind !in {EndOfStream, ErrorToken, CommentToken}
  {
    hide FirstToken, ReadMembers, ReadArray, DecodeNumber, Decode, CString;
  }

  lemma ReadFrom(env: Env, p: nat, q: nat, current: Value)
    requires p <= |env.doc| && q <= |env.doc| && FirstToken(env, p) == FirstToken(env, q)
    requires ReadValue(env, p, current).ok
    ensures ReadValue(env, q, Plain(Null)) == ReadValue(env, p, current)
  {
    hide FirstToken, ReadMembers, ReadArray, DecodeNumber, Decode, CString;
  }

  lemma FirstTokenAgain(env: Env, p: nat)
    requires p <= |env.doc|
    requires FirstToken(env, p).kind !in {EndOfStream, ErrorToken, CommentToken}
    ensures FirstToken(env, FirstToken(env, p).start) == FirstToken(env, p)
  {
    FirstTokenAt(env, p);
    var t := FirstToken(env, p);
    assert SkipSpaces(env.doc, t.start) == t.start;
    assert ReadToken(env.doc, t.start) == t;
  }

  lemma {:induction false} ReadPlaces(env: Env, p: nat, current: Value)
    requires p <= |env.doc| && ReadValue(env, p, current).ok
    ensures PlacedFrom(env, ReadValue(env, p, current).value, p, ReadValue(env, p, current).pos)
    decreases |env.doc| - p, 2
  {
    ReadChildren(env, p, current);
    Reread(env, p, current);
    hide ReadValue, FirstToken, ChildrenPlaced;
  }

  lemma {:induction false} ReadChildren(env: Env, p: nat, current: Value)
    requires p <= |env.doc| && ReadValue(env, p, current).ok
    ensures var r := ReadValue(env, p, current);
            && r.value.start == FirstToken(env, p).start < r.value.limit == r.pos
            && ChildrenPlaced(env, r.value)
    decreases |env.doc| - p, 1
  {
    hide ReadMembers, ReadArray, FirstToken, DecodeNumber, Decode, CString, Occurs;
    var t := FirstToken(env, p);
    if t.kind == ObjectBegin {
      MembersPlace(env, t.end, Value(Object(End), t.start, 0), "", t.start + 1);
    } else if t.kind == ArrayBegin {
      ArrayPlaces(env, t);
    } else if t.kind == NumberToken {
      NumberTokenText(env, p);
      NumberIsScalar(env, env.doc[t.start..t.end]);
    } else if t.kind == StringToken {
      StringTokenShape(env, p);
    }
  }

  lemma NumberIsScalar(env: Env, text: string)
    requires NumberText(text) && DecodeNumber(text, env.scan).Some?
    ensures var body := DecodeNumber(text, env.scan).value; body.Int? || body.UInt? || body.Real?
  {
  }

  lemma {:induction false} MembersPlace(env: Env, p: nat, obj: Value, name: string, low: nat)
    requires p <= |env.doc| && obj.body.Object?
    requires low <= p && Spread(obj.body.members, low, p) && AllPlaced(env, obj.body.members)
    ensures var r := ReadMembers(env, p, obj, name);
            r.ok ==>
            && p < r.pos && r.value.start == obj.start
            && Spread(r.value.body.members, low, r.pos - 1) && AllPlaced(env, r.value.body.members)
    decreases |env.doc| - p, 0
  {
    hide ReadMember, ReadPastComments, ReadToken, Decode, Spread, AllPlaced, TokenAt;
    if ReadMembers(env, p, obj, name).ok {
      var t := ReadPastComments(env.doc, p);
      PastCommentsAt(env.doc, p);
      TokenShape(env.doc, t.start);
      if t.kind == ObjectEnd && name == "" {
        SpreadWider(obj.body.members, low, p, t.end - 1);
      } else {
        var colon := ReadToken(env.doc, t.end);
        SpreadWider(obj.body.members, low, p, colon.end);
        MemberPlaces(env, colon.end, obj, Decode(env.doc, t.start + 1, t.end - 1).text, low);
      }
    }
  }

  lemma {:induction false} MemberPlaces(env: Env, p: nat, obj: Value, name: string, low: nat)
    requires p <= |env.doc| && obj.body.Object?
    requires low <= p && Spread(obj.body.members, low, p) && AllPlaced(env, obj.body.members)
    ensures var r := ReadMember(env, p, obj, name);
            r.ok ==>
            && p < r.pos && r.value.start == obj.start
            && Spread(r.value.body.members, low, r.pos - 1) && AllPlaced(env, r.value.body.members)
    decreases |env.doc| - p, 3
  {
    hide *;
    if ReadMember(env, p, obj, name).ok {
      MemberSucceeds(env, p, obj, name);
      var key := Name(CString(name));
      var current := Child(obj.body.members, key);
      var v := ReadValue(env, p, current);
      ReadPlaces(env, p, current);
      PlacedIs(env, v.value, p, v.pos);
      PutSpread(env, obj.body.members, key, v.value, low, p);
      var members := Put(obj.body.members, key, v.value);
      var next := ReadPastComments(env.doc, v.pos);
      if next.kind == ObjectEnd {
        SpreadWider(members, low, v.pos, next.end - 1);
      } else {
        SpreadWider(members, low, v.pos, next.end);
        MembersPlace(env, next.end, obj.(body := Object(members)), name, low);
      }
    }
  }

  lemma {:induction false} ArrayPlaces(env: Env, begin: Token)
    requires begin.end <= |env.doc| && begin.start < begin.end && ReadArray(env, begin).ok
    ensures var r := ReadArray(env, begin);
            && begin.end < r.pos && r.value.start == begin.start
            && Spread(r.value.body.elements, begin.start + 1, r.pos - 1) && AllPlaced(env, r.value.body.elements)
    decreases |env.doc| - begin.end, 4
  {
    hide ReadElements, SkipSpaces;
    var p := SkipSpaces(env.doc, begin.end);
    if At(env.doc, p) != ']' {
      ElementsPlace(env, p, Value(Array(End), begin.start, 0), 0, begin.start + 1);
    }
  }

  lemma {:induction false} ElementsPlace(env: Env, p: nat, arr: Value, index: nat, low: nat)
    requires p <= |env.doc| && arr.body.Array?
    requires low <= p && Spread(arr.body.elements, low, p) && AllPlaced(env, arr.body.elements)
    ensures var r := ReadElements(env, p, arr, index);
            r.ok ==>
            && p < r.pos && r.value.start == arr.start
            && Spread(r.value.body.elements, low, r.pos - 1) && AllPlaced(env, r.value.body.elements)
    decreases |env.doc| - p, 3
  {
    hide *;
    if ReadElements(env, p, arr, index).ok {
      ElementsSucceed(env, p, arr, index);
      var key := Index(index);
      var current := Child(arr.body.elements, key);
      var v := ReadValue(env, p, current);
      ReadPlaces(env, p, current);
      PlacedIs(env, v.value, p, v.pos);
      PutSpread(env, arr.body.elements, key, v.value, low, p);
      var elements := Put(arr.body.elements, key, v.value);
      var t := ReadPastComments(env.doc, v.pos);
      if t.kind == ArrayEnd {
        SpreadWider(elements, low, v.pos, t.end - 1);
      } else {
        SpreadWider(elements, low, v.pos, t.end);
        ElementsPlace(env, t.end, arr.(body := Array(elements)), index + 1, low);
      }
    }
  }

  /** After a successful parse every value lies inside its parent and siblings do
      not overlap; the root ends where reading stopped. */
  lemma ParsePlaces(env: Env, strictRoot: bool, root: Value)
    requires Parse(env, strictRoot, root).ok
    ensures var r := Parse(env, strictRoot, root);
            WellPlaced(env, r.value) && r.value.limit == r.pos <= |env.doc|
  {
    hide ReadValue, WellPlaced;
    ReadPlaces(env, 0, root);
  }

  // ---------- slices ----------

  /** The token with its offsets counted from `a`. */
  function Moved(t: Token, a: nat): Token
    requires a <= t.start <= t.end
  {
    Token(t.kind, t.start - a, t.end - a)
  }

  lemma {:induction false} SpacesInSlice(doc: string, a: nat, b: nat, p: nat)
    requires a <= p <= b <= |doc| && SkipSpaces(doc, p) <= b
    ensures SkipSpaces(doc[a..b], p - a) == SkipSpaces(doc, p) - a
    decreases b - p
  {
    if p < b && IsSpace(doc[p]) {
      SpacesInSlice(doc, a, b, p + 1);
    }
  }

  lemma {:induction false} NumberInSlice(doc: string, a: nat, b: nat, p: nat)
    requires a <= p <= b <= |doc| && ScanNumber(doc, p) <= b
    ensures ScanNumber(doc[a..b], p - a) == ScanNumber(doc, p) - a
    decreases b - p
  {
    if p < b && IsNumberChar(doc[p]) {
      NumberInSlice(doc, a, b, p + 1);
    }
  }

  lemma {:induction false} StringInSlice(doc: string, a: nat, b: nat, p: nat)
    requires a <= p <= b <= |doc| && ScanString(doc, p).pos <= b
    ensures ScanString(doc[a..b], p - a) == Scan(ScanString(doc, p).ok, ScanString(doc, p).pos - a)
    decreases b - p
  {
    if p == |doc| || doc[p] == '"' {
    } else if doc[p] != '\\' {
      StringInSlice(doc, a, b, p + 1);
    } else if p + 1 < |doc| {
      StringInSlice(doc, a, b, p + 2);
    }
  }

  lemma {:induction false} CCommentInSlice(doc: string, a: nat, b: nat, p: nat)
    requires a <= p <= b <= |doc| && ScanCComment(doc, p).pos <= b
    ensures ScanCComment(doc[a..b], p - a) == Scan(ScanCComment(doc, p).ok, ScanCComment(doc, p).pos - a)
    decreases b - p
  {
    if p < |doc| && !(doc[p] == '*' && At(doc, p + 1) == '/') {
      CCommentInSlice(doc, a, b, p + 1);
    }
  }

  lemma {:induction false} CppCommentInSlice(doc: string, a: nat, b: nat, p: nat)
    requires a <= p <= b <= |doc| && ScanCppComment(doc, p) <= b
    ensures ScanCppComment(doc[a..b], p - a) == ScanCppComment(doc, p) - a
    decreases b - p
  {
    if p < b && doc[p] != '\r' && doc[p] != '\n' {
      CppCommentInSlice(doc, a, b, p + 1);
    }
  }

  lemma CommentInSlice(doc: string, a: nat, b: nat, p: nat)
    requires a <= p <= b <= |doc| && ScanComment(doc, p).pos <= b
    ensures ScanComment(doc[a..b], p - a) == Scan(ScanComment(doc, p).ok, ScanComment(doc, p).pos - a)
  {
    if p < |doc| && doc[p] == '*' {
      CCommentInSlice(doc, a, b, p + 1);
    } else if p < |doc| && doc[p] == '/' {
      CppCommentInSlice(doc, a, b, p + 1);
    }
  }

  lemma SliceOfSlice(doc: string, a: nat, b: nat, i: nat, j: nat)
    requires a <= i <= j <= b <= |doc|
    ensures doc[a..b][i - a..j - a] == doc[i..j]
  {
    assert forall k :: 0 <= k < j - i ==> doc[a..b][i - a..j - a][k] == doc[a..b][i - a + k] == doc[i..j][k];
  }

  lemma KeywordInSlice(kind: TokenType, doc: string, a: nat, b: nat, p: nat, rest: string)
    requires a <= p < b <= |doc| && Keyword(kind, doc, p, rest).end <= b
    ensures Keyword(kind, doc[a..b], p - a, rest) == Moved(Keyword(kind, doc, p, rest), a)
  {
    if p + 1 + |rest| <= b {
      SliceOfSlice(doc, a, b, p + 1, p + 1 + |rest|);
    }
  }

  /** A token that ends inside the slice is the same token there. */
  lemma TokenInSlice(doc: string, a: nat, b: nat, p: nat)
    requires a <= p <= b <= |doc| && TokenAt(doc, p).end <= b
    ensures TokenAt(doc[a..b], p - a) == Moved(TokenAt(doc, p), a)
  {
    hide ScanNumber, ScanString, ScanComment, Keyword;
    if p < |doc| {
      var c := doc[p];
      if c == '"' {
        StringInSlice(doc, a, b, p + 1);
      } else if c == '/' {
        CommentInSlice(doc, a, b, p + 1);
      } else if c == 't' {
        KeywordInSlice(TrueToken, doc, a, b, p, "rue");
      } else if c == 'f' {
        KeywordInSlice(FalseToken, doc, a, b, p, "alse");
      } else if c == 'n' {
        KeywordInSlice(NullToken, doc, a, b, p, "ull");
      } else if '0' <= c <= '9' || c == '-' {
        NumberInSlice(doc, a, b, p + 1);
      }
    }
  }

  lemma ReadTokenInSlice(doc: string, a: nat, b: nat, p: nat)
    requires a <= p <= b <= |doc| && ReadToken(doc, p).end <= b
    ensures ReadToken(doc[a..b], p - a) == Moved(ReadToken(doc, p), a)
  {
    hide TokenAt, SkipSpaces;
    SpacesInSlice(doc, a, b, p);
    TokenInSlice(doc, a, b, SkipSpaces(doc, p));
  }

  lemma {:induction false} PastCommentsInSlice(doc: string, a: nat, b: nat, p: nat)
    requires a <= p <= b <= |doc| && ReadPastComments(doc, p).end <= b
    ensures ReadToken(doc, p).end <= ReadPastComments(doc, p).end
    ensures ReadPastComments(doc[a..b], p - a) == Moved(ReadPastComments(doc, p), a)
    decreases |doc| - p
  {
    hide ReadToken;
    var t := ReadToken(doc, p);
    ReadTokenInSlice(doc, a, b, p);
    if t.kind == CommentToken {
      PastCommentsInSlice(doc, a, b, t.end);
    }
  }

  lemma Hex4InSlice(doc: string, a: nat, b: nat, i: nat, end: nat)
    requires a <= i <= end <= b <= |doc|
    ensures DecodeHex4(doc, i, end).Point? ==>
              DecodeHex4(doc[a..b], i - a, end - a) == Point(DecodeHex4(doc, i, end).unicode, i + 4 - a)
  {
    hide HexDigit, Hex4Value;
    if DecodeHex4(doc, i, end).Point? {
      SliceOfSlice(doc, a, b, i, i + 4);
    }
  }

  lemma CodePointInSlice(doc: string, a: nat, b: nat, i: nat, end: nat)
    requires a <= i <= end <= b <= |doc| && DecodeCodePoint(doc, i, end).Point?
    ensures var p := DecodeCodePoint(doc, i, end);
            DecodeCodePoint(doc[a..b], i - a, end - a) == Point(p.unicode, p.next - a)
  {
    hide DecodeHex4;
    var first := DecodeHex4(doc, i, end);
    Hex4InSlice(doc, a, b, i, end);
    if HighSurrogate(first.unicode) {
      Hex4InSlice(doc, a, b, first.next + 2, end);
    }
  }

  lemma {:induction false} DecodeInSlice(doc: string, a: nat, b: nat, i: nat, end: nat)
    requires a <= i <= end <= b <= |doc| && Decode(doc, i, end).Text?
    ensures Decode(doc[a..b], i - a, end - a) == Decode(doc, i, end)
    decreases end - i
  {
    hide DecodeCodePoint, CodePointToUTF8, ShortEscape;
    if i == end || doc[i] == '"' {
    } else if doc[i] != '\\' {
      DecodeInSlice(doc, a, b, i + 1, end);
    } else if doc[i + 1] == 'u' {
      CodePointInSlice(doc, a, b, i + 2, end);
      DecodeInSlice(doc, a, b, DecodeCodePoint(doc, i + 2, end).next, end);
    } else {
      DecodeInSlice(doc, a, b, i + 2, end);
    }
  }

  /** The environment whose document is the slice. */
  function Sliced(env: Env, a: nat, b: nat): Env
    requires a <= b <= |env.doc|
  {
    env.(doc := env.doc[a..b])
  }

  /** `s`, read in the slice, is the outcome `r` of reading in the whole document. */
  predicate SameRead(r: Read, s: Read, a: nat) {
    s.ok && s.pos == r.pos - a && Strip(s.value) == Strip(r.value)
  }

  lemma FirstTokenInSlice(env: Env, a: nat, b: nat, p: nat)
    requires a <= p <= b <= |env.doc| && FirstToken(env, p).end <= b
    ensures FirstToken(Sliced(env, a, b), p - a) == Moved(FirstToken(env, p), a)
  {
    if env.allowComments {
      PastCommentsInSlice(env.doc, a, b, p);
    } else {
      ReadTokenInSlice(env.doc, a, b, p);
    }
  }

  lemma SlicedIs(env: Env, a: nat, b: nat)
    requires a <= b <= |env.doc|
    ensures Sliced(env, a, b).doc == env.doc[a..b] && Sliced(env, a, b).scan == env.scan
  {
  }

  lemma MovedIs(t: Token, a: nat)
    requires a <= t.start <= t.end
    ensures Moved(t, a).kind == t.kind && Moved(t, a).start == t.start - a && Moved(t, a).end == t.end - a
  {
  }

  lemma SameReadIs(r: Read, s: Read, a: nat)
    ensures SameRead(r, s, a) <==> s.ok && s.pos == r.pos - a && Strip(s.value) == Strip(r.value)
  {
    hide Strip;
  }

  lemma SameBody(v: Value, w: Value)
    requires v.body == w.body
    ensures Strip(v) == Strip(w)
  {
    hide StripEntries;
  }

  /** Two containers that are the same but for offsets stay so when their ends are filled in. */
  lemma LimitedSame(r: Read, s: Read, a: nat)
    requires r.ok && SameRead(r, s, a)
    ensures SameRead(Read(r.ok, r.value.(limit := r.pos), r.pos, r.errors),
                     Read(s.ok, s.value.(limit := s.pos), s.pos, s.errors), a)
  {
    hide Strip;
    SameBody(r.value, r.value.(limit := r.pos));
    SameBody(s.value, s.value.(limit := s.pos));
  }

  lemma NumberValueInSlice(env: Env, a: nat, b: nat, p: nat, c: Value, d: Value)
    requires a <= p <= b <= |env.doc| && ReadValue(env, p, c).ok && ReadValue(env, p, c).pos <= b
    requires FirstToken(env, p).kind == NumberToken
    ensures SameRead(ReadValue(env, p, c), ReadValue(Sliced(env, a, b), p - a, d), a)
  {
    hide *;
    var t, slice := FirstToken(env, p), Sliced(env, a, b);
    EndsInside(env, p, c);
    FirstTokenInSlice(env, a, b, p);
    MovedIs(t, a);
    SlicedIs(env, a, b);
    SliceOfSlice(env.doc, a, b, t.start, t.end);
    NumberIs(env, p, c, t);
    NumberIs(slice, p - a, d, Moved(t, a));
    var r, s := ReadValue(env, p, c), ReadValue(slice, p - a, d);
    SameBody(r.value, s.value);
    SameReadIs(r, s, a);
  }

  lemma StringValueInSlice(env: Env, a: nat, b: nat, p: nat, c: Value, d: Value)
    requires a <= p <= b <= |env.doc| && ReadValue(env, p, c).ok && ReadValue(env, p, c).pos <= b
    requires FirstToken(env, p).kind == StringToken
    ensures SameRead(ReadValue(env, p, c), ReadValue(Sliced(env, a, b), p - a, d), a)
  {
    hide *;
    var t, slice := FirstToken(env, p), Sliced(env, a, b);
    EndsInside(env, p, c);
    FirstTokenInSlice(env, a, b, p);
    MovedIs(t, a);
    SlicedIs(env, a, b);
    StringIs(env, p, c, t);
    StringIs(slice, p - a, d, Moved(t, a));
    DecodeInSlice(env.doc, a, b, t.start + 1, t.end - 1);
    var r, s := ReadValue(env, p, c), ReadValue(slice, p - a, d);
    SameBody(r.value, s.value);
    SameReadIs(r, s, a);
  }

  lemma WordInSlice(env: Env, a: nat, b: nat, p: nat, c: Value, d: Value)
    requires a <= p <= b <= |env.doc| && ReadValue(env, p, c).ok && ReadValue(env, p, c).pos <= b
    requires FirstToken(env, p).kind !in {ObjectBegin, ArrayBegin, NumberToken, StringToken}
    ensures SameRead(ReadValue(env, p, c), ReadValue(Sliced(env, a, b), p - a, d), a)
  {
    hide *;
    var t, slice := FirstToken(env, p), Sliced(env, a, b);
    EndsInside(env, p, c);
    FirstTokenInSlice(env, a, b, p);
    MovedIs(t, a);
    SlicedIs(env, a, b);
    WordIs(env, p, c, t);
    WordIs(slice, p - a, d, Moved(t, a));
    var r, s := ReadValue(env, p, c), ReadValue(slice, p - a, d);
    SameBody(r.value, s.value);
    SameReadIs(r, s, a);
  }

  /** Reading a value that ends inside the slice reads the same value there. */
  lemma {:induction false} ValueInSlice(env: Env, a: nat, b: nat, p: nat, c: Value, d: Value)
    requires a <= p <= b <= |env.doc| && ReadValue(env, p, c).ok && ReadValue(env, p, c).pos <= b
    ensures SameRead(ReadValue(env, p, c), ReadValue(Sliced(env, a, b), p - a, d), a)
    decreases |env.doc| - p, 2
  {
    hide *;
    var t, slice := FirstToken(env, p), Sliced(env, a, b);
    match t.kind {
      case ObjectBegin =>
        EndsInside(env, p, c);
        FirstTokenInSlice(env, a, b, p);
        MovedIs(t, a);
        SlicedIs(env, a, b);
        ContainerIs(env, p, c, t);
        ContainerIs(slice, p - a, d, Moved(t, a));
        var obj, twin := Value(Object(End), t.start, 0), Value(Object(End), t.start - a, 0);
        SameBody(obj, twin);
        MembersInSlice(env, a, b, t.end, obj, twin, "");
        LimitedSame(ReadMembers(env, t.end, obj, ""), ReadMembers(slice, t.end - a, twin, ""), a);
      case ArrayBegin =>
        EndsInside(env, p, c);
        FirstTokenInSlice(env, a, b, p);
        MovedIs(t, a);
        SlicedIs(env, a, b);
        ContainerIs(env, p, c, t);
        ContainerIs(slice, p - a, d, Moved(t, a));
        ArrayInSlice(env, a, b, t);
        LimitedSame(ReadArray(env, t), ReadArray(slice, Moved(t, a)), a);
      case NumberToken => NumberValueInSlice(env, a, b, p, c, d);
      case StringToken => StringValueInSlice(env, a, b, p, c, d);
      case _ => WordInSlice(env, a, b, p, c, d);
    }
  }

  lemma EndsInside(env: Env, p: nat, c: Value)
    requires p <= |env.doc| && ReadValue(env, p, c).ok
    ensures FirstToken(env, p).end <= ReadValue(env, p, c).pos
  {
    hide FirstToken, ReadMembers, ReadArray, DecodeNumber, Decode, CString;
  }

  lemma {:induction false} MembersInSlice(
    env: Env, a: nat, b: nat, p: nat, obj: Value, twin: Value, name: string)
    requires a <= p <= b <= |env.doc| && obj.body.Object? && twin.body.Object? && Strip(obj) == Strip(twin)
    requires ReadMembers(env, p, obj, name).ok && ReadMembers(env, p, obj, name).pos <= b
    ensures SameRead(ReadMembers(env, p, obj, name), ReadMembers(Sliced(env, a, b), p - a, twin, name), a)
    decreases |env.doc| - p, 0
  {
    hide *;
    var t, slice := ReadPastComments(env.doc, p), Sliced(env, a, b);
    SlicedIs(env, a, b);
    MembersSucceed(env, p, obj, name);
    PastCommentsInSlice(env.doc, a, b, p);
    MovedIs(t, a);
    if t.kind != StringToken {
      MembersStop(env, p, obj, name, t);
      MembersStop(slice, p - a, twin, name, Moved(t, a));
      SameReadIs(ReadMembers(env, p, obj, name), ReadMembers(slice, p - a, twin, name), a);
    } else {
      var colon := ReadToken(env.doc, t.end);
      NameShape(env, p, t);
      NameShape(slice, p - a, Moved(t, a));
      DecodeInSlice(env.doc, a, b, t.start + 1, t.end - 1);
      ReadTokenInSlice(env.doc, a, b, t.end);
      MovedIs(colon, a);
      var text := Decode(env.doc, t.start + 1, t.end - 1).text;
      MembersNamed(env, p, obj, name, t);
      MembersNamed(slice, p - a, twin, name, Moved(t, a));
      MemberInSlice(env, a, b, colon.end, obj, twin, text);
    }
  }

  lemma PutStrips(m: Entries, n: Entries, key: Key, v: Value, w: Value)
    requires StripEntries(m) == StripEntries(n) && Strip(v) == Strip(w)
    ensures StripEntries(Put(m, key, v)) == StripEntries(Put(n, key, w))
  {
    hide *;
    StripPut(m, key, v);
    StripPut(n, key, w);
  }

  lemma ObjectStrips(obj: Value, twin: Value, key: Key, v: Value, w: Value)
    requires obj.body.Object? && twin.body.Object? && Strip(obj) == Strip(twin) && Strip(v) == Strip(w)
    ensures Strip(obj.(body := Object(Put(obj.body.members, key, v)))) ==
            Strip(twin.(body := Object(Put(twin.body.members, key, w))))
  {
    hide Put, StripEntries;
    PutStrips(obj.body.members, twin.body.members, key, v, w);
  }

  lemma ArrayStrips(arr: Value, twin: Value, key: Key, v: Value, w: Value)
    requires arr.body.Array? && twin.body.Array? && Strip(arr) == Strip(twin) && Strip(v) == Strip(w)
    ensures Strip(arr.(body := Array(Put(arr.body.elements, key, v)))) ==
            Strip(twin.(body := Array(Put(twin.body.elements, key, w))))
  {
    hide Put, StripEntries;
    PutStrips(arr.body.elements, twin.body.elements, key, v, w);
  }

  lemma {:induction false} MemberInSlice(
    env: Env, a: nat, b: nat, p: nat, obj: Value, twin: Value, name: string)
    requires a <= p <= b <= |env.doc| && obj.body.Object? && twin.body.Object? && Strip(obj) == Strip(twin)
    requires ReadMember(env, p, obj, name).ok && ReadMember(env, p, obj, name).pos <= b
    ensures SameRead(ReadMember(env, p, obj, name), ReadMember(Sliced(env, a, b), p - a, twin, name), a)
    decreases |env.doc| - p, 3
  {
    hide *;
    var slice, key := Sliced(env, a, b), Name(CString(name));
    var c, d := Child(obj.body.members, key), Child(twin.body.members, key);
    MemberSucceeds(env, p, obj, name);
    SlicedIs(env, a, b);
    var v, w := ReadValue(env, p, c), ReadValue(slice, p - a, d);
    ValueInSlice(env, a, b, p, c, d);
    SameReadIs(v, w, a);
    ObjectStrips(obj, twin, key, v.value, w.value);
    var token, next := ReadToken(env.doc, v.pos), ReadPastComments(env.doc, v.pos);
    PastCommentsInSlice(env.doc, a, b, v.pos);
    ReadTokenInSlice(env.doc, a, b, v.pos);
    MovedIs(token, a);
    MovedIs(next, a);
    MemberIs(slice, p - a, twin, name);
    var grown := obj.(body := Object(Put(obj.body.members, key, v.value)));
    var twinGrown := twin.(body := Object(Put(twin.body.members, key, w.value)));
    if next.kind != ObjectEnd {
      MembersInSlice(env, a, b, next.end, grown, twinGrown, name);
    } else {
      SameReadIs(ReadMember(env, p, obj, name), ReadMember(slice, p - a, twin, name), a);
    }
  }

  lemma {:induction false} ArrayInSlice(env: Env, a: nat, b: nat, begin: Token)
    requires a <= begin.start < begin.end <= b <= |env.doc|
    requires ReadArray(env, begin).ok && ReadArray(env, begin).pos <= b
    ensures SameRead(ReadArray(env, begin), ReadArray(Sliced(env, a, b), Moved(begin, a)), a)
    decreases |env.doc| - begin.end, 4
  {
    hide ReadElements, SkipSpaces;
    var p := SkipSpaces(env.doc, begin.end);
    SpacesInSlice(env.doc, a, b, begin.end);
    if At(env.doc, p) != ']' {
      var arr := Value(Array(End), begin.start, 0);
      ElementsInSlice(env, a, b, p, arr, arr.(start := begin.start - a), 0);
    }
  }

  lemma {:induction false} ElementsInSlice(
    env: Env, a: nat, b: nat, p: nat, arr: Value, twin: Value, index: nat)
    requires a <= p <= b <= |env.doc| && arr.body.Array? && twin.body.Array? && Strip(arr) == Strip(twin)
    requires ReadElements(env, p, arr, index).ok && ReadElements(env, p, arr, index).pos <= b
    ensures SameRead(ReadElements(env, p, arr, index), ReadElements(Sliced(env, a, b), p - a, twin, index), a)
    decreases |env.doc| - p, 3
  {
    hide *;
    var slice, key := Sliced(env, a, b), Index(index);
    var c, d := Child(arr.body.elements, key), Child(twin.body.elements, key);
    ElementsSucceed(env, p, arr, index);
    SlicedIs(env, a, b);
    var v, w := ReadValue(env, p, c), ReadValue(slice, p - a, d);
    ValueInSlice(env, a, b, p, c, d);
    SameReadIs(v, w, a);
    ArrayStrips(arr, twin, key, v.value, w.value);
    var t := ReadPastComments(env.doc, v.pos);
    PastCommentsInSlice(env.doc, a, b, v.pos);
    MovedIs(t, a);
    ElementsIs(slice, p - a, twin, index);
    var grown := arr.(body := Array(Put(arr.body.elements, key, v.value)));
    var twinGrown := twin.(body := Array(Put(twin.body.elements, key, w.value)));
    if t.kind != ArrayEnd {
      ElementsInSlice(env, a, b, t.end, grown, twinGrown, index + 1);
    } else {
      SameReadIs(ReadElements(env, p, arr, index), ReadElements(slice, p - a, twin, index), a);
    }
  }

  /** `w` is `v` or stands somewhere inside it. */
  predicate Within(w: Value, v: Value)
    decreases v
  {
    || w == v
    || (v.body.Array? && WithinEntries(w, v.body.elements))
    || (v.body.Object? && WithinEntries(w, v.body.members))
  }

  predicate WithinEntries(w: Value, m: Entries)
    decreases m
  {
    m.Entry? && (Within(w, m.value) || WithinEntries(w, m.rest))
  }

  lemma {:induction false} WithinOccurs(env: Env, w: Value, v: Value)
    requires WellPlaced(env, v) && Within(w, v)
    ensures Occurs(env, w) && v.start <= w.start && w.limit <= v.limit
    decreases v
  {
    hide Occurs;
    if w != v {
      EntriesOccur(env, w, Elements(v), v.start + 1, v.limit - 1);
    }
  }

  lemma {:induction false} EntriesOccur(env: Env, w: Value, m: Entries, low: nat, high: nat)
    requires AllPlaced(env, m) && Spread(m, low, high) && WithinEntries(w, m)
    ensures Occurs(env, w) && low <= w.start && w.limit <= high
    decreases m
  {
    hide Occurs;
    if Within(w, m.value) {
      WithinOccurs(env, w, m.value);
    } else {
      EntriesOccur(env, w, m.rest, low, high);
    }
  }

  /** For every value of a parsed document, the slice of the document it occupies,
      parsed alone, is that value, offsets aside. */
  lemma SliceIsDocument(env: Env, strictRoot: bool, root: Value, w: Value, blank: Value)
    requires Parse(env, strictRoot, root).ok && Within(w, Parse(env, strictRoot, root).value)
    ensures w.start < w.limit <= Parse(env, strictRoot, root).pos <= |env.doc|
    ensures var alone := Parse(Sliced(env, w.start, w.limit), false, blank);
            alone.ok && alone.pos == w.limit - w.start && Strip(alone.value) == Strip(w)
  {
    hide ReadValue, WellPlaced, Within, Strip;
    ParsePlaces(env, strictRoot, root);
    WithinOccurs(env, w, Parse(env, strictRoot, root).value);
    ValueInSlice(env, w.start, w.limit, w.start, Plain(Null), blank);
  }
}
