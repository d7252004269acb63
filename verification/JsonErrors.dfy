/** What the errors of the reader mean: each says of the token it names, and of the
    place in it, what makes the document no text the reader takes. */
module JsonErrors {
  import opened CStrings
  import opened Optional
  import opened JsonValue
  import opened JsonText
  import opened JsonScan
  import opened JsonNumber
  import opened JsonSyntax
  import opened JsonParse
  import opened JsonSteps
  import opened JsonGaps

  /** An escape of a high surrogate ends at `at`. */
  predicate HighEscapeEnds(doc: string, at: nat) {
    && 6 <= at <= |doc| && doc[at - 6] == '\\' && doc[at - 5] == 'u'
    && IsHex4(doc[at - 4..at]) && Leading(Hex4Value(doc[at - 4..at]))
  }

  /** What stands at the place an error in a string ending at `end` points to. */
  predicate BadAt(doc: string, kind: ErrorKind, at: nat, end: nat) {
    && 1 <= at <= end <= |doc|
    && match kind
       case EmptyEscape => at == end && doc[at - 1] == '\\'
       case BadEscape => at >= 2 && doc[at - 2] == '\\' && doc[at - 1] != 'u' && Escaped(doc[at - 1]) == 0
       case FourDigitsExpected => at >= 2 && doc[at - 2] == '\\' && doc[at - 1] == 'u' && end - at < 4
       case HexDigitExpected => DigitsEscape(doc, at)
       case SurrogateTooShort => HighEscapeEnds(doc, at) && end - at < 6
       case SurrogateExpected =>
         || (HighEscapeEnds(doc, at - 1) && doc[at - 1] != '\\')
         || (at >= 2 && HighEscapeEnds(doc, at - 2) && doc[at - 2] == '\\' && doc[at - 1] != 'u')
       case _ => false
  }

  /** The character before `at` is the first of up to four behind \u that is no digit. */
  predicate DigitsEscape(doc: string, at: nat)
    requires at <= |doc|
  {
    exists k :: 1 <= k <= 4 && DigitsThenNone(doc, at, k)
  }

  predicate DigitsThenNone(doc: string, at: nat, k: nat)
    requires at <= |doc|
  {
    && k + 2 <= at && doc[at - k - 2] == '\\' && doc[at - k - 1] == 'u'
    && (forall i :: at - k <= i < at - 1 ==> HexDigit(doc[i]) >= 0)
    && k > 0 && HexDigit(doc[at - 1]) < 0
  }

  /** The error says what is wrong with its token. */
  predicate Justified(env: Env, e: Error) {
    var t := e.token;
    && t.start <= t.end <= |env.doc|
    && (e.kind == RootNotContainer ==> t == Token(ErrorToken, 0, |env.doc|))
    && (e.kind != RootNotContainer ==> t == TokenAt(env.doc, t.start))
    && match e.kind
       case ValueExpected =>
         t.kind !in {ObjectBegin, ArrayBegin, StringToken, NumberToken, TrueToken, FalseToken, NullToken}
       case MissingColon => t.kind != MemberSeparator
       case MissingCommaOrBrace => t.kind !in {ArraySeparator, ObjectEnd, CommentToken}
       case MissingBraceOrName => t.kind !in {StringToken, CommentToken}
       case MissingCommaOrBracket => t.kind !in {ArraySeparator, ArrayEnd, CommentToken}
       case NotANumber => t.kind == NumberToken && env.scan(env.doc[t.start..t.end]).None?
       case RootNotContainer => true
       case _ => t.kind == StringToken && t.end > 0 && e.extra.Some? && BadAt(env.doc, e.kind, e.extra.value, t.end - 1)
  }

  // ---------- strings ----------

  lemma HexJustified(doc: string, i: nat, end: nat)
    requires 2 <= i <= end <= |doc| && doc[i - 2] == '\\' && doc[i - 1] == 'u'
    ensures var r := DecodeHex4(doc, i, end);
            && (r.BadPoint? ==> BadAt(doc, r.kind, r.at, end))
            && (r.Point? ==> i + 4 <= end && r.next == i + 4 && IsHex4(doc[i..i + 4]) && r.unicode == Hex4Value(doc[i..i + 4]))
  {
    hide HexDigit;
    var r := DecodeHex4(doc, i, end);
    if r.BadPoint? && r.kind == HexDigitExpected {
      assert DigitsThenNone(doc, r.at, r.at - i);
    }
  }

  lemma HighEnds(doc: string, i: nat)
    requires 2 <= i && i + 4 <= |doc| && doc[i - 2] == '\\' && doc[i - 1] == 'u'
    requires IsHex4(doc[i..i + 4]) && HighSurrogate(Hex4Value(doc[i..i + 4]))
    ensures HighEscapeEnds(doc, i + 4)
  {
    hide IsHex4, Hex4Value;
  }

  /** The errors about what follows a high surrogate. */
  lemma SurrogateJustified(doc: string, at: nat, end: nat)
    requires HighEscapeEnds(doc, at) && at <= end <= |doc|
    ensures end - at < 6 ==> BadAt(doc, SurrogateTooShort, at, end)
    ensures end - at >= 6 && doc[at] != '\\' ==> BadAt(doc, SurrogateExpected, at + 1, end)
    ensures end - at >= 6 && doc[at] == '\\' && doc[at + 1] != 'u' ==> BadAt(doc, SurrogateExpected, at + 2, end)
  {
    HighEnough(doc, at);
    hide HighEscapeEnds;
  }

  lemma HighEnough(doc: string, at: nat)
    requires HighEscapeEnds(doc, at)
    ensures 6 <= at <= |doc|
  {
  }

  lemma PointJustified(doc: string, i: nat, end: nat)
    requires 2 <= i <= end <= |doc| && doc[i - 2] == '\\' && doc[i - 1] == 'u'
    ensures var r := DecodeCodePoint(doc, i, end); r.BadPoint? ==> BadAt(doc, r.kind, r.at, end)
  {
    hide DecodeHex4, Hex4Value, IsHex4, HighEscapeEnds, HighSurrogate, BadAt;
    HexJustified(doc, i, end);
    var first := DecodeHex4(doc, i, end);
    if first.Point? && HighSurrogate(first.unicode) {
      HighEnds(doc, i);
      SurrogateJustified(doc, i + 4, end);
      if end - first.next >= 6 && doc[first.next] == '\\' && doc[first.next + 1] == 'u' {
        HexJustified(doc, first.next + 2, end);
      }
    }
  }

  lemma {:induction false} DecodeJustified(doc: string, i: nat, end: nat)
    requires i <= end <= |doc|
    ensures var d := Decode(doc, i, end); d.Bad? ==> BadAt(doc, d.kind, d.at, end)
    decreases end - i
  {
    hide DecodeCodePoint, CodePointToUTF8;
    if i < end && doc[i] != '"' {
      if doc[i] != '\\' {
        DecodeJustified(doc, i + 1, end);
      } else if i + 1 < end {
        if doc[i + 1] == 'u' {
          PointJustified(doc, i + 2, end);
          var p := DecodeCodePoint(doc, i + 2, end);
          if p.Point? {
            DecodeJustified(doc, p.next, end);
          }
        } else if ShortEscape(doc[i + 1]).Some? {
          DecodeJustified(doc, i + 2, end);
        }
      }
    }
  }

  // ---------- values ----------

  predicate AllJustified(env: Env, r: Read) {
    forall e :: e in r.errors ==> Justified(env, e) && e.kind != RootNotContainer
  }

  lemma OneJustified(env: Env, r: Read, e: Error)
    requires r.errors == [e] && Justified(env, e) && e.kind != RootNotContainer
    ensures AllJustified(env, r)
  {
  }

  lemma NoneJustified(env: Env, r: Read)
    requires r.errors == []
    ensures AllJustified(env, r)
  {
  }

  lemma SameJustified(env: Env, r: Read, n: Read)
    requires r.errors == n.errors && AllJustified(env, n)
    ensures AllJustified(env, r)
  {
  }

  lemma PastCommentsToken(doc: string, p: nat)
    requires p <= |doc|
    ensures var t := ReadPastComments(doc, p);
            t.start <= t.end <= |doc| && t == TokenAt(doc, t.start) && t.kind != CommentToken
  {
    hide TokenAt, ReadPastComments;
    PastCommentsAt(doc, p);
  }

  lemma NextToken(doc: string, p: nat)
    requires p <= |doc|
    ensures var t := ReadToken(doc, p); t.start <= t.end <= |doc| && t == TokenAt(doc, t.start)
  {
    hide TokenAt;
    ReadTokenIs(doc, p);
  }

  lemma FailIs(env: Env, v: Value, t: Token, until: TokenType, kind: ErrorKind)
    requires t.start <= t.end <= |env.doc| && t == TokenAt(env.doc, t.start)
    requires Justified(env, Error(kind, t, None)) && kind != RootNotContainer
    ensures AllJustified(env, Fail(env.doc, v, t, until, kind))
  {
    hide Justified, Recover;
  }

  lemma StringJustified(env: Env, t: Token)
    requires t.start + 2 <= t.end <= |env.doc| && t == TokenAt(env.doc, t.start) && t.kind == StringToken
    ensures var d := Decode(env.doc, t.start + 1, t.end - 1);
            d.Bad? ==> Justified(env, Error(d.kind, t, Some(d.at))) && d.kind != RootNotContainer
  {
    hide TokenAt, BadAt, Decode;
    DecodeJustified(env.doc, t.start + 1, t.end - 1);
    var d := Decode(env.doc, t.start + 1, t.end - 1);
    if d.Bad? {
      StringKinds(env.doc, d.kind, d.at, t.end - 1);
    }
  }

  lemma StringKinds(doc: string, kind: ErrorKind, at: nat, end: nat)
    requires BadAt(doc, kind, at, end)
    ensures kind in {EmptyEscape, BadEscape, FourDigitsExpected, HexDigitExpected, SurrogateTooShort, SurrogateExpected}
  {
  }

  lemma NumberJustified(env: Env, t: Token)
    requires t.start <= t.end <= |env.doc| && t == TokenAt(env.doc, t.start) && t.kind == NumberToken
    requires NumberText(env.doc[t.start..t.end]) && DecodeNumber(env.doc[t.start..t.end], env.scan).None?
    ensures Justified(env, Error(NotANumber, t, None))
  {
    hide TokenAt, NumberText, IsDouble;
  }

  lemma {:induction false} ValueJustified(env: Env, p: nat, current: Value)
    requires p <= |env.doc|
    ensures AllJustified(env, ReadValue(env, p, current))
    decreases |env.doc| - p, 2
  {
    hide *;
    var t := FirstToken(env, p);
    var r := ReadValue(env, p, current);
    FirstTokenAt(env, p);
    TokenInside(env, p);
    match t.kind {
      case ObjectBegin =>
        ContainerIs(env, p, current, t);
        MembersJustified(env, t.end, Value(Object(End), t.start, 0), "");
        SameJustified(env, r, ReadMembers(env, t.end, Value(Object(End), t.start, 0), ""));
      case ArrayBegin =>
        ContainerIs(env, p, current, t);
        ArrayJustified(env, t);
        SameJustified(env, r, ReadArray(env, t));
      case NumberToken =>
        NumberIs(env, p, current, t);
        if DecodeNumber(env.doc[t.start..t.end], env.scan).None? {
          NumberJustified(env, t);
          OneJustified(env, r, Error(NotANumber, t, None));
        } else {
          NoneJustified(env, r);
        }
      case StringToken =>
        StringIs(env, p, current, t);
        StringJustified(env, t);
        var d := Decode(env.doc, t.start + 1, t.end - 1);
        if d.Bad? {
          OneJustified(env, r, Error(d.kind, t, Some(d.at)));
        } else {
          NoneJustified(env, r);
        }
      case TrueToken =>
        WordIs(env, p, current, t);
        NoneJustified(env, r);
      case FalseToken =>
        WordIs(env, p, current, t);
        NoneJustified(env, r);
      case NullToken =>
        WordIs(env, p, current, t);
        NoneJustified(env, r);
      case _ =>
        WordIs(env, p, current, t);
        ExpectedJustified(env, t);
        OneJustified(env, r, Error(ValueExpected, t, None));
    }
  }

  lemma TokenInside(env: Env, p: nat)
    requires p <= |env.doc|
    ensures var t := FirstToken(env, p);
            && p <= t.start <= t.end <= |env.doc| && (t.kind != EndOfStream ==> p < t.end)
  {
    hide FirstToken;
  }

  lemma ExpectedJustified(env: Env, t: Token)
    requires t.start <= t.end <= |env.doc| && t == TokenAt(env.doc, t.start)
    requires t.kind !in {ObjectBegin, ArrayBegin, StringToken, NumberToken, TrueToken, FalseToken, NullToken}
    ensures Justified(env, Error(ValueExpected, t, None))
  {
    hide TokenAt;
  }

  /** The errors about a token that is not the one expected. */
  lemma MissingJustified(env: Env, t: Token)
    requires t.start <= t.end <= |env.doc| && t == TokenAt(env.doc, t.start)
    ensures t.kind != MemberSeparator ==> Justified(env, Error(MissingColon, t, None))
    ensures t.kind !in {ArraySeparator, ObjectEnd, CommentToken} ==> Justified(env, Error(MissingCommaOrBrace, t, None))
    ensures t.kind !in {StringToken, CommentToken} ==> Justified(env, Error(MissingBraceOrName, t, None))
    ensures t.kind !in {ArraySeparator, ArrayEnd, CommentToken} ==> Justified(env, Error(MissingCommaOrBracket, t, None))
  {
    hide TokenAt;
  }

  lemma {:induction false} MembersJustified(env: Env, p: nat, obj: Value, name: string)
    requires p <= |env.doc| && obj.body.Object?
    ensures AllJustified(env, ReadMembers(env, p, obj, name))
    decreases |env.doc| - p, 0
  {
    hide *;
    var t := ReadPastComments(env.doc, p);
    var r := ReadMembers(env, p, obj, name);
    PastCommentsToken(env.doc, p);
    MissingJustified(env, t);
    if t.kind != StringToken {
      MembersStop(env, p, obj, name, t);
      if t.kind == ObjectEnd && name == "" {
        NoneJustified(env, r);
      } else {
        OneJustified(env, r, Error(MissingBraceOrName, t, None));
      }
    } else {
      NameShape(env, p, t);
      PastCommentsInside(env, p);
      var d := Decode(env.doc, t.start + 1, t.end - 1);
      if d.Bad? {
        MembersBadName(env, p, obj, name, t);
        StringJustified(env, t);
        OneJustified(env, r, Error(d.kind, t, Some(d.at)));
      } else {
        MembersNamed(env, p, obj, name, t);
        var colon := ReadToken(env.doc, t.end);
        NextToken(env.doc, t.end);
        MissingJustified(env, colon);
        if colon.kind == MemberSeparator {
          TokenLater(env.doc, t.end);
          MemberJustified(env, colon.end, obj, d.text);
          SameJustified(env, r, ReadMember(env, colon.end, obj, d.text));
        } else {
          OneJustified(env, r, Error(MissingColon, colon, None));
        }
      }
    }
  }

  lemma PastCommentsInside(env: Env, p: nat)
    requires p <= |env.doc|
    ensures var t := ReadPastComments(env.doc, p); p <= t.start && t.end <= |env.doc|
  {
    hide ReadPastComments;
  }

  lemma TokenLater(doc: string, p: nat)
    requires p <= |doc|
    ensures var t := ReadToken(doc, p); p <= t.end <= |doc|
  {
    hide ReadToken;
  }

  lemma {:induction false} MemberJustified(env: Env, p: nat, obj: Value, name: string)
    requires p <= |env.doc| && obj.body.Object?
    ensures AllJustified(env, ReadMember(env, p, obj, name))
    decreases |env.doc| - p, 3
  {
    hide *;
    MemberIs(env, p, obj, name);
    var key := Name(CString(name));
    var current := Child(obj.body.members, key);
    var v := ReadValue(env, p, current);
    var grown := obj.(body := Object(Put(obj.body.members, key, v.value)));
    var r := ReadMember(env, p, obj, name);
    ValueJustified(env, p, current);
    if !v.ok {
      SameJustified(env, r, v);
    } else {
      ReadOn(env, p, current);
      var comma, next := ReadToken(env.doc, v.pos), ReadPastComments(env.doc, v.pos);
      NextToken(env.doc, v.pos);
      EndsMemberIs(comma.kind);
      if !EndsMember(comma.kind) {
        MissingJustified(env, comma);
        FailIs(env, grown, comma, ObjectEnd, MissingCommaOrBrace);
      } else if next.kind == ObjectEnd {
        NoneJustified(env, r);
      } else {
        PastCommentsInside(env, v.pos);
        PastCommentsToken(env.doc, v.pos);
        NextEnds(env, v.pos, grown, name);
        MembersJustified(env, next.end, grown, name);
      }
    }
  }

  lemma {:induction false} ArrayJustified(env: Env, begin: Token)
    requires begin.end <= |env.doc|
    ensures AllJustified(env, ReadArray(env, begin))
    decreases |env.doc| - begin.end, 4
  {
    hide *;
    ArrayBegins(env, begin);
    var p := SkipSpaces(env.doc, begin.end);
    var arr := Value(Array(End), begin.start, 0);
    if At(env.doc, p) == ']' {
      NoneJustified(env, ReadArray(env, begin));
    } else {
      SpacesInside(env.doc, begin.end);
      ElementsJustified(env, p, arr, 0);
    }
  }

  lemma SpacesInside(doc: string, p: nat)
    requires p <= |doc|
    ensures p <= SkipSpaces(doc, p) <= |doc|
  {
    hide SkipSpaces;
  }

  lemma {:induction false} ElementsJustified(env: Env, p: nat, arr: Value, index: nat)
    requires p <= |env.doc| && arr.body.Array?
    ensures AllJustified(env, ReadElements(env, p, arr, index))
    decreases |env.doc| - p, 3
  {
    hide *;
    ElementsIs(env, p, arr, index);
    var current := Child(arr.body.elements, Index(index));
    var v := ReadValue(env, p, current);
    var grown := arr.(body := Array(Put(arr.body.elements, Index(index), v.value)));
    var r := ReadElements(env, p, arr, index);
    ValueJustified(env, p, current);
    if !v.ok {
      SameJustified(env, r, v);
    } else {
      ReadOn(env, p, current);
      var t := ReadPastComments(env.doc, v.pos);
      PastCommentsToken(env.doc, v.pos);
      PastCommentsInside(env, v.pos);
      if t.kind == ArrayEnd {
        NoneJustified(env, r);
      } else if t.kind == ArraySeparator {
        ElementsJustified(env, t.end, grown, index + 1);
      } else {
        MissingJustified(env, t);
        FailIs(env, grown, t, ArrayEnd, MissingCommaOrBracket);
      }
    }
  }

  /** Every error of a parse says what is wrong at its token and place; the one about the
      root is there exactly when strict root asks for an array or object in vain. */
  lemma ErrorsJustified(env: Env, strictRoot: bool, root: Value)
    ensures var r := Parse(env, strictRoot, root);
            && (forall e :: e in r.errors ==> Justified(env, e))
            && ((exists e :: e in r.errors && e.kind == RootNotContainer) <==>
                strictRoot && !r.value.body.Array? && !r.value.body.Object?)
  {
    hide ReadValue;
    ValueJustified(env, 0, root);
    var all := Parse(env, strictRoot, root).errors;
    var own := ReadValue(env, 0, root).errors;
    if all != own {
      assert all[|own|] in all;
    }
  }
}
