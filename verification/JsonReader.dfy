/** The JSON reader as the library implements it: a cursor moving over the
    document, a stack of values under construction and a list of errors. */
module JsonReader {
  import opened CStrings
  import opened Optional
  import opened Decimal
  import opened JsonValue
  import opened JsonText
  import opened JsonScan
  import opened JsonNumber
  import opened JsonParse
  import opened JsonSteps

  class Reader {
    const allowComments: bool
    const strictRoot: bool
    const scan: string -> Option<real>
    var document: string
    var current: nat
    var nodes: seq<Value>
    var errors: seq<Error>

    constructor (allowComments: bool, strictRoot: bool, scan: string -> Option<real>)
      ensures Valid() && this.allowComments == allowComments && this.strictRoot == strictRoot && this.scan == scan
    {
      this.allowComments, this.strictRoot, this.scan := allowComments, strictRoot, scan;
      document, current, nodes, errors := "", 0, [], [];
    }

    /** The cursor never leaves the document. */
    ghost predicate Valid()
      reads this`document, this`current
    {
      current <= |document|
    }

    ghost function Source(): (env: Env)
      reads this`document
      ensures env.doc == document && env.allowComments == allowComments && env.scan == scan
    {
      Env(document, allowComments, scan)
    }

    // ---------- characters ----------

    method GetNextChar() returns (c: char)
      requires Valid()
      modifies this`current
      ensures Valid() && c == At(document, old(current))
      ensures current == if old(current) == |document| then old(current) else old(current) + 1
    {
      if current == |document| {
        return '\0';
      }
      c := document[current];
      current := current + 1;
    }

    method SkipSpace()
      requires Valid()
      modifies this`current
      ensures Valid() && current == SkipSpaces(document, old(current))
    {
      while current != |document|
        invariant Valid() && SkipSpaces(document, current) == SkipSpaces(document, old(current))
        decreases |document| - current
      {
        var c := document[current];
        if IsSpace(c) {
          current := current + 1;
        } else {
          break;
        }
      }
    }

    method MatchPattern(pattern: string) returns (ok: bool)
      requires Valid()
      modifies this`current
      ensures Valid() && ok == Match(document, old(current), pattern)
      ensures current == if ok then old(current) + |pattern| else old(current)
    {
      if |document| - current < |pattern| {
        return false;
      }
      var index := |pattern|;
      while index > 0
        invariant 0 <= index <= |pattern| && current == old(current) && current + |pattern| <= |document|
        invariant forall i :: index <= i < |pattern| ==> document[current + i] == pattern[i]
      {
        index := index - 1;
        if document[current + index] != pattern[index] {
          assert document[current..current + |pattern|][index] != pattern[index];
          return false;
        }
      }
      current := current + |pattern|;
      return true;
    }

    method ReadCStyleComment() returns (ok: bool)
      requires Valid()
      modifies this`current
      ensures Valid() && Scan(ok, current) == ScanCComment(document, old(current))
    {
      while current != |document|
        invariant Valid() && ScanCComment(document, current) == ScanCComment(document, old(current))
        decreases |document| - current
      {
        var c := GetNextChar();
        if c == '*' && At(document, current) == '/' {
          assert ScanCComment(document, current - 1) == Scan(true, current + 1);
          break;
        }
      }
      var d := GetNextChar();
      ok := d == '/';
    }

    method ReadCppStyleComment() returns (ok: bool)
      requires Valid()
      modifies this`current
      ensures Valid() && ok && current == ScanCppComment(document, old(current))
    {
      while current != |document|
        invariant Valid() && ScanCppComment(document, current) == ScanCppComment(document, old(current))
        decreases |document| - current
      {
        var c := GetNextChar();
        if c == '\r' || c == '\n' {
          assert ScanCppComment(document, current - 1) == current;
          return true;
        }
      }
      return true;
    }

    method ReadComment() returns (ok: bool)
      requires Valid()
      modifies this`current
      ensures Valid() && Scan(ok, current) == ScanComment(document, old(current))
    {
      var c := GetNextChar();
      ok := false;
      if c == '*' {
        ok := ReadCStyleComment();
      } else if c == '/' {
        ok := ReadCppStyleComment();
      }
    }

    method ReadNumber()
      requires Valid()
      modifies this`current
      ensures Valid() && current == ScanNumber(document, old(current))
    {
      while current != |document|
        invariant Valid() && ScanNumber(document, current) == ScanNumber(document, old(current))
        decreases |document| - current
      {
        if !IsNumberChar(document[current]) {
          break;
        }
        current := current + 1;
      }
    }

    method ReadString() returns (ok: bool)
      requires Valid()
      modifies this`current
      ensures Valid() && Scan(ok, current) == ScanString(document, old(current))
    {
      var c := '\0';
      while current != |document|
        invariant Valid() && c != '"' && ScanString(document, current) == ScanString(document, old(current))
        decreases |document| - current
      {
        c := GetNextChar();
        if c == '\\' {
          var skipped := GetNextChar();
        } else if c == '"' {
          assert ScanString(document, current - 1) == Scan(true, current);
          return true;
        }
      }
      return c == '"';
    }

    // ---------- tokens ----------

    method NextToken() returns (token: Token)
      requires Valid()
      modifies this`current
      ensures Valid() && token == ReadToken(document, old(current)) && current == token.end
    {
      hide SkipSpaces, ScanString, ScanComment, ScanNumber;
      SkipSpace();
      var start := current;
      var kind := ErrorToken;
      var c := GetNextChar();
      var ok := true;
      match c {
        case '{' => kind := ObjectBegin;
        case '}' => kind := ObjectEnd;
        case '[' => kind := ArrayBegin;
        case ']' => kind := ArrayEnd;
        case '"' =>
          kind := StringToken;
          ok := ReadString();
        case '/' =>
          kind := CommentToken;
          ok := ReadComment();
        case 't' =>
          kind := TrueToken;
          ok := MatchPattern("rue");
        case 'f' =>
          kind := FalseToken;
          ok := MatchPattern("alse");
        case 'n' =>
          kind := NullToken;
          ok := MatchPattern("ull");
        case ',' => kind := ArraySeparator;
        case ':' => kind := MemberSeparator;
        case '\0' => kind := EndOfStream;
        case _ =>
          if '0' <= c <= '9' || c == '-' {
            kind := NumberToken;
            ReadNumber();
          } else {
            ok := false;
          }
      }
      if !ok {
        kind := ErrorToken;
      }
      token := Token(kind, start, current);
    }

    /** The comment-skipping loop that follows a first token. */
    method SkipCommentsFrom(first: Token) returns (token: Token)
      requires Valid() && current == first.end
      modifies this`current
      ensures Valid() && current == token.end
      ensures token == if first.kind == CommentToken then ReadPastComments(document, first.end) else first
    {
      hide ReadToken;
      token := first;
      while token.kind == CommentToken
        invariant Valid() && current == token.end
        invariant token.kind == CommentToken ==>
                    first.kind == CommentToken &&
                    ReadPastComments(document, token.end) == ReadPastComments(document, first.end)
        invariant token.kind != CommentToken ==>
                    token == if first.kind == CommentToken then ReadPastComments(document, first.end) else first
        decreases |document| - current, token.kind == CommentToken
      {
        token := NextToken();
      }
    }

    method SkipCommentTokens() returns (token: Token)
      requires Valid()
      modifies this`current
      ensures Valid() && token == FirstToken(Source(), old(current)) && current == token.end
    {
      token := NextToken();
      if allowComments {
        token := SkipCommentsFrom(token);
      }
    }

    // ---------- errors ----------

    method AddError(kind: ErrorKind, token: Token, extra: Option<nat>) returns (ok: bool)
      modifies this`errors
      ensures !ok && errors == old(errors) + [Error(kind, token, extra)]
    {
      errors := errors + [Error(kind, token, extra)];
      return false;
    }

    method RecoverFromError(until: TokenType) returns (ok: bool)
      requires Valid()
      modifies this`current
      ensures Valid() && !ok && current == Recover(document, old(current), until)
    {
      hide ReadToken;
      var skip := NextToken();
      while skip.kind != until && skip.kind != EndOfStream
        invariant Valid() && current == skip.end
        invariant Recover(document, old(current), until) ==
                  if skip.kind == until || skip.kind == EndOfStream then skip.end else Recover(document, skip.end, until)
        decreases |document| - current, skip.kind != EndOfStream
      {
        skip := NextToken();
      }
      return false;
    }

    method AddErrorAndRecover(kind: ErrorKind, token: Token, until: TokenType) returns (ok: bool)
      requires Valid()
      modifies this`current, this`errors
      ensures Valid() && !ok && current == Recover(document, old(current), until)
      ensures errors == old(errors) + [Error(kind, token, None)]
    {
      ok := AddError(kind, token, None);
      ok := RecoverFromError(until);
    }

    // ---------- numbers and strings ----------

    method DecodeDoubleToken(token: Token) returns (ok: bool, decoded: Body)
      requires token.start <= token.end <= |document|
      modifies this`errors
      ensures var r := DecodeDouble(document[token.start..token.end], scan);
              && ok == r.Some? && (ok ==> decoded == r.value)
              && errors == if ok then old(errors) else old(errors) + [Error(NotANumber, token, None)]
    {
      decoded := Null;
      match scan(document[token.start..token.end]) {
        case None => ok := AddError(NotANumber, token, None);
        case Some(value) => ok, decoded := true, Real(value);
      }
    }

    /** Conversion to a signed 64-bit integer. */
    static function ToInt64(value: nat): int {
      if value > MAX_INT64 then value - 0x1_0000_0000_0000_0000 else value
    }

    method DecodeNumberToken(token: Token) returns (ok: bool, decoded: Body)
      requires token.start < token.end <= |document| && NumberText(document[token.start..token.end])
      modifies this`errors
      ensures var r := DecodeNumber(document[token.start..token.end], scan);
              && ok == r.Some? && (ok ==> decoded == r.value)
              && errors == if ok then old(errors) else old(errors) + [Error(NotANumber, token, None)]
    {
      hide ValueOf, DecodeDouble, NumberText, IsDouble;
      ghost var text := document[token.start..token.end];
      var isDouble := IsDoubleToken(token);
      if isDouble {
        ok, decoded := DecodeDoubleToken(token);
        return;
      }
      IntegerText(text);
      NumberStart(text);
      ghost var digits := Magnitude(text);
      var cur := token.start;
      var isNegative := document[cur] == '-';
      if isNegative {
        cur := cur + 1;
      }
      ghost var first, k := cur, 0;
      assert digits == document[first..token.end];
      var maxIntegerValue := if isNegative then Limit(true) else Limit(false);
      var threshold := maxIntegerValue / 10;
      var value: nat := 0;
      assert digits[..0] == "";
      NumberStart(text);
      while cur < token.end
        invariant cur == first + k && k <= |digits|
        invariant value == ValueOf(digits[..k]) && value <= maxIntegerValue
        invariant errors == old(errors)
      {
        var c := document[cur];
        assert c == digits[k];
        NextDigit(digits, k);
        cur := cur + 1;
        var digit := c as int - '0' as int;
        if value >= threshold {
          if value > threshold || cur != token.end || digit > maxIntegerValue % 10 {
            TooLarge(digits, k, maxIntegerValue);
            ok, decoded := DecodeDoubleToken(token);
            return;
          }
        }
        Fits(value, digit, maxIntegerValue);
        value := value * 10 + digit;
        k := k + 1;
      }
      assert digits[..k] == digits;
      ok := true;
      if isNegative {
        decoded := Int(Negate64(ToInt64(value)));
      } else if value <= MAX_INT {
        decoded := Int(ToInt64(value));
      } else {
        decoded := UInt(value);
      }
    }

    method IsDoubleToken(token: Token) returns (isDouble: bool)
      requires token.start <= token.end <= |document|
      ensures isDouble == IsDouble(document[token.start..token.end])
    {
      ghost var text := document[token.start..token.end];
      isDouble := false;
      for inspect := token.start to token.end
        invariant isDouble == exists i :: 0 <= i < inspect - token.start && DoubleChar(text, i)
      {
        assert document[inspect] == text[inspect - token.start];
        var c := document[inspect];
        isDouble := isDouble || c == '.' || c == 'e' || c == 'E' || c == '+' || (c == '-' && inspect != token.start);
        assert DoubleChar(text, inspect - token.start) ==>
            exists i :: 0 <= i < inspect + 1 - token.start && DoubleChar(text, i);
      }
    }

    method DecodeUnicodeEscapeSequence(token: Token, start: nat, end: nat) returns (ok: bool, next: nat, unicode: nat)
      requires start <= end <= |document|
      modifies this`errors
      ensures var r := DecodeHex4(document, start, end);
              && ok == r.Point? && (ok ==> unicode == r.unicode && next == r.next && errors == old(errors))
              && (!ok ==> errors == old(errors) + [Error(r.kind, token, Some(r.at))])
    {
      hide HexDigit;
      next, unicode := start, 0;
      if end - next < 4 {
        ok := AddError(FourDigitsExpected, token, Some(next));
        return;
      }
      for index := 0 to 4
        invariant next == start + index && unicode == HexPrefix(document, start, index)
        invariant HexRun(document, start, index)
        invariant errors == old(errors)
      {
        var c := document[next];
        next := next + 1;
        unicode := unicode * 16;
        var digit := HexDigit(c);
        if digit < 0 {
          FirstBadDigit(document, start, end, index);
          ok := AddError(HexDigitExpected, token, Some(next));
          return;
        }
        unicode := unicode + digit;
      }
      HexPrefixIs(document, start);
      ok := true;
    }

    method DecodeUnicodeCodePoint(token: Token, start: nat, end: nat) returns (ok: bool, next: nat, unicode: nat)
      requires start <= end <= |document|
      modifies this`errors
      ensures var r := DecodeCodePoint(document, start, end);
              && ok == r.Point? && (ok ==> unicode == r.unicode && next == r.next && errors == old(errors))
              && (!ok ==> errors == old(errors) + [Error(r.kind, token, Some(r.at))])
    {
      hide DecodeHex4;
      ok, next, unicode := DecodeUnicodeEscapeSequence(token, start, end);
      if !ok {
        return;
      }
      if HighSurrogate(unicode) {
        if end - next < 6 {
          ok := AddError(SurrogateTooShort, token, Some(next));
          return;
        }
        next := next + 1;
        if document[next - 1] == '\\' {
          next := next + 1;
          if document[next - 1] == 'u' {
            var surrogatePair;
            ok, next, surrogatePair := DecodeUnicodeEscapeSequence(token, next, end);
            if ok {
              unicode := 0x1_0000 + unicode % 0x400 * 0x400 + surrogatePair % 0x400;
            }
            return;
          }
        }
        ok := AddError(SurrogateExpected, token, Some(next));
      }
    }

    method DecodeStringToken(token: Token) returns (ok: bool, decoded: string)
      requires token.start + 2 <= token.end <= |document|
      modifies this`errors
      ensures var r := Decode(document, token.start + 1, token.end - 1);
              && ok == r.Text? && (ok ==> decoded == r.text && errors == old(errors))
              && (!ok ==> errors == old(errors) + [Error(r.kind, token, Some(r.at))])
    {
      hide Decode, DecodeCodePoint, ShortEscape, CodePointToUTF8;
      decoded := "";
      var cur := token.start + 1;
      var end := token.end - 1;
      ghost var all := Decode(document, cur, end);
      assert all.Text? ==> "" + all.text == all.text;
      while cur != end
        invariant token.start < cur <= end && errors == old(errors)
        invariant Decode(document, cur, end).After(decoded) == all
        decreases end - cur
      {
        DecodeNext(document, cur, end, decoded);
        var c := document[cur];
        cur := cur + 1;
        if c == '"' {
          return true, decoded;
        } else if c == '\\' {
          if cur == end {
            ok := AddError(EmptyEscape, token, Some(cur));
            return;
          }
          var escape := document[cur];
          cur := cur + 1;
          if escape == 'u' {
            var unicode;
            ok, cur, unicode := DecodeUnicodeCodePoint(token, cur, end);
            if !ok {
              return;
            }
            decoded := decoded + CodePointToUTF8(unicode);
          } else {
            match ShortEscape(escape) {
              case Some(plain) => decoded := decoded + [plain];
              case None =>
                ok := AddError(BadEscape, token, Some(cur));
                return;
            }
          }
        } else {
          decoded := decoded + [c];
        }
      }
      DecodeDone(document, end, decoded);
      return true, decoded;
    }

    // ---------- values ----------

    /** `currentValue()`: the value on top of the stack. */
    function Top(): Value
      requires nodes != []
      reads this`nodes
    {
      nodes[|nodes| - 1]
    }

    /** `below` is the stack without its top. */
    method SetTop(v: Value, ghost below: seq<Value>)
      requires nodes != [] && nodes[..|nodes| - 1] == below
      modifies this`nodes
      ensures nodes == below + [v]
    {
      nodes := nodes[..|nodes| - 1] + [v];
    }

    /** The reader's effect: outcome `r` of reading the value on top of `below`. */
    ghost predicate Done(ok: bool, r: Read, below: seq<Value>, errorsBefore: seq<Error>)
      reads this`current, this`nodes, this`errors
    {
      ok == r.ok && current == r.pos && nodes == below + [r.value] && errors == errorsBefore + r.errors
    }

    method ReadValue(ghost below: seq<Value>, ghost before: Value) returns (ok: bool)
      requires Valid() && nodes == below + [before]
      modifies this`current, this`nodes, this`errors
      ensures Valid() && Done(ok, JsonParse.ReadValue(Source(), old(current), before), below, old(errors))
      decreases |document| - current, 2
    {
      hide Source, JsonParse.ReadValue, JsonParse.ReadArray, ReadMembers, FirstToken, DecodeNumber, Decode, CString,
           SoundRead, ErrorInside, NumberText, Fail;
      ghost var env, p := Source(), current;
      var token := SkipCommentTokens();
      assert errors + [] == errors;
      match token.kind {
        case ObjectBegin =>
          ContainerIs(env, p, before, token);
          ok := ReadObject(token, below);
          SetTop(Top().(limit := current), below);
        case ArrayBegin =>
          ContainerIs(env, p, before, token);
          ok := ReadArray(token, below);
          SetTop(Top().(limit := current), below);
        case NumberToken =>
          var decoded;
          NumberIs(env, p, before, token);
          ok, decoded := DecodeNumberToken(token);
          if ok {
            SetTop(Value(decoded, token.start, token.end), below);
          }
        case StringToken =>
          var decoded;
          StringIs(env, p, before, token);
          ok, decoded := DecodeStringToken(token);
          if ok {
            SetTop(Value(Str(CString(decoded)), token.start, token.end), below);
          }
        case TrueToken =>
          WordIs(env, p, before, token);
          SetTop(Value(Bool(true), token.start, token.end), below);
          ok := true;
        case FalseToken =>
          WordIs(env, p, before, token);
          SetTop(Value(Bool(false), token.start, token.end), below);
          ok := true;
        case NullToken =>
          WordIs(env, p, before, token);
          SetTop(Value(Null, token.start, token.end), below);
          ok := true;
        case _ =>
          WordIs(env, p, before, token);
          SetTop(Top().(start := token.start, limit := token.end), below);
          ok := AddError(ValueExpected, token, None);
      }
    }

    /** A child is pushed, read in place and popped again. */
    method ReadChild(before: Value) returns (ok: bool, child: Value)
      requires Valid()
      modifies this`current, this`nodes, this`errors
      ensures Valid() && current >= old(current) && nodes == old(nodes)
      ensures var r := JsonParse.ReadValue(Source(), old(current), before);
              && ok == r.ok && child == r.value && current == r.pos
              && errors == (if ok then old(errors) else old(errors) + r.errors)
      decreases |document| - current, 3
    {
      hide JsonParse.ReadValue, ErrorInside;
      ghost var below := nodes;
      nodes := nodes + [before];
      assert errors + [] == errors;
      ok := ReadValue(below, before);
      child := Top();
      nodes := nodes[..|nodes| - 1];
    }

    method ReadObject(tokenStart: Token, ghost below: seq<Value>) returns (ok: bool)
      requires Valid() && nodes != [] && nodes[..|nodes| - 1] == below && current == tokenStart.end
      modifies this`current, this`nodes, this`errors
      ensures Valid()
      ensures Done(ok, ReadMembers(Source(), old(current), Value(Object(End), tokenStart.start, 0), ""), below, old(errors))
      decreases |document| - current, 4
    {
      hide JsonParse.ReadValue, ReadMembers, ReadMember, ReadPastComments, ReadToken, Decode, Recover, Put, Resolve,
           Find, SoundRead, ErrorInside, CString, NulFree, FirstToken, Fail;
      ghost var env := Source();
      var name := "";
      var obj := Value(Object(End), tokenStart.start, 0);
      SetTop(obj, below);
      assert errors + [] == errors;
      ghost var all := ReadMembers(env, current, obj, name);
      while true
        invariant Valid() && Source() == env && obj.body.Object?
        invariant nodes == below + [obj] && errors == old(errors)
        invariant ReadMembers(env, current, obj, name) == all
        invariant current >= old(current)
        decreases |document| - current
      {
        var go, decoded;
        go, ok, decoded := ReadMemberName(obj, name, below);
        if !go {
          return;
        }
        name := decoded;
        var next;
        ok, obj, next := ReadMemberValue(obj, name, below);
        if !ok || next.kind == ObjectEnd {
          return;
        }
      }
    }

    /** One turn of the member loop up to the colon; `go` when there is a member. */
    method ReadMemberName(obj: Value, name: string, ghost below: seq<Value>) returns (go: bool, ok: bool, decoded: string)
      requires Valid() && obj.body.Object? && nodes == below + [obj]
      modifies this`current, this`errors
      ensures Valid()
      ensures var r := ReadMembers(Source(), old(current), obj, name);
              if go then
                && errors == old(errors) && current > old(current)
                && r == ReadMember(Source(), current, obj, decoded)
              else Done(ok, r, below, old(errors))
    {
      hide Source, ReadMembers, ReadMember, ReadPastComments, ReadToken, Decode, Recover, SoundRead, ErrorInside, FirstToken,
           Fail, TokenAt, At;
      ghost var p := current;
      assert errors + [] == errors;
      ghost var env := Source();
      go, decoded := false, "";
      var tokenName := NextToken();
      tokenName := SkipCommentsFrom(tokenName);
      PastCommentsIs(document, p);
      if tokenName.kind == ObjectEnd && name == "" {
        MembersStop(env, p, obj, name, tokenName);
        return false, true, "";
      }
      if tokenName.kind != StringToken {
        MembersStop(env, p, obj, name, tokenName);
        ok := AddErrorAndRecover(MissingBraceOrName, tokenName, ObjectEnd);
        return;
      }
      NameShape(env, p, tokenName);
      ok, decoded := DecodeStringToken(tokenName);
      if !ok {
        MembersBadName(env, p, obj, name, tokenName);
        ok := RecoverFromError(ObjectEnd);
        return;
      }
      MembersNamed(env, p, obj, name, tokenName);
      var colon := NextToken();
      if colon.kind != MemberSeparator {
        ok := AddErrorAndRecover(MissingColon, colon, ObjectEnd);
        return;
      }
      go := true;
    }

    /** One turn of the member loop from behind the colon: `next` is the token after
        the value when the member is complete. */
    method ReadMemberValue(before: Value, name: string, ghost below: seq<Value>) returns (ok: bool, obj: Value, next: Token)
      requires Valid() && before.body.Object? && nodes == below + [before]
      modifies this`current, this`nodes, this`errors
      ensures Valid() && current >= old(current) && obj.body.Object? && nodes == below + [obj]
      ensures ok ==> errors == old(errors) && current == next.end
      ensures var r := ReadMember(Source(), old(current), before, name);
              if ok && next.kind != ObjectEnd then r == ReadMembers(Source(), current, obj, name)
              else Done(ok, r, below, old(errors))
      decreases |document| - current, 5
    {
      hide JsonParse.ReadValue, ReadMembers, ReadMember, ReadPastComments, ReadToken, Decode, Recover, Put, Resolve,
           Find, SoundRead, ErrorInside, CString, NulFree, FirstToken;
      ghost var env := Source();
      assert errors + [] == errors;
      MemberIs(env, current, before, name);
      next := Token(ErrorToken, 0, 0);
      var key := Name(CString(name));
      var members := Resolve(before.body.members, key);
      SetTop(before.(body := Object(members)), below);
      var child;
      ok, child := ReadChild(Find(members, key));
      PutResolve(before.body.members, key, child);
      obj := before.(body := Object(Put(members, key, child)));
      SetTop(obj, below);
      if !ok {
        ok := RecoverFromError(ObjectEnd);
        return;
      }
      ghost var q := current;
      var comma := NextToken();
      if comma.kind != ObjectEnd && comma.kind != ArraySeparator && comma.kind != CommentToken {
        ok := AddErrorAndRecover(MissingCommaOrBrace, comma, ObjectEnd);
        return;
      }
      next := SkipCommentsFrom(comma);
      PastCommentsIs(document, q);
    }

    method ReadArray(tokenStart: Token, ghost below: seq<Value>) returns (ok: bool)
      requires Valid() && nodes != [] && nodes[..|nodes| - 1] == below && current == tokenStart.end
      modifies this`current, this`nodes, this`errors
      ensures Valid() && Done(ok, JsonParse.ReadArray(Source(), tokenStart), below, old(errors))
      decreases |document| - current, 4
    {
      hide JsonParse.ReadValue, ReadElements, ReadPastComments, ReadToken, Recover, Put, Resolve, Find, SkipSpaces,
           SoundRead, ErrorInside, FirstToken;
      ghost var env := Source();
      var arr := Value(Array(End), tokenStart.start, 0);
      SetTop(arr, below);
      assert errors + [] == errors;
      SkipSpace();
      if At(document, current) == ']' {
        BracketIs(document, current);
        var endArray := NextToken();
        return true;
      }
      var index := 0;
      ghost var all := ReadElements(env, current, arr, 0);
      while true
        invariant Valid() && Source() == env && arr.body.Array?
        invariant nodes == below + [arr] && errors == old(errors)
        invariant ReadElements(env, current, arr, index) == all
        invariant current >= old(current)
        decreases |document| - current
      {
        ElementsIs(env, current, arr, index);
        var elements := Resolve(arr.body.elements, Index(index));
        SetTop(arr.(body := Array(elements)), below);
        var child;
        ok, child := ReadChild(Find(elements, Index(index)));
        PutResolve(arr.body.elements, Index(index), child);
        arr := arr.(body := Array(Put(elements, Index(index), child)));
        SetTop(arr, below);
        index := index + 1;
        if !ok {
          ok := RecoverFromError(ArrayEnd);
          return;
        }
        ghost var q := current;
        var token := NextToken();
        token := SkipCommentsFrom(token);
        PastCommentsIs(document, q);
        if token.kind != ArraySeparator && token.kind != ArrayEnd {
          ok := AddErrorAndRecover(MissingCommaOrBracket, token, ArrayEnd);
          return;
        }
        if token.kind == ArrayEnd {
          return true;
        }
      }
    }

    /** `root` is the caller's value, overwritten by what is read; the cursor ends
        behind the token after it. */
    method ParseDocument(doc: string, root: Value) returns (successful: bool, result: Value)
      modifies this
      ensures document == doc && Valid()
      ensures var r := Parse(Source(), strictRoot, root);
              && successful == r.ok && result == r.value && errors == r.errors
              && current == FirstToken(Source(), r.pos).end
    {
      hide JsonParse.ReadValue, FirstToken;
      document := doc;
      current := 0;
      errors := [];
      nodes := [] + [root];
      successful := ReadValue([], root);
      result := Top();
      var token := SkipCommentTokens();
      if strictRoot {
        if !result.body.Array? && !result.body.Object? {
          token := Token(ErrorToken, 0, |document|);
          successful := AddError(RootNotContainer, token, None);
          return;
        }
      }
    }
  }

  /** The number the first n hexadecimal digits make. */
  function HexPrefix(doc: string, start: nat, n: nat): int
    requires start + n <= |doc|
  {
    if n == 0 then 0 else HexPrefix(doc, start, n - 1) * 16 + HexDigit(doc[start + n - 1])
  }

  predicate HexRun(doc: string, start: nat, n: nat)
    requires start + n <= |doc|
  {
    n == 0 || (HexRun(doc, start, n - 1) && HexDigit(doc[start + n - 1]) >= 0)
  }

  lemma HexPrefixIs(doc: string, start: nat)
    requires start + 4 <= |doc| && HexRun(doc, start, 4)
    ensures IsHex4(doc[start..start + 4]) && HexPrefix(doc, start, 4) == Hex4Value(doc[start..start + 4])
    ensures HexDigit(doc[start]) >= 0 && HexDigit(doc[start + 1]) >= 0
    ensures HexDigit(doc[start + 2]) >= 0 && HexDigit(doc[start + 3]) >= 0
  {
    hide HexDigit;
    assert HexRun(doc, start, 3) && HexRun(doc, start, 2) && HexRun(doc, start, 1);
    var h := doc[start..start + 4];
    assert HexPrefix(doc, start, 1) == HexDigit(h[0]);
    assert HexPrefix(doc, start, 2) == 16 * HexDigit(h[0]) + HexDigit(h[1]);
    assert HexPrefix(doc, start, 3) == 256 * HexDigit(h[0]) + 16 * HexDigit(h[1]) + HexDigit(h[2]);
  }

  lemma FirstBadDigit(doc: string, start: nat, end: nat, index: nat)
    requires start + 4 <= end <= |doc| && index < 4
    requires HexRun(doc, start, index) && HexDigit(doc[start + index]) < 0
    ensures DecodeHex4(doc, start, end) == BadPoint(HexDigitExpected, start + index + 1)
  {
    hide HexDigit;
    if index > 1 {
      assert HexRun(doc, start, index - 1);
    }
    if index > 2 {
      assert HexRun(doc, start, index - 2);
    }
  }

  /** One turn of the decoding loop, with `done` decoded so far. */
  lemma DecodeNext(doc: string, i: nat, end: nat, done: string)
    requires i < end <= |doc|
    ensures var d := Decode(doc, i, end).After(done);
            && (doc[i] == '"' ==> d == Text(done))
            && (doc[i] != '"' && doc[i] != '\\' ==> d == Decode(doc, i + 1, end).After(done + [doc[i]]))
            && (doc[i] == '\\' && i + 1 == end ==> d == Bad(EmptyEscape, i + 1))
            && (doc[i] == '\\' && i + 1 < end && doc[i + 1] == 'u' ==>
                  var p := DecodeCodePoint(doc, i + 2, end);
                  d == if p.BadPoint? then Bad(p.kind, p.at)
                       else Decode(doc, p.next, end).After(done + CodePointToUTF8(p.unicode)))
            && (doc[i] == '\\' && i + 1 < end && doc[i + 1] != 'u' ==>
                  var e := ShortEscape(doc[i + 1]);
                  d == if e.None? then Bad(BadEscape, i + 2)
                       else Decode(doc, i + 2, end).After(done + [e.value]))
  {
    hide DecodeCodePoint, ShortEscape, CodePointToUTF8;
    if doc[i] == '"' {
      assert done + "" == done;
    } else if doc[i] != '\\' {
      AfterAfter(Decode(doc, i + 1, end), [doc[i]], done);
    } else if i + 1 < end {
      if doc[i + 1] == 'u' {
        var p := DecodeCodePoint(doc, i + 2, end);
        if p.Point? {
          AfterAfter(Decode(doc, p.next, end), CodePointToUTF8(p.unicode), done);
        }
      } else if ShortEscape(doc[i + 1]).Some? {
        AfterAfter(Decode(doc, i + 2, end), [ShortEscape(doc[i + 1]).value], done);
      }
    }
  }

  lemma AfterAfter(d: Decoded, s: string, t: string)
    ensures d.After(s).After(t) == d.After(t + s)
  {
    if d.Text? {
      assert t + (s + d.text) == (t + s) + d.text;
    }
  }

  lemma DecodeDone(doc: string, end: nat, done: string)
    requires end <= |doc|
    ensures Decode(doc, end, end).After(done) == Text(done)
  {
    assert done + "" == done;
  }

  lemma NumberStart(text: string)
    requires NumberText(text)
    ensures text != "" && ValueOf("") == 0
  {
  }

  lemma NextDigit(digits: string, i: nat)
    requires AllDigits(digits) && i < |digits|
    ensures IsDigit(digits[i]) && AllDigits(digits[..i]) && AllDigits(digits[..i + 1])
    ensures ValueOf(digits[..i + 1]) == ValueOf(digits[..i]) * 10 + (digits[i] as int - '0' as int)
  {
    assert digits[..i + 1][..i] == digits[..i];
  }

  lemma Fits(value: nat, digit: nat, max: nat)
    requires digit < 10 && (value < max / 10 || (value == max / 10 && digit <= max % 10))
    ensures value * 10 + digit <= max
  {
  }

  /** The overflow test is exact: it fires only when the whole number exceeds the limit. */
  lemma TooLarge(digits: string, i: nat, max: nat)
    requires AllDigits(digits) && i < |digits| && max >= 1000
    requires var value, digit := ValueOf(digits[..i]), digits[i] as int - '0' as int;
             value > max / 10 || (value == max / 10 && (i + 1 != |digits| || digit > max % 10))
    ensures ValueOf(digits) > max
  {
    hide ValueOf;
    NextDigit(digits, i);
    if i + 1 < |digits| {
      ValueOfPrefix(digits, i + 1);
    } else {
      assert digits[..i + 1] == digits;
    }
  }
}
