/** The tokens of a JSON document as `Reader::readToken` sees them. Positions are
    offsets into the document; the character past its end is the terminating NUL. */
module JsonScan {
  datatype TokenType =
    | EndOfStream
    | ObjectBegin
    | ObjectEnd
    | ArrayBegin
    | ArrayEnd
    | StringToken
    | NumberToken
    | TrueToken
    | FalseToken
    | NullToken
    | ArraySeparator
    | MemberSeparator
    | CommentToken
    | ErrorToken

  datatype Token = Token(kind: TokenType, start: nat, end: nat)

  /** Outcome of a scanner: whether it succeeded and where it stopped. */
  datatype Scan = Scan(ok: bool, pos: nat)

  function At(doc: string, p: nat): char {
    if p < |doc| then doc[p] else '\0'
  }

  predicate IsSpace(c: char) {
    c == ' ' || c == '\t' || c == '\r' || c == '\n'
  }

  function SkipSpaces(doc: string, p: nat): (q: nat)
    requires p <= |doc|
    ensures p <= q <= |doc|
    ensures q < |doc| ==> !IsSpace(doc[q])
    decreases |doc| - p
  {
    if p < |doc| && IsSpace(doc[p]) then SkipSpaces(doc, p + 1) else p
  }

  predicate Match(doc: string, p: nat, pattern: string) {
    p + |pattern| <= |doc| && doc[p..p + |pattern|] == pattern
  }

  predicate IsNumberChar(c: char) {
    '0' <= c <= '9' || c == '.' || c == 'e' || c == 'E' || c == '+' || c == '-'
  }

  function ScanNumber(doc: string, p: nat): (q: nat)
    requires p <= |doc|
    ensures p <= q <= |doc|
    ensures forall i :: p <= i < q ==> IsNumberChar(doc[i])
    ensures q < |doc| ==> !IsNumberChar(doc[q])
    decreases |doc| - p
  {
    if p < |doc| && IsNumberChar(doc[p]) then ScanNumber(doc, p + 1) else p
  }

  /** From behind the opening quote to behind the closing one. */
  function ScanString(doc: string, p: nat): (s: Scan)
    requires p <= |doc|
    ensures p <= s.pos <= |doc|
    ensures s.ok ==> p < s.pos && doc[s.pos - 1] == '"'
    decreases |doc| - p
  {
    if p == |doc| then Scan(false, p)
    else if doc[p] == '"' then Scan(true, p + 1)
    else if doc[p] != '\\' then ScanString(doc, p + 1)
    else if p + 1 == |doc| then Scan(false, p + 1)
    else ScanString(doc, p + 2)
  }

  /** From behind the opening of a C comment to behind its end. */
  function ScanCComment(doc: string, p: nat): (s: Scan)
    requires p <= |doc|
    ensures p <= s.pos <= |doc|
    decreases |doc| - p
  {
    if p == |doc| then Scan(false, p)
    else if doc[p] == '*' && At(doc, p + 1) == '/' then Scan(true, p + 2)
    else ScanCComment(doc, p + 1)
  }

  /** From behind the two slashes to behind the end of the line. */
  function ScanCppComment(doc: string, p: nat): (q: nat)
    requires p <= |doc|
    ensures p <= q <= |doc|
    decreases |doc| - p
  {
    if p == |doc| then p
    else if doc[p] == '\r' || doc[p] == '\n' then p + 1
    else ScanCppComment(doc, p + 1)
  }

  /** From behind the first slash. */
  function ScanComment(doc: string, p: nat): (s: Scan)
    requires p <= |doc|
    ensures p <= s.pos <= |doc|
  {
    if p == |doc| then Scan(false, p)
    else if doc[p] == '*' then ScanCComment(doc, p + 1)
    else if doc[p] == '/' then Scan(true, ScanCppComment(doc, p + 1))
    else Scan(false, p + 1)
  }

  function Keyword(kind: TokenType, doc: string, start: nat, rest: string): (t: Token)
    requires start < |doc|
    ensures t.start == start < t.end <= |doc|
    ensures t.kind == kind || t.kind == ErrorToken
  {
    if Match(doc, start + 1, rest) then Token(kind, start, start + 1 + |rest|)
    else Token(ErrorToken, start, start + 1)
  }

  function Scanned(kind: TokenType, start: nat, s: Scan): Token {
    Token(if s.ok then kind else ErrorToken, start, s.pos)
  }

  /** The token that starts at `p`, with no white space before it. */
  function TokenAt(doc: string, p: nat): (t: Token)
    requires p <= |doc|
    ensures t.start == p <= t.end <= |doc|
    ensures p < |doc| ==> p < t.end
    ensures t.kind != EndOfStream ==> p < t.end
  {
    if p == |doc| then Token(EndOfStream, p, p)
    else
      match doc[p]
      case '{' => Token(ObjectBegin, p, p + 1)
      case '}' => Token(ObjectEnd, p, p + 1)
      case '[' => Token(ArrayBegin, p, p + 1)
      case ']' => Token(ArrayEnd, p, p + 1)
      case '"' => Scanned(StringToken, p, ScanString(doc, p + 1))
      case '/' => Scanned(CommentToken, p, ScanComment(doc, p + 1))
      case 't' => Keyword(TrueToken, doc, p, "rue")
      case 'f' => Keyword(FalseToken, doc, p, "alse")
      case 'n' => Keyword(NullToken, doc, p, "ull")
      case ',' => Token(ArraySeparator, p, p + 1)
      case ':' => Token(MemberSeparator, p, p + 1)
      case '\0' => Token(EndOfStream, p, p + 1)
      case c =>
        if '0' <= c <= '9' || c == '-' then Token(NumberToken, p, ScanNumber(doc, p + 1))
        else Token(ErrorToken, p, p + 1)
  }

  function ReadToken(doc: string, p: nat): (t: Token)
    requires p <= |doc|
    ensures p <= t.start <= t.end <= |doc|
    ensures t.kind != EndOfStream ==> t.start < t.end
    ensures p < |doc| ==> p < t.end
  {
    TokenAt(doc, SkipSpaces(doc, p))
  }

  /** The next token that is no comment. */
  function ReadPastComments(doc: string, p: nat): (t: Token)
    requires p <= |doc|
    ensures p <= t.start <= t.end <= |doc|
    ensures t.kind != EndOfStream ==> t.start < t.end
    ensures t.kind != CommentToken
    decreases |doc| - p
  {
    var t := ReadToken(doc, p);
    if t.kind == CommentToken then ReadPastComments(doc, t.end) else t
  }

  /** What the tokens that carry text look like. */
  lemma TokenShape(doc: string, p: nat)
    requires p <= |doc|
    ensures var t := TokenAt(doc, p);
            && (t.kind == StringToken ==>
                  p + 2 <= t.end && doc[p] == '"' && doc[t.end - 1] == '"')
            && (t.kind == NumberToken ==>
                  && ('0' <= doc[p] <= '9' || doc[p] == '-')
                  && (forall i :: p <= i < t.end ==> IsNumberChar(doc[i])))
  {
  }
}
