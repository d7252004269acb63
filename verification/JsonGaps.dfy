/** White space and comments between tokens, and the tokens that may stand for the
    comma between members, on both sides: the text and what the scanner makes of it. */
module JsonGaps {
  import opened JsonText
  import opened JsonScan
  import opened JsonSyntax
  import opened JsonSteps

  // ---------- from the text to the tokens ----------

  lemma {:induction false} SpacesSkipped(doc: string, p: nat, pre: string)
    requires Has(doc, p, pre) && AllSpace(pre)
    requires p + |pre| < |doc| && !White(doc[p + |pre|])
    ensures SkipSpaces(doc, p) == p + |pre|
    decreases |pre|
  {
    if pre != "" {
      HasSplit(doc, p, pre[..1], pre[1..]);
      assert pre == pre[..1] + pre[1..];
      HasAt(doc, p, pre, 0);
      SpacesSkipped(doc, p + 1, pre[1..]);
    }
  }

  lemma {:induction false} BlockScanned(doc: string, p: nat, c: string, i: nat)
    requires Has(doc, p, c) && BlockComment(c) && 2 <= i <= |c| - 2
    ensures ScanCComment(doc, p + i) == Scan(true, p + |c|)
    decreases |c| - i
  {
    HasAt(doc, p, c, i);
    HasAt(doc, p, c, i + 1);
    if i < |c| - 2 {
      BlockScanned(doc, p, c, i + 1);
    }
  }

  lemma {:induction false} LineScanned(doc: string, p: nat, c: string, i: nat)
    requires Has(doc, p, c) && LineComment(c) && 2 <= i <= |c| - 1
    ensures ScanCppComment(doc, p + i) == p + |c|
    decreases |c| - i
  {
    HasAt(doc, p, c, i);
    if i < |c| - 1 {
      LineScanned(doc, p, c, i + 1);
    }
  }

  lemma CommentIsToken(doc: string, p: nat, c: string)
    requires Has(doc, p, c) && (BlockComment(c) || LineComment(c))
    ensures p < |doc| && doc[p] == '/' && TokenAt(doc, p) == Token(CommentToken, p, p + |c|)
  {
    hide ScanCComment, ScanCppComment;
    HasAt(doc, p, c, 0);
    HasAt(doc, p, c, 1);
    if BlockComment(c) {
      BlockScanned(doc, p, c, 2);
    } else {
      LineScanned(doc, p, c, 2);
    }
  }

  lemma CommentedIs(s: string, n: nat, m: nat)
    requires Commented(s, n, m)
    ensures n < m <= |s| && AllSpace(s[..n]) && (BlockComment(s[n..m]) || LineComment(s[n..m])) && s[n] == '/'
    ensures s == s[..n] + (s[n..m] + s[m..])
  {
  }

  lemma CommentBehind(doc: string, p: nat, s: string, n: nat, m: nat)
    requires Has(doc, p, s) && Commented(s, n, m)
    ensures p <= |doc| && ReadToken(doc, p) == Token(CommentToken, p + n, p + m) && Has(doc, p + m, s[m..])
  {
    hide TokenAt, Commented, BlockComment, LineComment, AllSpace, Has;
    CommentedIs(s, n, m);
    HasSplit(doc, p, s[..n], s[n..m] + s[m..]);
    HasSplit(doc, p + n, s[n..m], s[m..]);
    CommentIsToken(doc, p + n, s[n..m]);
    NotBlank();
    SpacesSkipped(doc, p, s[..n]);
  }

  lemma NotBlank()
    ensures !White('/')
  {
  }

  lemma GapParts(gap: string) returns (n: nat, m: nat)
    requires Gap(gap) && !AllSpace(gap)
    ensures n < m <= |gap| && Commented(gap, n, m) && Gap(gap[m..])
  {
    hide AllSpace, BlockComment, LineComment;
    n, m :| Commented(gap, n, m) && Gap(gap[m..]);
  }

  /** The token behind a gap. */
  lemma {:induction false} GapSkipped(doc: string, p: nat, gap: string)
    requires Has(doc, p, gap) && Gap(gap)
    requires p + |gap| < |doc| && !White(doc[p + |gap|]) && TokenAt(doc, p + |gap|).kind != CommentToken
    ensures ReadPastComments(doc, p) == TokenAt(doc, p + |gap|)
    ensures AllSpace(gap) ==> ReadToken(doc, p) == TokenAt(doc, p + |gap|)
    ensures !AllSpace(gap) ==> ReadToken(doc, p).kind == CommentToken
    decreases |gap|
  {
    hide TokenAt, AllSpace, Has, Commented, ReadPastComments, ReadToken;
    if AllSpace(gap) {
      SpacesSkipped(doc, p, gap);
      ReadTokenIs(doc, p);
      PastCommentsIs(doc, p);
    } else {
      var n, m := GapParts(gap);
      CommentBehind(doc, p, gap, n, m);
      PastCommentsIs(doc, p);
      CommentedIs(gap, n, m);
      GapSkipped(doc, p + m, gap[m..]);
    }
  }

  lemma ReadTokenIs(doc: string, p: nat)
    requires p <= |doc|
    ensures ReadToken(doc, p) == TokenAt(doc, SkipSpaces(doc, p))
  {
    hide TokenAt, SkipSpaces;
  }

  // ---------- from the tokens to the text ----------

  lemma {:induction false} SpacesFound(doc: string, p: nat)
    requires p <= |doc|
    ensures AllSpace(doc[p..SkipSpaces(doc, p)])
    decreases |doc| - p
  {
    if p < |doc| && IsSpace(doc[p]) {
      SpacesFound(doc, p + 1);
      var q := SkipSpaces(doc, p);
      assert doc[p..q] == [doc[p]] + doc[p + 1..q];
    }
  }

  lemma {:induction false} BlockFound(doc: string, p: nat)
    requires p <= |doc| && ScanCComment(doc, p).ok
    ensures var end := ScanCComment(doc, p).pos;
            && p + 2 <= end <= |doc| && doc[end - 2] == '*' && doc[end - 1] == '/'
            && forall i :: p <= i < end - 2 ==> !(doc[i] == '*' && doc[i + 1] == '/')
    decreases |doc| - p
  {
    if !(doc[p] == '*' && At(doc, p + 1) == '/') {
      BlockFound(doc, p + 1);
    }
  }

  lemma {:induction false} LineFound(doc: string, p: nat)
    requires p <= |doc| && ScanCppComment(doc, p) < |doc|
    ensures var end := ScanCppComment(doc, p);
            && p < end && EndsLine(doc[end - 1])
            && forall i :: p <= i < end - 1 ==> !EndsLine(doc[i])
    decreases |doc| - p
  {
    if !EndsLine(doc[p]) {
      LineFound(doc, p + 1);
    }
  }

  lemma CommentFound(doc: string, q: nat)
    requires q <= |doc| && TokenAt(doc, q).kind == CommentToken && TokenAt(doc, q).end < |doc|
    ensures var c := doc[q..TokenAt(doc, q).end]; BlockComment(c) || LineComment(c)
  {
    hide ScanCComment, ScanCppComment, ScanString, ScanNumber, Keyword;
    var end := TokenAt(doc, q).end;
    var c := doc[q..end];
    if doc[q + 1] == '*' {
      BlockFound(doc, q + 2);
      assert forall i :: 0 <= i < |c| ==> c[i] == doc[q + i];
    } else {
      LineFound(doc, q + 2);
      assert forall i :: 0 <= i < |c| ==> c[i] == doc[q + i];
    }
  }

  /** What stands before the next token that is no comment. */
  lemma {:induction false} GapFound(doc: string, p: nat)
    requires p <= |doc| && ReadPastComments(doc, p).start < |doc|
    ensures var t := ReadPastComments(doc, p);
            && p <= t.start && Gap(doc[p..t.start]) && t == TokenAt(doc, t.start)
            && !White(doc[t.start])
            && (AllSpace(doc[p..t.start]) <==> ReadToken(doc, p).kind != CommentToken)
            && (ReadToken(doc, p).kind != CommentToken ==> ReadToken(doc, p) == t)
    decreases |doc| - p
  {
    hide TokenAt, AllSpace, Commented, ReadPastComments, ReadToken;
    ReadTokenIs(doc, p);
    PastCommentsIs(doc, p);
    SpacesFound(doc, p);
    var t := ReadToken(doc, p);
    if t.kind == CommentToken {
      var q := ReadPastComments(doc, p).start;
      GapFound(doc, t.end);
      CommentFound(doc, t.start);
      CommentThenGap(doc, p, t, q);
    } else {
      SpaceIsGap(doc[p..t.start]);
    }
  }

  lemma SpaceIsGap(s: string)
    requires AllSpace(s)
    ensures Gap(s)
  {
    hide AllSpace;
  }

  lemma SubSlice(doc: string, p: nat, q: nat, i: nat, j: nat)
    requires p <= q <= |doc| && i <= j <= q - p
    ensures doc[p..q][i..j] == doc[p + i..p + j]
  {
    assert forall k :: 0 <= k < j - i ==> doc[p..q][i..j][k] == doc[p..q][i + k] == doc[p + i..p + j][k];
  }

  lemma CommentThenGap(doc: string, p: nat, t: Token, q: nat)
    requires p <= t.start < t.end <= q < |doc| && t == TokenAt(doc, t.start) && t.kind == CommentToken
    requires AllSpace(doc[p..t.start]) && Gap(doc[t.end..q])
    ensures Gap(doc[p..q]) && !AllSpace(doc[p..q])
  {
    hide TokenAt, AllSpace, BlockComment, LineComment, Gap;
    CommentFound(doc, t.start);
    var s, n, m := doc[p..q], t.start - p, t.end - p;
    SubSlice(doc, p, q, 0, n);
    SubSlice(doc, p, q, n, m);
    SubSlice(doc, p, q, m, q - p);
    assert s[0..n] == s[..n] && s[m..q - p] == s[m..];
    assert Commented(s, n, m);
    CommentedIs(s, n, m);
    SlashInside(s, n);
    PrependGap(s, n, m);
  }

  lemma PrependGap(s: string, n: nat, m: nat)
    requires Commented(s, n, m) && Gap(s[m..])
    ensures Gap(s)
  {
    hide AllSpace, BlockComment, LineComment;
  }

  lemma SlashInside(s: string, n: nat)
    requires n < |s| && s[n] == '/'
    ensures !AllSpace(s)
  {
  }

  // ---------- the white space in front ----------

  /** A gap behind its first white space. */
  lemma GapTail(gap: string)
    requires Gap(gap)
    ensures var n := SkipSpaces(gap, 0);
            AllSpace(gap[..n]) && Gap(gap[n..]) && (AllSpace(gap) ==> gap[n..] == "")
  {
    hide AllSpace, SkipSpaces, Commented;
    var n := SkipSpaces(gap, 0);
    SpacesFound(gap, 0);
    assert gap[0..n] == gap[..n];
    if AllSpace(gap) {
      SpacesToEnd(gap, n);
      EmptySpace();
      SpaceIsGap("");
      assert gap[n..] == "";
    } else {
      var a, m := GapParts(gap);
      CommentedIs(gap, a, m);
      NotBlank();
      assert Has(gap, 0, gap[..a]);
      SpacesSkipped(gap, 0, gap[..a]);
      CommentedTail(gap, a, m);
    }
  }

  lemma EmptySpace()
    ensures AllSpace("")
  {
  }

  lemma SpacesToEnd(gap: string, n: nat)
    requires AllSpace(gap) && n <= |gap| && (n < |gap| ==> !White(gap[n]))
    ensures n == |gap|
  {
  }

  lemma CommentedTail(gap: string, a: nat, m: nat)
    requires Commented(gap, a, m) && Gap(gap[m..])
    ensures Gap(gap[a..])
  {
    hide AllSpace, BlockComment, LineComment;
    var s := gap[a..];
    assert s[..0] == "" && s[0..m - a] == gap[a..m] && s[m - a..] == gap[m..];
    EmptySpace();
    assert Commented(s, 0, m - a);
  }

  lemma {:induction false} SpacesCounted(doc: string, p: nat, gap: string, i: nat)
    requires Has(doc, p, gap) && i <= |gap| && p + |gap| < |doc| && !White(doc[p + |gap|])
    ensures SkipSpaces(doc, p + i) == p + SkipSpaces(gap, i)
    decreases |gap| - i
  {
    if i < |gap| {
      HasAt(doc, p, gap, i);
      if IsSpace(gap[i]) {
        SpacesCounted(doc, p, gap, i + 1);
      }
    }
  }

  // ---------- separators ----------

  lemma {:induction false} StringExtends(doc: string, q: nat, s: string, i: nat)
    requires Has(doc, q, s) && i <= |s| && ScanString(s, i).ok
    ensures ScanString(doc, q + i) == Scan(true, q + ScanString(s, i).pos)
    decreases |s| - i
  {
    hide Has;
    HasAt(doc, q, s, i);
    HasInside(doc, q, s);
    if s[i] == '\\' {
      StringExtends(doc, q, s, i + 2);
    } else if s[i] != '"' {
      StringExtends(doc, q, s, i + 1);
    }
  }

  /** What the scanner takes for such a token, when the text ends there or goes on
      with white space, a member, a comment or the closing brace. */
  predicate WholeToken(s: string) {
    && s != "" && !White(s[0])
    && TokenAt(s, 0).end == |s| && TokenAt(s, 0).kind != ObjectEnd && TokenAt(s, 0).kind != CommentToken
    && (s[0] == '"' ==> TokenAt(s, 0).kind == StringToken)
    && (s[0] == '/' ==> |s| == 2 && s[1] != '*' && s[1] != '/')
  }

  lemma {:induction false} ClosedScanned(s: string, i: nat)
    requires i <= |s|
    ensures Closed(s[i..]) <==> ScanString(s, i) == Scan(true, |s|)
    decreases |s| - i
  {
    if i < |s| && s[i] != '"' {
      if s[i] != '\\' {
        assert s[i..][1..] == s[i + 1..];
        ClosedScanned(s, i + 1);
      } else if i + 1 < |s| {
        assert s[i..][2..] == s[i + 2..];
        ClosedScanned(s, i + 2);
      }
    }
  }

  lemma KeywordWhole(kind: TokenType, s: string, rest: string)
    requires s != "" && rest != ""
    ensures Keyword(kind, s, 0, rest).end == |s| <==> s[1..] == "" || s[1..] == rest
  {
    if Match(s, 1, rest) {
      assert s[1..1 + |rest|] == s[1..][..|rest|];
    }
    assert s[1..] == rest ==> s[1..1 + |rest|] == rest;
  }

  /** The tokens that may replace a comma are those the scanner sees. */
  lemma OneTokenIff(s: string)
    ensures OneToken(s) <==> WholeToken(s)
  {
    hide ScanString, ScanNumber, Keyword, Match, Closed;
    if s != "" {
      match s[0] {
        case '"' => ClosedScanned(s, 1);
        case '/' =>
        case 't' => KeywordWhole(TrueToken, s, "rue");
        case 'f' => KeywordWhole(FalseToken, s, "alse");
        case 'n' => KeywordWhole(NullToken, s, "ull");
        case c =>
          assert ScanNumber(s, 1) == |s| <==> forall i :: 1 <= i < |s| ==> IsNumberChar(s[i]);
      }
    }
  }

  /** What a member, a gap or the closing brace can start with. */
  predicate Stops(c: char) {
    White(c) || c == '/' || c == '"' || c == '}'
  }

  lemma MatchFirst(doc: string, p: nat, rest: string)
    requires Match(doc, p, rest) && rest != ""
    ensures doc[p] == rest[0]
  {
    assert doc[p] == doc[p..p + |rest|][0];
  }

  lemma KeywordExtends(kind: TokenType, doc: string, q: nat, s: string, rest: string)
    requires Has(doc, q, s) && s != "" && Keyword(kind, s, 0, rest).end == |s|
    requires q + |s| < |doc| && Stops(doc[q + |s|]) && rest != "" && !Stops(rest[0])
    ensures Keyword(kind, doc, q, rest) == Token(Keyword(kind, s, 0, rest).kind, q, q + |s|)
  {
    if Match(doc, q + 1, rest) {
      MatchFirst(doc, q + 1, rest);
    }
    if Match(s, 1, rest) {
      assert s == s[..1] + rest;
      HasSplit(doc, q, s[..1], rest);
    }
  }

  lemma NumberExtends(doc: string, q: nat, s: string)
    requires Has(doc, q, s) && s != "" && ScanNumber(s, 1) == |s|
    requires q + |s| < |doc| && Stops(doc[q + |s|])
    ensures ScanNumber(doc, q + 1) == q + |s|
  {
    hide ScanNumber;
    forall i | q + 1 <= i < q + |s| ensures IsNumberChar(doc[i]) {
      HasAt(doc, q, s, i - q);
    }
  }

  /** A token stays the same token before anything that does not prolong it. */
  lemma TokenExtends(doc: string, q: nat, s: string)
    requires Has(doc, q, s) && OneToken(s) && q + |s| < |doc| && Stops(doc[q + |s|])
    ensures TokenAt(doc, q) == Token(TokenAt(s, 0).kind, q, q + |s|)
    ensures !White(doc[q]) && TokenAt(doc, q).kind != CommentToken && TokenAt(doc, q).kind != ObjectEnd
  {
    hide ScanString, ScanNumber, Keyword, Match, OneToken;
    OneTokenIff(s);
    HasAt(doc, q, s, 0);
    match s[0] {
      case '"' => StringExtends(doc, q, s, 1);
      case '/' => HasAt(doc, q, s, 1);
      case 't' => KeywordExtends(TrueToken, doc, q, s, "rue");
      case 'f' => KeywordExtends(FalseToken, doc, q, s, "alse");
      case 'n' => KeywordExtends(NullToken, doc, q, s, "ull");
      case c =>
        if '0' <= c <= '9' || c == '-' {
          NumberExtends(doc, q, s);
        }
    }
  }
}
