/** The guess whether a text is UTF-8. A `char` stands for one byte. */
module TextEncoding {
  import opened JsonText

  /** How many bytes the sequence opened by `c` has, 0 if `c` opens none. The bytes 0xFE
      and 0xFF count as openers of five, as in the source. */
  function UnitLength(c: char): nat {
    if c as int < 0x80 then 1
    else if c as int < 0xc0 then 0
    else if c as int < 0xe0 then 2
    else if c as int < 0xf0 then 3
    else if c as int < 0xf8 then 4
    else if c == 0xfc as char || c == 0xfd as char then 6
    else 5
  }

  /** The ranges of the bytes that open sequences. */
  lemma UnitLengths(c: char)
    requires c as int <= 0xff
    ensures UnitLength(c) == 1 <==> c as int <= 0x7f
    ensures UnitLength(c) == 2 <==> 0xc0 <= c as int <= 0xdf
    ensures UnitLength(c) == 3 <==> 0xe0 <= c as int <= 0xef
    ensures UnitLength(c) == 4 <==> 0xf0 <= c as int <= 0xf7
    ensures UnitLength(c) == 5 <==> 0xf8 <= c as int <= 0xfb || 0xfe <= c as int
    ensures UnitLength(c) == 6 <==> 0xfc <= c as int <= 0xfd
  {
  }

  /** `n` continuation bytes, then whole sequences. */
  predicate Continued(s: string, n: nat) {
    if s == "" then n == 0
    else if n > 0 then Continuation(s[0]) && Continued(s[1..], n - 1)
    else UnitLength(s[0]) > 0 && Continued(s[1..], UnitLength(s[0]) - 1)
  }

  /** Every byte opens a sequence or continues one, and no sequence is cut short. */
  predicate WholeSequences(s: string) {
    Continued(s, 0)
  }

  predicate AllAscii(s: string) {
    forall i :: 0 <= i < |s| ==> s[i] as int < 0x80
  }

  /** `IsTextUTF8`: whole sequences, not all of them single bytes. */
  method IsTextUTF8(str: string) returns (r: bool)
    requires forall i :: 0 <= i < |str| ==> str[i] as int <= 0xff
    ensures r <==> WholeSequences(str) && !AllAscii(str)
  {
    var nBytes: nat := 0;
    var allAscii := true;
    var i := 0;
    assert str[0..] == str;
    while i < |str|
      invariant i <= |str|
      invariant WholeSequences(str) <==> Continued(str[i..], nBytes)
      invariant allAscii <==> AllAscii(str[..i])
    {
      var chr := str[i] as int;
      assert str[i..][1..] == str[i + 1..] && str[..i + 1] == str[..i] + [str[i]];
      if chr >= 0x80 {
        allAscii := false;
      }
      if nBytes == 0 {
        if chr >= 0x80 {
          if chr >= 0xfc && chr <= 0xfd {
            nBytes := 6;
          } else if chr >= 0xf8 {
            nBytes := 5;
          } else if chr >= 0xf0 {
            nBytes := 4;
          } else if chr >= 0xe0 {
            nBytes := 3;
          } else if chr >= 0xc0 {
            nBytes := 2;
          } else {
            return false;
          }
          nBytes := nBytes - 1;
        }
      } else {
        if !(0x80 <= chr < 0xc0) {
          return false;
        }
        nBytes := nBytes - 1;
      }
      i := i + 1;
    }
    assert str[..i] == str;
    if nBytes > 0 {
      return false;
    }
    if allAscii {
      return false;
    }
    return true;
  }

  function EncodeAll(points: seq<nat>): string {
    if points == [] then "" else CodePointToUTF8(points[0]) + EncodeAll(points[1..])
  }

  lemma SequenceContinues(u: string, rest: string)
    requires u != "" && UnitLength(u[0]) == |u| && forall i :: 1 <= i < |u| ==> Continuation(u[i])
    ensures Continued(u + rest, 0) <==> Continued(rest, 0)
  {
    assert (u + rest)[1..] == u[1..] + rest;
    TailContinues(u[1..], rest);
  }

  lemma {:induction false} TailContinues(tail: string, rest: string)
    requires forall i :: 0 <= i < |tail| ==> Continuation(tail[i])
    ensures Continued(tail + rest, |tail|) <==> Continued(rest, 0)
  {
    if tail == "" {
      assert tail + rest == rest;
    } else {
      assert (tail + rest)[1..] == tail[1..] + rest;
      TailContinues(tail[1..], rest);
    }
  }

  lemma EncodedIsSequence(cp: nat)
    requires cp <= 0x10ffff
    ensures var u := CodePointToUTF8(cp);
            && u != "" && UnitLength(u[0]) == |u| && (forall i :: 1 <= i < |u| ==> Continuation(u[i]))
            && (AllAscii(u) <==> cp < 0x80)
  {
    var u := CodePointToUTF8(cp);
    if cp >= 0x80 {
      assert u[0] as int >= 0x80;
    }
  }

  /** Every text that encodes code points is made of whole sequences, and all ASCII only
      if its code points are: so `IsTextUTF8` accepts exactly those with others. */
  lemma {:induction false} EncodedTextIsWhole(points: seq<nat>)
    requires forall i :: 0 <= i < |points| ==> points[i] <= 0x10ffff
    ensures WholeSequences(EncodeAll(points))
    ensures AllAscii(EncodeAll(points)) <==> forall i :: 0 <= i < |points| ==> points[i] < 0x80
  {
    if points != [] {
      hide CodePointToUTF8, UnitLength, Continued;
      var u, rest := CodePointToUTF8(points[0]), EncodeAll(points[1..]);
      EncodedIsSequence(points[0]);
      EncodedTextIsWhole(points[1..]);
      SequenceContinues(u, rest);
      AsciiJoin(u, rest);
      assert forall i :: 1 <= i < |points| ==> points[i] == points[1..][i - 1];
    }
  }

  lemma AsciiJoin(a: string, b: string)
    ensures AllAscii(a + b) <==> AllAscii(a) && AllAscii(b)
  {
    assert forall i :: 0 <= i < |a| ==> (a + b)[i] == a[i];
    assert forall i :: 0 <= i < |b| ==> (a + b)[|a| + i] == b[i];
  }

  // ---------- which whole sequences are UTF-8 ----------

  predicate AllScalar(points: seq<nat>) {
    forall i :: 0 <= i < |points| ==> Scalar(points[i])
  }

  predicate Encodes(points: seq<nat>, s: string) {
    AllScalar(points) && EncodeAll(points) == s
  }

  /** UTF-8 (section 4 of RFC 3629) has no longer form than needed, no surrogate, and
      nothing above 0x10FFFF: what that means for a byte and for the one behind it. */
  predicate StrictByte(c: char) {
    c as int != 0xc0 && c as int != 0xc1 && c as int < 0xf5
  }

  predicate StrictPair(a: char, b: char) {
    && (a as int == 0xe0 ==> b as int >= 0xa0) && (a as int == 0xed ==> b as int < 0xa0)
    && (a as int == 0xf0 ==> b as int >= 0x90) && (a as int == 0xf4 ==> b as int < 0x90)
  }

  predicate Strict(s: string) {
    && (forall i :: 0 <= i < |s| ==> StrictByte(s[i]))
    && (forall i :: 0 < i < |s| ==> StrictPair(s[i - 1], s[i]))
  }

  predicate AllContinue(tail: string) {
    forall i :: 0 <= i < |tail| ==> Continuation(tail[i])
  }

  /** Whole sequences, each of which decodes. */
  predicate WellFormed(s: string) {
    s == "" ||
    var n := UnitLength(s[0]);
    0 < n <= |s| && DecodeUTF8(s[..n]).Some? && WellFormed(s[n..])
  }

  lemma {:induction false} ContinuedSplit(s: string, n: nat)
    ensures Continued(s, n) <==> n <= |s| && AllContinue(s[..n]) && Continued(s[n..], 0)
  {
    if n == 0 {
      assert s[0..] == s;
    } else if s != "" {
      ContinuedSplit(s[1..], n - 1);
      if n <= |s| {
        assert s[1..][n - 1..] == s[n..];
        assert s[..n] == [s[0]] + s[1..][..n - 1];
        AllContinueCons(s[0], s[1..][..n - 1]);
      }
    }
  }

  lemma AllContinueCons(c: char, tail: string)
    ensures AllContinue([c] + tail) <==> Continuation(c) && AllContinue(tail)
  {
    var s := [c] + tail;
    assert s[0] == c;
    assert forall i :: 0 <= i < |tail| ==> tail[i] == s[i + 1];
    assert forall i :: 0 < i < |s| ==> s[i] == tail[i - 1];
  }

  lemma WholeStep(s: string)
    requires s != ""
    ensures var n := UnitLength(s[0]);
            WholeSequences(s) <==>
            0 < n <= |s| && AllContinue(s[1..n]) && WholeSequences(s[n..])
  {
    var n := UnitLength(s[0]);
    hide UnitLength, AllContinue;
    assert WholeSequences(s) <==> n > 0 && Continued(s[1..], n - 1);
    if n > 0 {
      ContinuedSplit(s[1..], n - 1);
      if n <= |s| {
        assert s[1..][..n - 1] == s[1..n] && s[1..][n - 1..] == s[n..];
      }
    }
  }

  /** The strictness of a text is that of its first sequence and of the rest. */
  lemma StrictSplit(s: string, n: nat)
    requires 0 < n <= |s| && (n == 1 ==> s[0] as int < 0x80) && AllContinue(s[1..n])
    ensures Strict(s) <==> Strict(s[..n]) && Strict(s[n..])
  {
    var u, rest := s[..n], s[n..];
    if n > 1 {
      assert Continuation(s[1..n][n - 2]) && s[n - 1] == s[1..n][n - 2];
    }
    if Strict(u) && Strict(rest) {
      forall i | 0 <= i < |s|
        ensures StrictByte(s[i])
        ensures i > 0 ==> StrictPair(s[i - 1], s[i])
      {
        if i >= n {
          assert s[i] == rest[i - n];
          assert i > n ==> s[i - 1] == rest[i - 1 - n];
        } else {
          assert s[i] == u[i];
          assert i > 0 ==> s[i - 1] == u[i - 1];
        }
      }
    }
    if Strict(s) {
      assert forall i :: 0 <= i < |rest| ==> rest[i] == s[n + i];
    }
  }

  /** A sequence decodes if and only if it is strict. */
  lemma UnitDecodes(u: string)
    requires u != "" && UnitLength(u[0]) == |u| && AllContinue(u[1..])
    ensures DecodeUTF8(u).Some? <==> Strict(u)
  {
    assert forall i :: 1 <= i < |u| ==> Continuation(u[i]) by {
      assert forall i :: 1 <= i < |u| ==> u[i] == u[1..][i - 1];
    }
    assert StrictByte(u[0]) && (|u| > 1 ==> StrictPair(u[0], u[1])) ==> Strict(u);
    assert Strict(u) ==> StrictByte(u[0]) && (|u| > 1 ==> StrictPair(u[0], u[1]));
    hide Strict, AllContinue;
  }

  lemma DecodedIsUnit(u: string)
    requires u != "" && |u| == UnitLength(u[0]) && DecodeUTF8(u).Some?
    ensures AllContinue(u[1..])
  {
    assert forall i :: 0 <= i < |u[1..]| ==> u[1..][i] == u[i + 1];
  }

  lemma {:induction false} WellFormedIsStrict(s: string)
    ensures WellFormed(s) <==> WholeSequences(s) && Strict(s)
    decreases |s|
  {
    hide DecodeUTF8, UnitLength, Continued, Strict, AllContinue;
    if s == "" {
      EmptyText();
    } else {
      var n := UnitLength(s[0]);
      WholeStep(s);
      if 0 < n <= |s| {
        WellFormedIsStrict(s[n..]);
        var u := s[..n];
        assert u[0] == s[0] && u[1..] == s[1..n];
        if DecodeUTF8(u).Some? {
          DecodedIsUnit(u);
        }
        if AllContinue(s[1..n]) {
          OneByte(s[0]);
          StrictSplit(s, n);
          UnitDecodes(u);
        }
      }
    }
  }

  lemma EmptyText()
    ensures WholeSequences("") && Strict("") && WellFormed("")
  {
  }

  lemma OneByte(c: char)
    ensures UnitLength(c) == 1 <==> c as int < 0x80
  {
  }

  lemma {:induction false} EncodedIsWellFormed(points: seq<nat>)
    requires AllScalar(points)
    ensures WellFormed(EncodeAll(points))
  {
    hide DecodeUTF8, UnitLength, CodePointToUTF8, Scalar;
    if points != [] {
      var u, rest := CodePointToUTF8(points[0]), EncodeAll(points[1..]);
      EncodedIsWellFormed(points[1..]);
      ScalarSmall(points[0]);
      EncodedIsSequence(points[0]);
      UTF8RoundTrip(points[0]);
      assert (u + rest)[..|u|] == u && (u + rest)[|u|..] == rest;
    }
  }

  lemma ScalarSmall(cp: nat)
    requires Scalar(cp)
    ensures cp <= 0x10ffff
  {
  }

  lemma {:induction false} PointsOf(s: string) returns (points: seq<nat>)
    requires WellFormed(s)
    ensures Encodes(points, s)
    decreases |s|
  {
    hide DecodeUTF8, UnitLength, CodePointToUTF8, Scalar;
    if s == "" {
      points := [];
    } else {
      var n := UnitLength(s[0]);
      var more := PointsOf(s[n..]);
      UTF8Unique(s[..n]);
      points := [DecodeUTF8(s[..n]).value] + more;
      assert points[1..] == more;
      assert s == s[..n] + s[n..];
    }
  }

  /** Whole sequences are UTF-8 if and only if they are strict; `IsTextUTF8` does not look. */
  lemma WellFormedIff(s: string)
    ensures (exists points :: Encodes(points, s)) <==> WholeSequences(s) && Strict(s)
  {
    hide WellFormed, WholeSequences, Strict, EncodeAll, AllScalar;
    WellFormedIsStrict(s);
    forall points | Encodes(points, s) ensures WellFormed(s) {
      EncodedIsWellFormed(points);
    }
    if WellFormed(s) {
      var _ := PointsOf(s);
    }
  }

  /** 0xFE with four continuation bytes passes for UTF-8 and encodes nothing. */
  lemma FiveByteExample(s: string)
    requires s == [0xfe as char, 0x80 as char, 0x80 as char, 0x80 as char, 0x80 as char]
    ensures WholeSequences(s) && !AllAscii(s)
    ensures !exists points :: Encodes(points, s)
  {
    hide Continued, Encodes;
    WholeStep(s);
    assert s[5..] == "";
    EmptyText();
    assert !StrictByte(s[0]);
    WellFormedIff(s);
  }
}
