/** The length-prefixed message frames of the socket protocol: `Message` prints
    a payload as "<length>:<payload>", `ClientSocket` cuts frames out of whatever
    pieces the network delivers. A `char` stands for one byte. */
module Framing {
  import opened CStrings
  import opened Decimal

  const MAX_INT := 0x7fff_ffff

  // ---------- StringUtils ----------

  /** `std::string::find_first_of`: index of the first occurrence, or -1. */
  function FindFirstSymbol(symbol: char, str: string): (index: int)
    ensures -1 <= index < |str|
    ensures index < 0 ==> symbol !in str
    ensures index >= 0 ==> str[index] == symbol && symbol !in str[..index]
  {
    if str == "" then -1
    else if str[0] == symbol then 0
    else
      var rest := FindFirstSymbol(symbol, str[1..]);
      if rest < 0 then -1 else rest + 1
  }

  /** `substr(0, length)`, which stops at the end of the string. */
  function HeadSubString(str: string, length: nat): string {
    if length <= |str| then str[..length] else str
  }

  /** `erase(0, length)`, which stops at the end of the string. */
  function ShiftStringLeft(str: string, length: nat): string {
    if length <= |str| then str[length..] else ""
  }

  // ---------- atoi ----------

  predicate IsSpace(c: char) {
    c == ' ' || 9 <= c as int <= 13
  }

  function SkipSpace(s: string): string {
    if s != "" && IsSpace(s[0]) then SkipSpace(s[1..]) else s
  }

  function LeadingDigits(s: string): (r: string)
    ensures AllDigits(r)
    ensures |r| <= |s| && r == s[..|r|]
    ensures AllDigits(s) ==> r == s
  {
    if s != "" && IsDigit(s[0]) then [s[0]] + LeadingDigits(s[1..]) else ""
  }

  /** C's `atoi` on values that fit an `int`. */
  function Atoi(s: string): int {
    var t := SkipSpace(s);
    if t != "" && t[0] == '-' then 0 - ValueOf(LeadingDigits(t[1..]))
    else if t != "" && t[0] == '+' then ValueOf(LeadingDigits(t[1..]))
    else ValueOf(LeadingDigits(t))
  }

  /** Space, tab, line feed, vertical tab, form feed and carriage return. */
  predicate White(c: char) {
    c as int == 0x20 || 0x09 <= c as int <= 0x0d
  }

  /** White space, at most one sign, digits, and whatever does not prolong them. */
  predicate AtoiText(space: string, sign: string, digits: string, rest: string) {
    && (forall i :: 0 <= i < |space| ==> White(space[i]))
    && (sign == "" || sign == "+" || sign == "-")
    && AllDigits(digits) && (rest == "" || !IsDigit(rest[0]))
    && (sign == "" && digits == "" && rest != "" ==> !White(rest[0]) && rest[0] != '+' && rest[0] != '-')
  }

  lemma {:induction false} SkipSpaceIs(s: string) returns (space: string)
    ensures s == space + SkipSpace(s) && forall i :: 0 <= i < |space| ==> White(space[i])
    ensures SkipSpace(s) != "" ==> !White(SkipSpace(s)[0])
  {
    space := "";
    if s != "" && IsSpace(s[0]) {
      space := SkipSpaceIs(s[1..]);
      space := [s[0]] + space;
    }
  }

  lemma {:induction false} LeadingDigitsIs(s: string)
    ensures var n := |LeadingDigits(s)|; s == LeadingDigits(s) + s[n..] && (n < |s| ==> !IsDigit(s[n]))
  {
    if s != "" && IsDigit(s[0]) {
      LeadingDigitsIs(s[1..]);
    }
  }

  /** Every text has such parts, and `atoi` gives the signed number of its digits. */
  lemma AtoiIs(s: string) returns (space: string, sign: string, digits: string, rest: string)
    ensures s == space + sign + digits + rest && AtoiText(space, sign, digits, rest)
    ensures Atoi(s) == if sign == "-" then 0 - ValueOf(digits) else ValueOf(digits)
  {
    hide SkipSpace, LeadingDigits, ValueOf, AllDigits;
    space := SkipSpaceIs(s);
    var t := SkipSpace(s);
    sign := if t != "" && (t[0] == '+' || t[0] == '-') then t[..1] else "";
    var tail := t[|sign|..];
    LeadingDigitsIs(tail);
    digits, rest := LeadingDigits(tail), tail[|LeadingDigits(tail)|..];
    assert t == sign + tail && (sign == "" ==> tail == t);
    Joined(space, sign, digits, rest);
  }

  lemma Joined(space: string, sign: string, digits: string, rest: string)
    ensures space + (sign + (digits + rest)) == space + sign + digits + rest
  {
  }

  lemma AtoiPrint(n: nat)
    ensures Atoi(Print(n)) == n
  {
    PrintRoundTrip(n);
    var s := Print(n);
    assert IsDigit(s[0]);
    assert SkipSpace(s) == s;
  }

  // ---------- the framing loop, as a function of the buffer ----------

  /** What one call of the framing loop leaves: whether every header was legal,
      the messages it emitted, and the bytes it keeps for the next call. */
  datatype Drained = Drained(ok: bool, messages: seq<string>, rest: string) {
    /** The same outcome with `first` emitted before it. */
    function After(first: seq<string>): Drained {
      Drained(ok, first + messages, rest)
    }
  }

  /** The result of one frame at the head of the buffer. */
  datatype Step = Wait | Illegal | Emit(message: string, rest: string)

  /** The text before the first colon, as `atoi` gets to see it. */
  function Header(buffer: string): (header: string)
    requires ':' in buffer
    ensures |header| < |buffer|
  {
    CString(buffer[..FindFirstSymbol(':', buffer)])
  }

  /** The bytes after the first colon. */
  function Body(buffer: string): (body: string)
    requires ':' in buffer
    ensures |body| < |buffer|
  {
    ShiftStringLeft(buffer, FindFirstSymbol(':', buffer) + 1)
  }

  function NextFrame(buffer: string): (s: Step)
    ensures s.Emit? ==> |s.rest| < |buffer|
  {
    if FindFirstSymbol(':', buffer) < 0 then Wait
    else
      var length := Atoi(Header(buffer));
      if length <= 0 then Illegal
      else if length > |buffer| - |Header(buffer)| - 1 then Wait
      else Emit(HeadSubString(Body(buffer), length), ShiftStringLeft(Body(buffer), length))
  }

  function Drain(buffer: string): Drained
    decreases |buffer|
  {
    match NextFrame(buffer)
    case Wait => Drained(true, [], buffer)
    case Illegal => Drained(false, [], buffer)
    case Emit(message, rest) => Drain(rest).After([message])
  }

  lemma DrainEmpty()
    ensures NextFrame("") == Wait && Drain("") == Drained(true, [], "")
  {
  }

  // ---------- chunking ----------

  /** Whether the frame at the head of the buffer was cut short: its header held
      a NUL byte, so the length check counted fewer header bytes than there are. */
  predicate Clipped(buffer: string) {
    ':' in buffer && NextFrame(buffer).Emit? && Atoi(Header(buffer)) > |Body(buffer)|
  }

  /** No frame that `Drain` emits was cut short. */
  predicate Exact(buffer: string)
    decreases |buffer|
  {
    var s := NextFrame(buffer);
    s.Emit? ==> !Clipped(buffer) && Exact(s.rest)
  }

  /** Two successive receives: drain `a`, then drain what is left followed by `b`. */
  function Resume(a: string, b: string): Drained {
    var d := Drain(a);
    if d.ok then Drain(d.rest + b).After(d.messages) else Drained(false, d.messages, d.rest + b)
  }

  lemma {:induction false} FindFirstAppend(symbol: char, a: string, b: string)
    requires symbol in a
    ensures FindFirstSymbol(symbol, a + b) == FindFirstSymbol(symbol, a)
  {
    assert (a + b)[0] == a[0];
    if a[0] != symbol {
      assert (a + b)[1..] == a[1..] + b;
      FindFirstAppend(symbol, a[1..], b);
    }
  }

  lemma HeadAppend(a: string, b: string)
    requires ':' in a
    ensures Header(a + b) == Header(a) && Body(a + b) == Body(a) + b
  {
    FindFirstAppend(':', a, b);
    var index := FindFirstSymbol(':', a);
    assert (a + b)[..index] == a[..index];
  }

  lemma NextFrameAppend(a: string, b: string)
    requires b != "" && NextFrame(a) != Wait
    ensures NextFrame(a).Illegal? ==> NextFrame(a + b) == Illegal
    ensures NextFrame(a).Emit? && !Clipped(a) ==>
              NextFrame(a + b) == Emit(NextFrame(a).message, NextFrame(a).rest + b)
    ensures NextFrame(a).Emit? && Clipped(a) ==>
              NextFrame(a + b).Emit? && |NextFrame(a + b).message| > |NextFrame(a).message|
  {
    hide Header, Body, Atoi, FindFirstSymbol;
    HeadAppend(a, b);
    var length := Atoi(Header(a));
    if length > 0 {
      CutAppend(Body(a), b, length);
    }
  }

  lemma CutAppend(body: string, b: string, length: nat)
    ensures length <= |body| ==>
              && HeadSubString(body + b, length) == HeadSubString(body, length)
              && ShiftStringLeft(body + b, length) == ShiftStringLeft(body, length) + b
    ensures length > |body| && b != "" ==> |HeadSubString(body + b, length)| > |HeadSubString(body, length)|
  {
  }

  /** Receiving `a` and then `b` has the same effect as receiving both at once,
      for arbitrary bytes, exactly when no frame in `a` was cut short by a NUL in
      its header. */
  lemma {:induction false} ChunkingIrrelevantIff(a: string, b: string)
    requires b != ""
    ensures Drain(a + b) == Resume(a, b) <==> Exact(a)
    decreases |a|
  {
    match NextFrame(a) {
      case Wait =>
        assert [] + Drain(a + b).messages == Drain(a + b).messages;
      case Illegal =>
        NextFrameAppend(a, b);
      case Emit(message, rest) =>
        NextFrameAppend(a, b);
        ResumeAfter(a, b);
        if Clipped(a) {
          assert Drain(a + b).messages[0] != message;
        } else {
          ChunkingIrrelevantIff(rest, b);
          AfterInjective(message, Drain(rest + b), Resume(rest, b));
        }
    }
  }

  lemma ResumeAfter(a: string, b: string)
    requires NextFrame(a).Emit?
    ensures Resume(a, b) == Resume(NextFrame(a).rest, b).After([NextFrame(a).message])
  {
    hide NextFrame;
    var message, d := NextFrame(a).message, Drain(NextFrame(a).rest);
    var e := Drain(d.rest + b);
    assert ([message] + d.messages) + e.messages == [message] + (d.messages + e.messages);
  }

  lemma AfterInjective(message: string, d: Drained, e: Drained)
    ensures d.After([message]) == e.After([message]) <==> d == e
  {
    assert ([message] + d.messages)[1..] == d.messages;
    assert ([message] + e.messages)[1..] == e.messages;
  }

  lemma {:induction false} NulFreeIsExact(buffer: string)
    requires '\0' !in buffer
    ensures Exact(buffer)
    decreases |buffer|
  {
    var s := NextFrame(buffer);
    if s.Emit? {
      var index := FindFirstSymbol(':', buffer);
      assert '\0' !in buffer[..index];
      NulFreeIsExact(s.rest);
    }
  }

  /** A header with a NUL in it makes the outcome depend on the chunking. */
  lemma NulHeaderExample()
    ensures !Exact("1\0:")
    ensures Drain("1\0:" + "x") != Resume("1\0:", "x")
  {
    var a := "1\0:";
    assert a[1..] == "\0:" && a[1..][1..] == ":";
    assert FindFirstSymbol(':', a) == 2;
    var h := a[..2];
    assert h == "1\0" && h[1..] == "\0";
    assert Header(a) == "1";
    AtoiPrint(1);
    assert Print(1) == "1";
    ChunkingIrrelevantIff(a, "x");
  }

  /** An illegal header stays at the head of the buffer for ever: every later
      receive fails again and emits nothing. */
  lemma IllegalHeaderIsFinal(buffer: string, more: string)
    requires !Drain(buffer).ok
    ensures Drain(Drain(buffer).rest + more) == Drained(false, [], Drain(buffer).rest + more)
  {
    IllegalRest(buffer);
    var rest := Drain(buffer).rest;
    if more == "" {
      assert rest + more == rest;
    } else {
      NextFrameAppend(rest, more);
    }
  }

  lemma {:induction false} IllegalRest(buffer: string)
    requires !Drain(buffer).ok
    ensures NextFrame(Drain(buffer).rest) == Illegal
    decreases |buffer|
  {
    if NextFrame(buffer).Emit? {
      IllegalRest(NextFrame(buffer).rest);
    }
  }

  /** A frame as a receiver takes it: the text before the colon, NUL bytes included,
      has the payload's length as its number. */
  datatype Cut = Cut(header: string, payload: string) {
    predicate Legal() {
      ':' !in header && Atoi(CString(header)) == |payload| && payload != ""
    }

    function Text(): string {
      header + ":" + payload
    }
  }

  function Texts(cuts: seq<Cut>): string {
    if cuts == [] then "" else cuts[0].Text() + Texts(cuts[1..])
  }

  /** The buffer is whole frames, then a header whose number is not positive. */
  predicate Spoilt(buffer: string, cuts: seq<Cut>, header: string, tail: string) {
    && (forall i :: 0 <= i < |cuts| ==> cuts[i].Legal())
    && ':' !in header && Atoi(CString(header)) <= 0
    && buffer == Texts(cuts) + (header + ":" + tail)
  }

  lemma CutStep(cut: Cut, tail: string)
    requires cut.Legal()
    ensures NextFrame(cut.Text() + tail) == Emit(cut.payload, tail)
  {
    hide Header, Body, Atoi, FindFirstSymbol, CString;
    var body := cut.payload + tail;
    assert cut.Text() + tail == cut.header + ":" + body;
    HeaderOf(cut.header, body);
    assert body[..|cut.payload|] == cut.payload && body[|cut.payload|..] == tail;
  }

  lemma {:induction false} SpoiltFails(buffer: string, cuts: seq<Cut>, header: string, tail: string)
    requires Spoilt(buffer, cuts, header, tail)
    ensures !Drain(buffer).ok
    decreases |cuts|
  {
    hide NextFrame, CString, Atoi;
    var spoil := header + ":" + tail;
    if cuts == [] {
      assert buffer == spoil;
      HeaderOf(header, tail);
      IllegalAt(buffer);
    } else {
      var rest := Texts(cuts[1..]) + spoil;
      assert buffer == cuts[0].Text() + rest;
      CutStep(cuts[0], rest);
      SpoiltFails(rest, cuts[1..], header, tail);
    }
  }

  lemma IllegalAt(buffer: string)
    requires ':' in buffer && Atoi(Header(buffer)) <= 0
    ensures NextFrame(buffer) == Illegal
  {
    hide Header, Atoi;
  }

  lemma EmitParts(buffer: string)
    requires NextFrame(buffer).Emit? && NextFrame(buffer).rest != ""
    ensures ':' in buffer
    ensures var length, body := Atoi(Header(buffer)), Body(buffer);
            0 < length < |body| && NextFrame(buffer) == Emit(body[..length], body[length..])
  {
    hide Atoi, Header, Body;
  }

  lemma Around(s: string, i: nat)
    requires i < |s|
    ensures s == s[..i] + [s[i]] + s[i + 1..]
  {
  }

  lemma HeadParts(buffer: string)
    requires ':' in buffer
    ensures var index := FindFirstSymbol(':', buffer);
            && 0 <= index < |buffer| && ':' !in buffer[..index]
            && Header(buffer) == CString(buffer[..index]) && Body(buffer) == buffer[index + 1..]
            && buffer == buffer[..index] + ":" + buffer[index + 1..]
  {
    hide CString, FindFirstSymbol;
    Around(buffer, FindFirstSymbol(':', buffer));
  }

  /** The frame at the head of the buffer, when more follows it. */
  lemma CutOf(buffer: string) returns (cut: Cut)
    requires NextFrame(buffer).Emit? && NextFrame(buffer).rest != ""
    ensures cut.Legal() && buffer == cut.Text() + NextFrame(buffer).rest
  {
    hide NextFrame, Atoi, CString, Header, Body, FindFirstSymbol;
    EmitParts(buffer);
    HeadParts(buffer);
    var head, body, length := buffer[..FindFirstSymbol(':', buffer)], Body(buffer), Atoi(Header(buffer));
    cut := Cut(head, body[..length]);
    assert body == body[..length] + body[length..];
    assert head + ":" + (body[..length] + body[length..]) == (head + ":" + body[..length]) + body[length..];
  }

  lemma SpoiltMore(cut: Cut, rest: string, cuts: seq<Cut>, header: string, tail: string)
    requires cut.Legal() && Spoilt(rest, cuts, header, tail)
    ensures Spoilt(cut.Text() + rest, [cut] + cuts, header, tail)
  {
    hide CString, Atoi, Cut.Legal, Cut.Text;
    var all := [cut] + cuts;
    assert all[0] == cut && all[1..] == cuts;
    forall i | 0 <= i < |all| ensures all[i].Legal() {
      assert i > 0 ==> all[i] == cuts[i - 1];
    }
    assert Texts(all) + (header + ":" + tail) == cut.Text() + (Texts(cuts) + (header + ":" + tail));
  }

  lemma SpoiltHere(buffer: string) returns (header: string, tail: string)
    requires NextFrame(buffer).Illegal?
    ensures Spoilt(buffer, [], header, tail)
  {
    hide Atoi, CString;
    var index := FindFirstSymbol(':', buffer);
    header, tail := buffer[..index], buffer[index + 1..];
    assert buffer == header + ":" + tail;
  }

  lemma {:induction false} SpoiltParts(buffer: string) returns (cuts: seq<Cut>, header: string, tail: string)
    requires !Drain(buffer).ok
    ensures Spoilt(buffer, cuts, header, tail)
    decreases |buffer|
  {
    hide NextFrame, Spoilt, Cut.Legal, Cut.Text;
    if NextFrame(buffer).Emit? {
      var rest := NextFrame(buffer).rest;
      DrainEmpty();
      var cut := CutOf(buffer);
      cuts, header, tail := SpoiltParts(rest);
      SpoiltMore(cut, rest, cuts, header, tail);
      cuts := [cut] + cuts;
    } else {
      header, tail := SpoiltHere(buffer);
      cuts := [];
    }
  }

  lemma {:induction false} RestWaits(buffer: string)
    requires Drain(buffer).ok
    ensures NextFrame(Drain(buffer).rest) == Wait
    decreases |buffer|
  {
    if NextFrame(buffer).Emit? {
      RestWaits(NextFrame(buffer).rest);
    }
  }

  /** One byte behind what waits for more: another wait, or the last frame. */
  lemma OneMoreByte(rest: string)
    requires NextFrame(rest) == Wait
    ensures Drain(rest + "x").ok
  {
    hide Header, Body, Atoi, FindFirstSymbol;
    var buffer := rest + "x";
    DrainEmpty();
    if ':' in rest {
      HeadAppend(rest, "x");
      HeadBodyLength(rest);
      assert NextFrame(buffer).Emit? ==> NextFrame(buffer).rest == "";
    } else {
      assert ':' !in buffer;
    }
  }

  lemma HeadBodyLength(buffer: string)
    requires ':' in buffer
    ensures |Header(buffer)| + |Body(buffer)| + 1 <= |buffer|
  {
    HeadParts(buffer);
  }

  /** Every later receive fails, whatever bytes it delivers, if and only if the buffer is
      whole frames followed by a header whose number is not positive. */
  lemma FailsForEverIff(buffer: string)
    ensures (forall more | more != "" :: !Drain(Drain(buffer).rest + more).ok) <==>
            exists cuts, header, tail :: Spoilt(buffer, cuts, header, tail)
  {
    hide Drain, Spoilt, NextFrame;
    forall cuts, header, tail | Spoilt(buffer, cuts, header, tail) ensures !Drain(buffer).ok {
      SpoiltFails(buffer, cuts, header, tail);
    }
    if !Drain(buffer).ok {
      var _, _, _ := SpoiltParts(buffer);
      forall more | more != "" ensures !Drain(Drain(buffer).rest + more).ok {
        IllegalHeaderIsFinal(buffer, more);
      }
    } else {
      RestWaits(buffer);
      OneMoreByte(Drain(buffer).rest);
    }
  }

  /** The frame of an empty payload is such a header. */
  lemma ZeroHeaderExample(more: string)
    ensures Drain("0:") == Drained(false, [], "0:")
    ensures Drain("0:" + more) == Drained(false, [], "0:" + more)
  {
    var buffer := "0:";
    assert Print(0) == "0";
    AtoiPrint(0);
    assert buffer == "0" + ":" + "";
    HeaderOf("0", "");
    IllegalAt(buffer);
    IllegalHeaderIsFinal(buffer, more);
  }

  // ---------- framed payloads ----------

  function Frame(payload: string): string {
    Print(|payload|) + ":" + payload
  }

  function Frames(payloads: seq<string>): string {
    if payloads == [] then "" else Frame(payloads[0]) + Frames(payloads[1..])
  }

  predicate Sendable(payload: string) {
    0 < |payload| <= MAX_INT
  }

  lemma {:induction false} FindColon(header: string, tail: string)
    requires ':' !in header
    ensures FindFirstSymbol(':', header + ":" + tail) == |header|
  {
    var s := header + ":" + tail;
    if header == "" {
      assert s[0] == ':';
    } else {
      assert s[0] == header[0];
      assert s[1..] == header[1..] + ":" + tail;
      FindColon(header[1..], tail);
    }
  }

  /** A complete frame is taken off whatever follows; an incomplete one waits. */
  lemma FrameStep(payload: string, n: nat, tail: string)
    requires Sendable(payload)
    requires n <= |Frame(payload)|
    ensures n < |Frame(payload)| ==> NextFrame(Frame(payload)[..n]) == Wait
    ensures NextFrame(Frame(payload) + tail) == Emit(payload, tail)
    ensures !Clipped(Frame(payload) + tail)
  {
    hide Header, Body, Atoi, FindFirstSymbol;
    var header := Print(|payload|);
    PrintRoundTrip(|payload|);
    AtoiPrint(|payload|);
    assert ':' !in header && '\0' !in header;
    if n <= |header| {
      assert Frame(payload)[..n] == header[..n];
      assert ':' !in header[..n];
    } else {
      var part := payload[..n - |header| - 1];
      assert Frame(payload)[..n] == header + ":" + part;
      HeaderOf(header, part);
    }
    var body := payload + tail;
    assert Frame(payload) + tail == header + ":" + body;
    HeaderOf(header, body);
    assert body[..|payload|] == payload && body[|payload|..] == tail;
  }

  lemma HeaderOf(header: string, tail: string)
    requires ':' !in header
    ensures var s := header + ":" + tail;
            ':' in s && Header(s) == CString(header) && Body(s) == tail
  {
    FindColon(header, tail);
    assert (header + ":" + tail)[..|header|] == header;
    assert (header + ":" + tail)[|header| + 1..] == tail;
  }

  /** How many payloads have arrived completely once n bytes of the stream are in. */
  function Arrived(payloads: seq<string>, n: nat): (k: nat)
    ensures k <= |payloads|
  {
    if payloads == [] || n < |Frame(payloads[0])| then 0
    else 1 + Arrived(payloads[1..], n - |Frame(payloads[0])|)
  }

  /** `Arrived` is the largest number of whole frames inside the first n bytes. */
  lemma {:induction false} ArrivedIsLargest(payloads: seq<string>, n: nat)
    ensures var k := Arrived(payloads, n);
            && |Frames(payloads[..k])| <= n
            && (k < |payloads| ==> n < |Frames(payloads[..k + 1])|)
    decreases payloads
  {
    if payloads == [] || n < |Frame(payloads[0])| {
      assert payloads[..0] == [];
      if payloads != [] {
        assert payloads[..1] == [payloads[0]] && payloads[..1][1..] == [];
      }
    } else {
      var k := Arrived(payloads, n);
      ArrivedIsLargest(payloads[1..], n - |Frame(payloads[0])|);
      assert payloads[..k][1..] == payloads[1..][..k - 1];
      if k < |payloads| {
        assert payloads[..k + 1][1..] == payloads[1..][..k];
      }
    }
  }

  /** What a receiver holds once the first n bytes of the framed stream are in. */
  function Expected(payloads: seq<string>, n: nat): Drained
    requires n <= |Frames(payloads)|
    decreases payloads
  {
    if payloads == [] || n < |Frame(payloads[0])| then Drained(true, [], Frames(payloads)[..n])
    else Expected(payloads[1..], n - |Frame(payloads[0])|).After([payloads[0]])
  }

  lemma FramesPrefix(payloads: seq<string>, n: nat)
    requires payloads != [] && n <= |Frames(payloads)|
    ensures var first := Frame(payloads[0]);
            Frames(payloads)[..n] ==
            if n < |first| then first[..n] else first + Frames(payloads[1..])[..n - |first|]
  {
    hide Frame;
  }

  lemma {:induction false} DrainIsExpected(payloads: seq<string>, n: nat)
    requires forall p :: p in payloads ==> Sendable(p)
    requires n <= |Frames(payloads)|
    ensures Drain(Frames(payloads)[..n]) == Expected(payloads, n)
    ensures Exact(Frames(payloads)[..n])
    decreases payloads
  {
    hide NextFrame, Frame, Clipped;
    if payloads == [] {
      assert Frames(payloads)[..n] == "";
      DrainEmpty();
    } else {
      FramesPrefix(payloads, n);
      var first, tail := Frame(payloads[0]), Frames(payloads[1..]);
      if n < |first| {
        FrameStep(payloads[0], n, "");
      } else {
        FrameStep(payloads[0], 0, tail[..n - |first|]);
        DrainIsExpected(payloads[1..], n - |first|);
      }
    }
  }

  /** `Expected`, said with indices: the payloads inside the first n bytes, and
      the bytes behind the last of them. */
  lemma {:induction false} ExpectedIsPrefix(payloads: seq<string>, n: nat)
    requires n <= |Frames(payloads)|
    ensures var k := Arrived(payloads, n);
            && |Frames(payloads[..k])| <= n
            && Expected(payloads, n) ==
               Drained(true, payloads[..k], Frames(payloads)[|Frames(payloads[..k])|..n])
    decreases payloads
  {
    hide Frame;
    var k := Arrived(payloads, n);
    if k == 0 {
      assert payloads[..0] == [];
    } else {
      var first, tail := Frame(payloads[0]), Frames(payloads[1..]);
      ExpectedIsPrefix(payloads[1..], n - |first|);
      assert payloads[..k] == [payloads[0]] + payloads[1..][..k - 1];
      assert payloads[..k][1..] == payloads[1..][..k - 1];
      var done := |Frames(payloads[1..][..k - 1])|;
      assert tail[done..n - |first|] == (first + tail)[|first| + done..n];
    }
  }

  /** The state after receiving the chunks one by one. */
  function Receive(buffer: string, chunks: seq<string>): Drained
    decreases chunks
  {
    if chunks == [] then Drained(true, [], buffer)
    else
      var d := Drain(buffer + chunks[0]);
      if d.ok then Receive(d.rest, chunks[1..]).After(d.messages) else d
  }

  function Concat(chunks: seq<string>): string {
    if chunks == [] then "" else chunks[0] + Concat(chunks[1..])
  }

  lemma AfterAfter(d: Drained, first: seq<string>, second: seq<string>)
    ensures d.After(second).After(first) == d.After(first + second)
  {
    assert first + (second + d.messages) == (first + second) + d.messages;
  }

  /** One receive more moves from one prefix of the framed stream to the next. */
  lemma ReceiveChunk(payloads: seq<string>, n: nat, c: string)
    requires forall p :: p in payloads ==> Sendable(p)
    requires n + |c| <= |Frames(payloads)| && Frames(payloads)[n..n + |c|] == c
    ensures var d := Drain(Frames(payloads)[..n]);
            d.ok && Drain(Frames(payloads)[..n + |c|]) == Drain(d.rest + c).After(d.messages)
  {
    hide NextFrame, Drain, Frames, Expected, Exact, Arrived;
    var stream := Frames(payloads);
    DrainIsExpected(payloads, n);
    ExpectedIsPrefix(payloads, n);
    assert stream[..n + |c|] == stream[..n] + c;
    if c == "" {
      DrainRest(stream[..n]);
      assert Drain(stream[..n]).rest + c == Drain(stream[..n]).rest;
    } else {
      ChunkingIrrelevantIff(stream[..n], c);
    }
  }

  lemma {:induction false} ReceiveIsDrain(payloads: seq<string>, n: nat, chunks: seq<string>)
    requires forall p :: p in payloads ==> Sendable(p)
    requires n <= |Frames(payloads)| && Concat(chunks) <= Frames(payloads)[n..]
    ensures var d := Drain(Frames(payloads)[..n]);
            Receive(d.rest, chunks).After(d.messages) == Drain(Frames(payloads)[..n + |Concat(chunks)|])
    decreases chunks
  {
    hide NextFrame, Drain, Frames, Expected, Arrived, Sendable;
    var stream := Frames(payloads);
    var d := Drain(stream[..n]);
    if chunks == [] {
      DrainSucceeds(payloads, n);
      assert d.messages + [] == d.messages;
    } else {
      var c, more := chunks[0], Concat(chunks[1..]);
      ChunkText(stream, n, c, more);
      ReceiveChunk(payloads, n, c);
      ReceiveIsDrain(payloads, n + |c|, chunks[1..]);
      DrainSucceeds(payloads, n + |c|);
      AfterAfter(Receive(Drain(d.rest + c).rest, chunks[1..]), d.messages, Drain(d.rest + c).messages);
    }
  }

  lemma ChunkText(stream: string, n: nat, c: string, more: string)
    requires n <= |stream| && c + more <= stream[n..]
    ensures n + |c| <= |stream| && c == stream[n..n + |c|] && more <= stream[n + |c|..]
  {
    assert stream[n..][..|c + more|] == c + more;
    assert c == (c + more)[..|c|];
    assert more == (c + more)[|c|..] == stream[n + |c|..][..|more|];
  }

  lemma DrainSucceeds(payloads: seq<string>, n: nat)
    requires forall p :: p in payloads ==> Sendable(p)
    requires n <= |Frames(payloads)|
    ensures Drain(Frames(payloads)[..n]).ok
  {
    hide Drain, Frames, Arrived, Sendable;
    DrainIsExpected(payloads, n);
    ExpectedIsPrefix(payloads, n);
  }

  /** Draining what a successful drain left emits nothing more. */
  lemma {:induction false} DrainRest(buffer: string)
    requires Drain(buffer).ok
    ensures Drain(Drain(buffer).rest) == Drained(true, [], Drain(buffer).rest)
    decreases |buffer|
  {
    if NextFrame(buffer).Emit? {
      DrainRest(NextFrame(buffer).rest);
    }
  }

  /** For every sequence of payloads and every way the network splits their
      frames: no receive fails, the messages emitted so far are exactly the
      payloads received completely, in order, and the buffer keeps exactly the
      bytes received after them. */
  lemma FramedDelivery(payloads: seq<string>, chunks: seq<string>)
    requires forall p :: p in payloads ==> Sendable(p)
    requires Concat(chunks) <= Frames(payloads)
    ensures var n := |Concat(chunks)|;
            var k := Arrived(payloads, n);
            && |Frames(payloads[..k])| <= n
            && Receive("", chunks) ==
               Drained(true, payloads[..k], Frames(payloads)[|Frames(payloads[..k])|..n])
  {
    hide Receive, Frames, Concat, Drain, NextFrame, Arrived;
    var stream := Frames(payloads);
    assert stream[0..] == stream && stream[..0] == "";
    DrainEmpty();
    ReceiveIsDrain(payloads, 0, chunks);
    assert [] + Receive("", chunks).messages == Receive("", chunks).messages;
    DrainIsExpected(payloads, |Concat(chunks)|);
    ExpectedIsPrefix(payloads, |Concat(chunks)|);
  }

  // ---------- Message and ClientSocket ----------

  /** The message classes' part of the protocol: type and data are joined into a
      small JSON object, and the object is framed. */
  class Message {
    var typ: string
    var data: string
    var message: string

    constructor (typ: string, data: string)
      ensures this.typ == typ && this.data == data && message == ""
    {
      this.typ, this.data, message := typ, data, "";
    }

    method JoinElements()
      modifies this`message
      ensures message == Frame(Payload(typ, data))
    {
      var ss := "{" + "\"type\"" + ":" + "\"" + typ + "\"";
      ss := ss + ", " + "\"data\"" + ":" + data + "}";
      var msg := ss;
      ss := Print(|msg|);
      ss := ss + ":";
      ss := ss + msg;
      message := ss;
    }
  }

  function Payload(typ: string, data: string): string {
    "{" + "\"type\"" + ":" + "\"" + typ + "\"" + ", " + "\"data\"" + ":" + data + "}"
  }

  /** The queue the caller hands to `ReadData`. */
  class MessageQueue {
    var items: seq<string>

    constructor ()
      ensures items == []
    {
      items := [];
    }

    method Push(item: string)
      modifies this
      ensures items == old(items) + [item]
    {
      items := items + [item];
    }
  }

  datatype ReadResult = Disconnected | Returned(code: int)

  lemma AfterNothing(d: Drained)
    ensures d.After([]) == d
  {
    assert [] + d.messages == d.messages;
  }

  /** One turn of the framing loop, for a receiver that has emitted `emitted` so far. */
  lemma LoopStep(buffer: string, emitted: seq<string>)
    ensures var index := FindFirstSymbol(':', buffer);
            index < 0 ==> Drain(buffer).After(emitted) == Drained(true, emitted, buffer)
    ensures var index := FindFirstSymbol(':', buffer);
            index >= 0 ==>
              var header := CString(HeadSubString(buffer, index));
              var length := Atoi(header);
              && (length <= 0 ==> Drain(buffer).After(emitted) == Drained(false, emitted, buffer))
              && (length > 0 && length > |buffer| - |header| - 1 ==>
                    Drain(buffer).After(emitted) == Drained(true, emitted, buffer))
              && (0 < length <= |buffer| - |header| - 1 ==>
                    var body := ShiftStringLeft(buffer, index + 1);
                    var rest := ShiftStringLeft(body, length);
                    |rest| < |buffer| &&
                    Drain(buffer).After(emitted) == Drain(rest).After(emitted + [HeadSubString(body, length)]))
  {
    hide Atoi, FindFirstSymbol, CString;
    DrainAfter(buffer, emitted);
  }

  lemma DrainAfter(buffer: string, emitted: seq<string>)
    ensures var d, s := Drain(buffer).After(emitted), NextFrame(buffer);
            && (s.Wait? ==> d == Drained(true, emitted, buffer))
            && (s.Illegal? ==> d == Drained(false, emitted, buffer))
            && (s.Emit? ==> d == Drain(s.rest).After(emitted + [s.message]))
  {
    hide NextFrame;
    assert emitted + [] == emitted;
    if NextFrame(buffer).Emit? {
      AfterAfter(Drain(NextFrame(buffer).rest), emitted, [NextFrame(buffer).message]);
    }
  }

  class ClientSocket {
    var fd: int
    var readBuffer: string

    constructor (id: int)
      ensures fd == id && readBuffer == ""
    {
      fd, readBuffer := id, "";
    }

    /** `received` is what `recv` delivers; nothing stands for an error or a closed peer. */
    method ReadData(received: string, q: MessageQueue) returns (result: ReadResult)
      modifies this`readBuffer, q
      ensures fd <= 0 ==> result == Disconnected
      ensures fd > 0 && received == "" ==> result == Returned(-1)
      ensures fd <= 0 || received == "" ==> readBuffer == old(readBuffer) && q.items == old(q.items)
      ensures fd > 0 && received != "" ==>
                var d := Drain(old(readBuffer) + received);
                && result == Returned(if d.ok then 0 else -1)
                && q.items == old(q.items) + d.messages
                && readBuffer == d.rest
    {
      hide *;
      if fd <= 0 {
        return Disconnected;
      }
      if received == "" {
        return Returned(-1);
      }
      readBuffer := readBuffer + received;
      ghost var whole := Drain(readBuffer);
      ghost var emitted: seq<string> := [];
      AfterNothing(whole);
      while true
        invariant q.items == old(q.items) + emitted
        invariant Drain(readBuffer).After(emitted) == whole
        decreases |readBuffer|
      {
        LoopStep(readBuffer, emitted);
        var index := FindFirstSymbol(':', readBuffer);
        if index >= 0 {
          var lenStr := CString(HeadSubString(readBuffer, index));
          var length := Atoi(lenStr);
          if length <= 0 {
            return Returned(-1);
          }
          if length <= |readBuffer| - |lenStr| - 1 {
            readBuffer := ShiftStringLeft(readBuffer, index + 1);
            var data := HeadSubString(readBuffer, length);
            readBuffer := ShiftStringLeft(readBuffer, length);
            q.Push(data);
            emitted := emitted + [data];
          } else {
            break;
          }
        } else {
          break;
        }
      }
      return Returned(0);
    }
  }
}
