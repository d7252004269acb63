/** The JSON writers as the library implements them: documents, indentation and
    scratch values updated in place. */
module JsonWriter {
  import opened CStrings
  import opened Decimal
  import opened JsonValue
  import opened JsonText
  import opened JsonSyntax
  import opened JsonPrint

  // ---------- valueToString ----------

  /** `3 * sizeof(LargestUInt) + 1`. */
  const BUFFER_SIZE := 25

  /** Conversion of a 64-bit integer to unsigned. */
  function ToUInt64(value: int): int {
    if value < 0 then value + 0x1_0000_0000_0000_0000 else value
  }

  lemma PrintFits(value: nat)
    requires value <= MAX_UINT64
    ensures 1 <= |Print(value)| <= 20
  {
    PrintRoundTrip(value);
    TenTo20();
    PrintLength(value, 20);
  }

  lemma TenTo20()
    ensures Power10(20) == 1_0000_0000_0000_0000_0000
  {
    assert Power10(4) == 1_0000;
    assert Power10(8) == 1_0000_0000;
    assert Power10(12) == 1_0000_0000_0000;
    assert Power10(16) == 1_0000_0000_0000_0000;
  }

  /** Writes the digits and the final NUL backwards from `current`. */
  method UintToString(value: nat, buffer: array<char>, current: nat) returns (next: nat)
    requires value <= MAX_UINT64 && BUFFER_SIZE <= current <= buffer.Length
    modifies buffer
    ensures 4 <= next && next + |Print(value)| + 1 == current
    ensures buffer[next..current] == Print(value) + "\0"
    ensures buffer[..next] == old(buffer[..next]) && buffer[current..] == old(buffer[current..])
  {
    hide Print, Remaining, DigitChar;
    PrintFits(value);
    var n := value;
    next := current - 1;
    buffer[next] := '\0';
    next := next - 1;
    buffer[next] := DigitChar(n % 10);
    ghost var done := [DigitChar(n % 10)];
    RemainingIs(n);
    n := n / 10;
    while n != 0
      invariant next + |done| + 1 == current && Remaining(n) + done == Print(value)
      invariant buffer[next..current] == done + "\0"
      invariant buffer[..next] == old(buffer[..next]) && buffer[current..] == old(buffer[current..])
      decreases n
    {
      RemainingIs(n);
      ghost var before := buffer[next..current];
      next := next - 1;
      buffer[next] := DigitChar(n % 10);
      assert buffer[next..current] == [DigitChar(n % 10)] + before;
      Bare(Remaining(n / 10), [DigitChar(n % 10)], done);
      Bare([DigitChar(n % 10)], done, "\0");
      done := [DigitChar(n % 10)] + done;
      n := n / 10;
    }
    assert "" + done == done;
  }

  /** The digits still to be written. */
  function Remaining(n: nat): string {
    if n == 0 then "" else Print(n)
  }

  lemma RemainingIs(n: nat)
    ensures Remaining(0) == "" && Remaining(n / 10) + [DigitChar(n % 10)] == Print(n)
    ensures n > 0 ==> Remaining(n) == Remaining(n / 10) + [DigitChar(n % 10)]
  {
  }

  /** The C string that starts at `p`. */
  method TextAt(buffer: array<char>, p: nat) returns (s: string)
    requires p < buffer.Length && '\0' in buffer[p..]
    ensures |s| < buffer.Length - p && s == buffer[p..p + |s|] && NulFree(s) && buffer[p + |s|] == '\0'
  {
    var q := p;
    while buffer[q] != '\0'
      invariant p <= q < buffer.Length
      invariant '\0' !in buffer[p..q] && '\0' in buffer[q..]
      decreases buffer.Length - q
    {
      assert buffer[q..] == [buffer[q]] + buffer[q + 1..];
      assert buffer[p..q + 1] == buffer[p..q] + [buffer[q]];
      q := q + 1;
    }
    s := buffer[p..q];
  }

  lemma PrintNulFree(n: nat)
    ensures NulFree(Print(n))
  {
    PrintRoundTrip(n);
  }

  method UnsignedToString(value: nat) returns (s: string)
    requires value <= MAX_UINT64
    ensures s == Print(value)
  {
    hide Print;
    PrintNulFree(value);
    var buffer := new char[BUFFER_SIZE];
    var current := UintToString(value, buffer, BUFFER_SIZE);
    assert buffer[current..] == buffer[current..BUFFER_SIZE];
    s := BufferText(buffer, current, Print(value));
  }

  method SignedToString(value: int) returns (s: string)
    requires MIN_INT64 <= value <= MAX_INT64
    ensures s == PrintInteger(value)
  {
    hide Print;
    var buffer := new char[BUFFER_SIZE];
    var isNegative := value < 0;
    var n := ToUInt64(if isNegative then Negate64(value) else value);
    PrintNulFree(n);
    var current := UintToString(n, buffer, BUFFER_SIZE);
    assert buffer[current..] == buffer[current..BUFFER_SIZE];
    if isNegative {
      ghost var digits := buffer[current..];
      current := current - 1;
      buffer[current] := '-';
      assert buffer[current..] == "-" + digits;
      Bare("-", Print(n), "\0");
      s := BufferText(buffer, current, "-" + Print(n));
    } else {
      s := BufferText(buffer, current, Print(n));
    }
  }

  /** The text at `current`, when it is known. */
  method BufferText(buffer: array<char>, current: nat, ghost text: string) returns (s: string)
    requires current < buffer.Length && buffer[current..] == text + "\0" && NulFree(text)
    ensures s == text
  {
    assert (text + "\0")[|text|] == '\0';
    s := TextAt(buffer, current);
    assert buffer[current..][|s|] == '\0' && s == buffer[current..][..|s|];
    assert |s| >= |text|;
  }

  // ---------- valueToQuotedString ----------

  /** The characters `strpbrk` looks for. */
  predicate NeedsEscape(c: char) {
    c == '"' || c == '\\' || c == BACKSPACE || c == FORM_FEED || c == '\n' || c == '\r' || c == '\t'
  }

  method ContainsControlCharacter(s: string) returns (found: bool)
    ensures found <==> exists i :: 0 <= i < |s| && IsControl(s[i])
  {
    var p := 0;
    while p < |s|
      invariant p <= |s| && forall i :: 0 <= i < p ==> !IsControl(s[i])
    {
      if IsControl(s[p]) {
        return true;
      }
      p := p + 1;
    }
    return false;
  }

  lemma {:induction false} PlainIsRaw(s: string)
    requires forall i :: 0 <= i < |s| ==> !NeedsEscape(s[i]) && !IsControl(s[i])
    ensures RenderChars(QuoteChars(s)) == s
    decreases |s|
  {
    if s != "" {
      PlainIsRaw(s[1..]);
      assert s == [s[0]] + s[1..];
      assert QuoteChars(s)[1..] == QuoteChars(s[1..]);
    }
  }

  lemma QuoteFirst(s: string)
    ensures RenderChars(QuoteChars("")) == ""
    ensures s != "" ==>
              RenderChars(QuoteChars(s)) == RenderChar(QuoteChar(s[0])) + RenderChars(QuoteChars(s[1..]))
  {
    hide QuoteChar, RenderChar;
    if s != "" {
      assert QuoteChars(s) == [QuoteChar(s[0])] + QuoteChars(s[1..]);
      assert QuoteChars(s)[1..] == QuoteChars(s[1..]);
    }
  }

  lemma {:induction false} QuoteNext(s: string, i: nat)
    requires i < |s|
    ensures RenderChars(QuoteChars(s[..i + 1])) == RenderChars(QuoteChars(s[..i])) + RenderChar(QuoteChar(s[i]))
    decreases i
  {
    hide *;
    QuoteFirst(s[..i + 1]);
    QuoteFirst(s[..i]);
    if i == 0 {
      assert s[..1][1..] == "" && s[..0] == "";
      var c := RenderChar(QuoteChar(s[0]));
      assert c + "" == c == "" + c;
    } else {
      QuoteNext(s[1..], i - 1);
      assert s[..i + 1][1..] == s[1..][..i] && s[..i][1..] == s[1..][..i - 1];
      var first := RenderChar(QuoteChar(s[0]));
      var middle, last := RenderChars(QuoteChars(s[1..][..i - 1])), RenderChar(QuoteChar(s[i]));
      assert first + (middle + last) == (first + middle) + last;
    }
  }

  /** The short form for strings without special characters and the escaping loop
      agree on what a quoted string is. */
  method ValueToQuotedString(s: string) returns (result: string)
    requires NulFree(s)
    ensures result == Quoted(s)
  {
    hide QuoteChars, RenderChars, QuoteChar;
    var control := ContainsControlCharacter(s);
    if (forall i :: 0 <= i < |s| ==> !NeedsEscape(s[i])) && !control {
      PlainIsRaw(s);
      return "\"" + s + "\"";
    }
    result := "\"";
    QuoteNothing();
    assert s[..0] == "";
    assert "\"" + "" == "\"";
    for c := 0 to |s|
      invariant result == "\"" + RenderChars(QuoteChars(s[..c]))
    {
      QuoteNext(s, c);
      ghost var before := result;
      QuotedCharIs(s[c]);
      if s[c] == '"' {
        result := result + "\\\"";
      } else if s[c] == '\\' {
        result := result + "\\\\";
      } else if s[c] == BACKSPACE {
        result := result + "\\b";
      } else if s[c] == FORM_FEED {
        result := result + "\\f";
      } else if s[c] == '\n' {
        result := result + "\\n";
      } else if s[c] == '\r' {
        result := result + "\\r";
      } else if s[c] == '\t' {
        result := result + "\\t";
      } else if IsControl(s[c]) {
        result := result + ("\\u" + PrintHex4(s[c] as int));
      } else {
        result := result + [s[c]];
      }
      assert result == before + RenderChar(QuoteChar(s[c]));
      Bare("\"", RenderChars(QuoteChars(s[..c])), RenderChar(QuoteChar(s[c])));
    }
    assert s[..|s|] == s;
    result := result + "\"";
  }

  lemma QuoteNothing()
    ensures RenderChars(QuoteChars("")) == ""
  {
  }

  lemma QuotedCharIs(c: char)
    ensures RenderChar(QuoteChar(c)) ==
            if c == '"' then "\\\""
            else if c == '\\' then "\\\\"
            else if c == BACKSPACE then "\\b"
            else if c == FORM_FEED then "\\f"
            else if c == '\n' then "\\n"
            else if c == '\r' then "\\r"
            else if c == '\t' then "\\t"
            else if IsControl(c) then "\\u" + PrintHex4(c as int)
            else [c]
  {
  }

  /** `valueToString` and `valueToQuotedString` on a value without children. */
  method LeafString(b: Body, printReal: real -> string) returns (s: string)
    requires Valid(Plain(b))
    ensures s == LeafText(b, printReal)
  {
    match b {
      case Null => s := "null";
      case Int(i) => s := SignedToString(i);
      case UInt(u) => s := UnsignedToString(u);
      case Real(r) => s := printReal(r);
      case Str(t) => s := ValueToQuotedString(t);
      case NullStr => s := "";
      case Bool(b) => s := if b then "true" else "false";
      case Array(_) => s := "[]";
      case Object(_) => s := "{}";
    }
  }

  // ---------- getMemberNames ----------

  function MemberNames(ms: Entries): (names: seq<string>)
    ensures |names| == Count(ms)
  {
    match ms
    case End => []
    case Entry(k, _, rest) => [NameOf(k)] + MemberNames(rest)
  }

  /** The entries from number j on. */
  function From(ms: Entries, j: nat): (r: Entries)
    requires j <= Count(ms)
    ensures Count(r) == Count(ms) - j && WeightEntries(r) <= WeightEntries(ms)
    ensures (j == 0 ==> r == ms) && (j == Count(ms) ==> r == End)
  {
    if j == 0 then ms else From(ms.rest, j - 1)
  }

  /** Looking a member up by its name finds the entry the name came from. */
  lemma {:induction false} MemberAt(ms: Entries, j: nat)
    requires Sorted(ms, true) && ValidEntries(ms) && j < Count(ms)
    ensures var e := From(ms, j);
            && e.Entry? && NameOf(e.key) == MemberNames(ms)[j] && e.key == Name(MemberNames(ms)[j])
            && Find(ms, Name(MemberNames(ms)[j])) == e.value
            && From(ms, j + 1) == e.rest
            && Valid(e.value) && NulFree(MemberNames(ms)[j])
            && Weight(e.value) < WeightEntries(ms)
    decreases ms
  {
    if j > 0 {
      MemberAt(ms.rest, j - 1);
      KeyBelow(ms.rest, ms.key, j - 1);
    }
  }

  lemma {:induction false} KeyBelow(ms: Entries, low: Key, j: nat)
    requires Above(ms, low) && j < Count(ms)
    ensures From(ms, j).Entry? && From(ms, j).key != low
  {
    if j == 0 {
      KeyIrreflexive(low);
    } else {
      KeyBelow(ms.rest, low, j - 1);
    }
  }

  lemma KeyIrreflexive(k: Key)
    ensures !KeyLess(k, k)
  {
    KeyTotal(k, k);
  }

  lemma {:induction false} FindValid(es: Entries, key: Key)
    requires ValidEntries(es)
    ensures Valid(Find(es, key))
  {
    if es.Entry? {
      FindValid(es.rest, key);
    }
  }

  lemma ValidParts(v: Value)
    requires Valid(v)
    ensures v.body.Array? ==> ValidEntries(v.body.elements) && Weight(v) == 2 + WeightEntries(v.body.elements)
    ensures v.body.Object? ==>
              && ValidEntries(v.body.members) && Sorted(v.body.members, true)
              && Weight(v) == 2 + WeightEntries(v.body.members)
    ensures !v.body.Array? && !v.body.Object? ==> Valid(Plain(v.body))
  {
  }

  // ---------- FastWriter ----------

  class FastWriter {
    var yamlCompatiblityEnabled: bool
    var dropNullPlaceholders: bool
    var document: string
    const printReal: real -> string

    constructor (printReal: real -> string)
      ensures !yamlCompatiblityEnabled && !dropNullPlaceholders && this.printReal == printReal
    {
      yamlCompatiblityEnabled, dropNullPlaceholders, document := false, false, "";
      this.printReal := printReal;
    }

    method EnableYAMLCompatibility()
      modifies this`yamlCompatiblityEnabled
      ensures yamlCompatiblityEnabled
    {
      yamlCompatiblityEnabled := true;
    }

    method DropNullPlaceholders()
      modifies this`dropNullPlaceholders
      ensures dropNullPlaceholders
    {
      dropNullPlaceholders := true;
    }

    ghost function Style(): FastStyle
      reads this`yamlCompatiblityEnabled, this`dropNullPlaceholders
    {
      FastStyle(yamlCompatiblityEnabled, dropNullPlaceholders, printReal)
    }

    method Write(root: Value) returns (text: string)
      requires Valid(root)
      modifies this`document
      ensures text == document == FastText(root, Style())
    {
      document := "";
      WriteValue(root);
      text := document;
    }

    method WriteValue(value: Value)
      requires Valid(value)
      modifies this`document
      ensures document == old(document) + FastText(value, Style())
      decreases Weight(value), 1
    {
      hide FastText, FastElements, FastMembers, Valid, Weight, WeightEntries, LeafText;
      ghost var style := Style();
      ValidParts(value);
      FastTextIs(value, style);
      match value.body {
        case Null =>
          if !dropNullPlaceholders {
            document := document + "null";
          } else {
            assert document + "" == document;
          }
        case Array(es) => WriteArray(value);
        case Object(ms) => WriteObject(value);
        case _ =>
          var text := LeafString(value.body, printReal);
          document := document + text;
      }
    }

    /** The array case of `writeValue`. */
    method WriteArray(value: Value)
      requires Valid(value) && value.body.Array?
      modifies this`document
      ensures document == old(document) + ("[" + FastElements(value.body.elements, 0, Style()) + "]")
      decreases Weight(value), 0
    {
      hide *;
      var es := value.body.elements;
      ghost var style := Style();
      ghost var start, all := document, FastElements(es, 0, style);
      ValidParts(value);
      document := document + "[";
      var size := Size(es);
      for index := 0 to size
        invariant Style() == style
        invariant document + FastElements(es, index, style) == start + "[" + all
      {
        ghost var before := document;
        FastElementsAt(es, index, style, before);
        if index > 0 {
          document := document + ",";
        }
        FindValid(es, Index(index));
        WriteValue(Find(es, Index(index)));
        CommaFirst(before, index > 0);
      }
      FastElementsAt(es, size, style, document);
      assert document + "" == document;
      document := document + "]";
      Wrap(start, "[", all, "]");
    }

    /** The object case of `writeValue`. */
    method WriteObject(value: Value)
      requires Valid(value) && value.body.Object?
      modifies this`document
      ensures document == old(document) + ("{" + FastMembers(value.body.members, true, Style()) + "}")
      decreases Weight(value), 0
    {
      hide *;
      var ms := value.body.members;
      ghost var style := Style();
      ghost var start, all := document, FastMembers(ms, true, style);
      ValidParts(value);
      var members := MemberNames(ms);
      document := document + "{";
      for it := 0 to |members|
        invariant Style() == style
        invariant document + FastMembers(From(ms, it), it == 0, style) == start + "{" + all
      {
        ghost var before := document;
        MemberAt(ms, it);
        FastMembersAt(From(ms, it), it == 0, style, before);
        var name := members[it];
        if it > 0 {
          document := document + ",";
        }
        CommaFirst(before, it > 0);
        var quoted := ValueToQuotedString(name);
        document := document + quoted;
        document := document + (if yamlCompatiblityEnabled then ": " else ":");
        WriteValue(Find(ms, Name(name)));
        assert style.yaml == yamlCompatiblityEnabled by { StyleIs(); }
      }
      FastMembersAt(End, |members| == 0, style, document);
      assert document + "" == document;
      document := document + "}";
      Wrap(start, "{", all, "}");
    }

    lemma StyleIs()
      ensures Style().yaml == yamlCompatiblityEnabled && Style().dropNull == dropNullPlaceholders
    {
    }
  }

  lemma CommaFirst(before: string, comma: bool)
    ensures before + (if comma then "," else "") == if comma then before + "," else before
  {
  }

  lemma Wrap(start: string, begin: string, all: string, end: string)
    ensures (start + begin + all) + end == start + (begin + all + end)
  {
  }

  lemma FastTextIs(v: Value, style: FastStyle)
    ensures v.body.Null? ==> FastText(v, style) == if style.dropNull then "" else "null"
    ensures v.body.Array? ==> FastText(v, style) == "[" + FastElements(v.body.elements, 0, style) + "]"
    ensures v.body.Object? ==> FastText(v, style) == "{" + FastMembers(v.body.members, true, style) + "}"
    ensures !v.body.Null? && !v.body.Array? && !v.body.Object? ==>
              FastText(v, style) == LeafText(v.body, style.printReal)
  {
    hide FastElements, FastMembers, LeafText;
  }

  lemma FastElementsAt(es: Entries, i: nat, style: FastStyle, done: string)
    ensures i < Size(es) ==>
              done + FastElements(es, i, style) ==
              (done + (if i > 0 then "," else "") + FastText(Find(es, Index(i)), style)) + FastElements(es, i + 1, style)
    ensures i >= Size(es) ==> FastElements(es, i, style) == ""
  {
    hide FastText, Find;
  }

  lemma FastMembersAt(ms: Entries, first: bool, style: FastStyle, done: string)
    ensures ms.Entry? ==>
              done + FastMembers(ms, first, style) ==
              (done + (if first then "" else ",") + Quoted(NameOf(ms.key)) + (if style.yaml then ": " else ":") +
               FastText(ms.value, style)) + FastMembers(ms.rest, false, style)
    ensures ms.End? ==> FastMembers(ms, first, style) == ""
  {
    hide FastText, Quoted;
  }

  // ---------- StyledWriter and StyledStreamWriter ----------

  /** The texts of the first n elements. */
  function LeafTexts(es: Entries, n: nat, printReal: real -> string): (r: seq<string>)
    ensures |r| == n
  {
    seq(n, k requires 0 <= k < n => LeafText(ElementAt(es, k).body, printReal))
  }

  /** `StyledWriter` and `StyledStreamWriter`: the same members, with their own
      `writeIndent` and unit of indentation (`layout`). */
  class StyledWriter {
    const layout: Layout
    const printReal: real -> string
    var document: string
    var childValues: seq<string>
    var addChildValues: bool
    var indentString: string

    constructor (layout: Layout, printReal: real -> string)
      ensures this.layout == layout && this.printReal == printReal
    {
      this.layout, this.printReal := layout, printReal;
      document, childValues, addChildValues, indentString := "", [], false, "";
    }

    method Write(root: Value) returns (text: string)
      requires Valid(root)
      modifies this
      ensures text == document == StyledText(layout, "", root, "", printReal) + "\n"
    {
      document := "";
      addChildValues := false;
      indentString := "";
      WriteValue(root);
      document := document + "\n";
      text := document;
    }

    method PushValue(value: string)
      modifies this`document, this`childValues
      ensures addChildValues ==> childValues == old(childValues) + [value] && document == old(document)
      ensures !addChildValues ==> childValues == old(childValues) && document == old(document) + value
    {
      if addChildValues {
        childValues := childValues + [value];
      } else {
        document := document + value;
      }
    }

    method WriteIndent()
      modifies this`document
      ensures document == Indented(layout, old(document), indentString)
    {
      if layout.Styled? {
        if document != "" {
          var last := document[|document| - 1];
          if last == ' ' {
            return;
          }
          if last != '\n' {
            document := document + "\n";
          }
        }
        document := document + indentString;
      } else {
        document := document + "\n" + indentString;
      }
    }

    method WriteWithIndent(value: string)
      modifies this`document
      ensures document == Indented(layout, old(document), indentString) + value
    {
      WriteIndent();
      document := document + value;
    }

    method Indent()
      modifies this`indentString
      ensures indentString == old(indentString) + Unit(layout)
    {
      indentString := indentString + Unit(layout);
    }

    method Unindent()
      requires |indentString| >= |Unit(layout)|
      modifies this`indentString
      ensures indentString == old(indentString)[..|old(indentString)| - |Unit(layout)|]
    {
      indentString := indentString[..|indentString| - |Unit(layout)|];
    }

    /** While `addChildValues` is set, only values without children are written,
        and each adds exactly one text to `childValues`. */
    method WriteValue(value: Value)
      requires Valid(value)
      requires addChildValues ==> IsLeaf(value)
      modifies this
      ensures indentString == old(indentString) && addChildValues == old(addChildValues)
      ensures !addChildValues ==> document == StyledText(layout, old(document), value, indentString, printReal)
      ensures addChildValues ==>
                document == old(document) && childValues == old(childValues) + [LeafText(value.body, printReal)]
      decreases Weight(value), 3
    {
      hide StyledText, Valid, Weight, LeafText;
      ValidParts(value);
      LeafIs(layout, document, value, indentString, printReal);
      match value.body {
        case Array(es) => WriteArrayValue(value);
        case Object(ms) => WriteObject(value);
        case _ =>
          var text := LeafString(value.body, printReal);
          PushValue(text);
      }
    }

    /** The object case of `writeValue`. */
    method WriteObject(value: Value)
      requires Valid(value) && value.body.Object?
      requires addChildValues ==> IsLeaf(value)
      modifies this
      ensures indentString == old(indentString) && addChildValues == old(addChildValues)
      ensures !addChildValues ==> document == StyledText(layout, old(document), value, indentString, printReal)
      ensures addChildValues ==>
                document == old(document) && childValues == old(childValues) + [LeafText(value.body, printReal)]
      decreases Weight(value), 2
    {
      hide *;
      var ms := value.body.members;
      var members := MemberNames(ms);
      ValidParts(value);
      ObjectIs(layout, document, value, indentString, printReal);
      if |members| == 0 {
        PushValue("{}");
      } else {
        ghost var outer := indentString;
        WriteWithIndent("{");
        Indent();
        ghost var inside := indentString;
        ghost var inner := StyledMembers(layout, document, ms, inside, printReal);
        var it := 0;
        while true
          invariant 0 <= it < |members| && !addChildValues && indentString == inside
          invariant StyledMembers(layout, document, From(ms, it), inside, printReal) == inner
          decreases |members| - it
        {
          MemberAt(ms, it);
          StyledMembersAt(layout, document, From(ms, it), inside, printReal);
          var name := members[it];
          var quoted := ValueToQuotedString(name);
          WriteWithIndent(quoted);
          document := document + " : ";
          WriteValue(Find(ms, Name(name)));
          it := it + 1;
          if it == |members| {
            break;
          }
          document := document + ",";
        }
        StyledMembersAt(layout, document, End, inside, printReal);
        Unindent();
        UnindentUndoes(outer, Unit(layout));
        WriteWithIndent("}");
      }
    }

    method WriteArrayValue(value: Value)
      requires Valid(value) && value.body.Array?
      requires addChildValues ==> IsLeaf(value)
      modifies this
      ensures indentString == old(indentString) && addChildValues == old(addChildValues)
      ensures !addChildValues ==> document == StyledText(layout, old(document), value, indentString, printReal)
      ensures addChildValues ==>
                document == old(document) && childValues == old(childValues) + [LeafText(value.body, printReal)]
      decreases Weight(value), 2
    {
      hide *;
      var es := value.body.elements;
      var size := Size(es);
      ValidParts(value);
      ArrayIs(layout, document, value, indentString, printReal);
      if size == 0 {
        PushValue("[]");
      } else {
        var isArrayMultiLine := IsMultineArray(value);
        if isArrayMultiLine {
          WriteLines(value);
        } else {
          ghost var start := document;
          document := document + "[ ";
          ghost var line := LeafLine(es, 0, printReal);
          for index := 0 to size
            invariant |childValues| == size && childValues == LeafTexts(es, size, printReal)
            invariant document + LeafLine(es, index, printReal) == start + "[ " + line
            invariant indentString == old(indentString) && !addChildValues
          {
            LeafTextsAt(es, size, printReal, index);
            LeafLineAt(document, es, index, printReal);
            ghost var before := document;
            if index > 0 {
              document := document + ", ";
            }
            document := document + childValues[index];
            CommaText(before, index > 0, childValues[index]);
          }
          LeafLineAt(document, es, size, printReal);
          assert document + "" == document;
          document := document + " ]";
        }
      }
    }

    /** The multi-line branch of `writeArrayValue`. `childValues` is only used when
        it holds one text per element. */
    method WriteLines(value: Value)
      requires Valid(value) && value.body.Array? && Size(value.body.elements) > 0 && !addChildValues
      requires childValues != [] ==>
                 && AllLeaves(value.body.elements, 0)
                 && childValues == LeafTexts(value.body.elements, Size(value.body.elements), printReal)
      modifies this
      ensures indentString == old(indentString) && !addChildValues
      ensures var start := Indented(layout, old(document), indentString) + "[";
              var inner := StyledElements(layout, start, value.body.elements, 0, indentString + Unit(layout), printReal);
              document == Indented(layout, inner, indentString) + "]"
      decreases Weight(value), 1
    {
      hide *;
      var es := value.body.elements;
      var size := Size(es);
      ValidParts(value);
      ghost var outer := indentString;
      WriteWithIndent("[");
      Indent();
      ghost var inside := indentString;
      ghost var inner := StyledElements(layout, document, es, 0, inside, printReal);
      var hasChildValue := childValues != [];
      var index := 0;
      while true
        invariant 0 <= index < size && !addChildValues && indentString == inside
        invariant hasChildValue ==> AllLeaves(es, 0) && childValues == LeafTexts(es, size, printReal)
        invariant StyledElements(layout, document, es, index, inside, printReal) == inner
        decreases size - index
      {
        StyledElementsAt(layout, document, es, index, inside, printReal);
        FindValid(es, Index(index));
        if hasChildValue {
          LeafTextsAt(es, size, printReal, index);
          LeafElement(layout, document, es, index, inside, printReal);
          WriteWithIndent(childValues[index]);
        } else {
          WriteIndent();
          WriteValue(Find(es, Index(index)));
        }
        index := index + 1;
        if index == size {
          break;
        }
        document := document + ",";
      }
      StyledElementsAt(layout, document, es, size, inside, printReal);
      Unindent();
      UnindentUndoes(outer, Unit(layout));
      WriteWithIndent("]");
    }

    /** Decides the layout of a non-empty array. Afterwards `childValues` is empty or
        holds exactly one text per element. */
    method IsMultineArray(value: Value) returns (isMultiLine: bool)
      requires Valid(value) && value.body.Array? && Size(value.body.elements) > 0 && !addChildValues
      modifies this
      ensures document == old(document) && indentString == old(indentString) && !addChildValues
      ensures var es := value.body.elements;
              && isMultiLine == MultiLine(es, printReal)
              && (childValues != [] ==> AllLeaves(es, 0) && childValues == LeafTexts(es, Size(es), printReal))
              && (!isMultiLine ==> childValues == LeafTexts(es, Size(es), printReal))
      decreases Weight(value), 1
    {
      hide *;
      var es := value.body.elements;
      var size := Size(es);
      ValidParts(value);
      MultiLineIs(es, printReal);
      isMultiLine := size * 3 >= RIGHT_MARGIN;
      childValues := [];
      var index := 0;
      while index < size && !isMultiLine
        invariant 0 <= index <= size
        invariant document == old(document) && indentString == old(indentString)
        invariant !addChildValues && childValues == []
        invariant size * 3 >= RIGHT_MARGIN ==> isMultiLine
        invariant isMultiLine ==> size * 3 >= RIGHT_MARGIN || !AllLeaves(es, 0)
        invariant !isMultiLine ==> (AllLeaves(es, 0) <==> AllLeaves(es, index))
      {
        AllLeavesNext(es, index);
        var childValue := Find(es, Index(index));
        isMultiLine := isMultiLine || ((childValue.body.Array? || childValue.body.Object?) && SizeOf(childValue) > 0);
        index := index + 1;
      }
      AllLeavesNext(es, size);
      if !isMultiLine {
        addChildValues := true;
        var lineLength := 4 + (size - 1) * 2;
        LeafTextsNext(es, 0, printReal);
        for index := 0 to size
          invariant childValues == LeafTexts(es, index, printReal)
          invariant lineLength + LeafLengths(es, index, printReal) == 4 + (size - 1) * 2 + LeafLengths(es, 0, printReal)
          invariant document == old(document) && indentString == old(indentString) && addChildValues
        {
          FindValid(es, Index(index));
          if AllLeaves(es, 0) {
            LeafAt(es, 0, index);
          }
          LeafTextsNext(es, index, printReal);
          LeafLengthsAt(es, index, printReal);
          WriteValue(Find(es, Index(index)));
          lineLength := lineLength + |childValues[index]|;
        }
        LeafLengthsAt(es, size, printReal);
        addChildValues := false;
        isMultiLine := isMultiLine || lineLength >= RIGHT_MARGIN;
      }
    }
  }

  // ---------- one step of each loop ----------

  lemma LeafIs(layout: Layout, doc: string, v: Value, indent: string, printReal: real -> string)
    ensures !v.body.Array? && !v.body.Object? ==>
              StyledText(layout, doc, v, indent, printReal) == doc + LeafText(v.body, printReal)
  {
    hide LeafText;
  }

  lemma ObjectIs(layout: Layout, doc: string, v: Value, indent: string, printReal: real -> string)
    requires v.body.Object?
    ensures IsLeaf(v) <==> Count(v.body.members) == 0
    ensures LeafText(v.body, printReal) == "{}"
    ensures StyledText(layout, doc, v, indent, printReal) ==
            if Count(v.body.members) == 0 then doc + "{}"
            else
              var start := Indented(layout, doc, indent) + "{";
              var inner := StyledMembers(layout, start, v.body.members, indent + Unit(layout), printReal);
              Indented(layout, inner, indent) + "}"
  {
    hide StyledMembers, Indented;
  }

  lemma ArrayIs(layout: Layout, doc: string, v: Value, indent: string, printReal: real -> string)
    requires v.body.Array?
    ensures IsLeaf(v) <==> Size(v.body.elements) == 0
    ensures LeafText(v.body, printReal) == "[]"
    ensures StyledText(layout, doc, v, indent, printReal) ==
            if Size(v.body.elements) == 0 then doc + "[]"
            else if !MultiLine(v.body.elements, printReal) then
              doc + "[ " + LeafLine(v.body.elements, 0, printReal) + " ]"
            else
              var start := Indented(layout, doc, indent) + "[";
              var inner := StyledElements(layout, start, v.body.elements, 0, indent + Unit(layout), printReal);
              Indented(layout, inner, indent) + "]"
  {
    hide StyledElements, Indented, MultiLine, LeafLine;
  }

  lemma UnindentUndoes(outer: string, unit: string)
    ensures (outer + unit)[..|outer + unit| - |unit|] == outer
  {
  }

  lemma StyledMembersAt(layout: Layout, doc: string, ms: Entries, indent: string, printReal: real -> string)
    ensures ms.Entry? ==>
              var begun := Indented(layout, doc, indent) + Quoted(NameOf(ms.key)) + " : ";
              var d := StyledText(layout, begun, ms.value, indent, printReal);
              StyledMembers(layout, doc, ms, indent, printReal) ==
              StyledMembers(layout, if Count(ms.rest) > 0 then d + "," else d, ms.rest, indent, printReal)
    ensures ms.End? ==> StyledMembers(layout, doc, ms, indent, printReal) == doc
  {
    hide StyledText, Indented, Quoted;
  }

  lemma StyledElementsAt(layout: Layout, doc: string, es: Entries, i: nat, indent: string, printReal: real -> string)
    ensures i < Size(es) ==>
              var d := StyledText(layout, Indented(layout, doc, indent), Find(es, Index(i)), indent, printReal);
              StyledElements(layout, doc, es, i, indent, printReal) ==
              StyledElements(layout, if i + 1 < Size(es) then d + "," else d, es, i + 1, indent, printReal)
    ensures i >= Size(es) ==> StyledElements(layout, doc, es, i, indent, printReal) == doc
  {
    hide StyledText, Indented, Find;
  }

  /** A leaf is written the same way from `childValues` as by `writeValue`. */
  lemma LeafElement(layout: Layout, doc: string, es: Entries, i: nat, indent: string, printReal: real -> string)
    requires AllLeaves(es, 0) && i < Size(es)
    ensures StyledText(layout, Indented(layout, doc, indent), Find(es, Index(i)), indent, printReal) ==
            Indented(layout, doc, indent) + LeafText(Find(es, Index(i)).body, printReal)
  {
    hide Indented, LeafText;
    LeafAt(es, 0, i);
  }

  lemma AllLeavesNext(es: Entries, i: nat)
    ensures AllLeaves(es, i) <==> (i < Size(es) ==> SizeOf(Find(es, Index(i))) == 0 && AllLeaves(es, i + 1))
    ensures var v := Find(es, Index(i)); SizeOf(v) > 0 ==> v.body.Array? || v.body.Object?
    ensures !AllLeaves(es, i) && i == 0 ==> !AllLeaves(es, 0)
  {
    hide Find;
  }

  lemma LeafTextsNext(es: Entries, n: nat, printReal: real -> string)
    ensures LeafTexts(es, 0, printReal) == []
    ensures LeafTexts(es, n + 1, printReal) ==
            LeafTexts(es, n, printReal) + [LeafText(Find(es, Index(n)).body, printReal)]
  {
    hide LeafText;
  }

  lemma LeafTextsAt(es: Entries, n: nat, printReal: real -> string, i: nat)
    requires i < n
    ensures LeafTexts(es, n, printReal)[i] == LeafText(Find(es, Index(i)).body, printReal)
  {
    hide LeafText;
  }

  lemma LeafLengthsAt(es: Entries, i: nat, printReal: real -> string)
    ensures LeafLengths(es, i, printReal) ==
            if i < Size(es) then |LeafText(Find(es, Index(i)).body, printReal)| + LeafLengths(es, i + 1, printReal) else 0
  {
    hide LeafText;
  }

  lemma LeafLineAt(doc: string, es: Entries, i: nat, printReal: real -> string)
    ensures i < Size(es) ==>
              doc + LeafLine(es, i, printReal) ==
              (doc + (if i > 0 then ", " else "") + LeafText(Find(es, Index(i)).body, printReal)) +
              LeafLine(es, i + 1, printReal)
    ensures i >= Size(es) ==> LeafLine(es, i, printReal) == ""
  {
    hide LeafText;
  }

  lemma CommaText(before: string, comma: bool, text: string)
    ensures (before + (if comma then ", " else "")) + text == (if comma then before + ", " else before) + text
  {
  }

  lemma MultiLineIs(es: Entries, printReal: real -> string)
    ensures MultiLine(es, printReal) <==>
            || Size(es) * 3 >= RIGHT_MARGIN
            || !AllLeaves(es, 0)
            || 4 + (Size(es) - 1) * 2 + LeafLengths(es, 0, printReal) >= RIGHT_MARGIN
  {
  }
}
