/** How the writers lay out a document: the shortest quoted strings, and for the styled
    writers the lines and their indentation, described without looking at the document
    written so far. */
module JsonLayout {
  import opened Decimal
  import opened JsonValue
  import opened JsonText
  import opened JsonSyntax
  import opened JsonAccept
  import opened JsonPrint
  import opened JsonRoundTrip

  // ---------- quoted strings ----------

  lemma {:induction false} QuoteJoin(s: string, t: string)
    ensures RenderChars(QuoteChars(s + t)) == RenderChars(QuoteChars(s)) + RenderChars(QuoteChars(t))
  {
    hide QuoteChar, RenderChar, RenderChars, QuoteChars;
    if s == "" {
      assert s + t == t;
      NothingQuoted();
    } else {
      assert (s + t)[1..] == s[1..] + t;
      QuoteJoin(s[1..], t);
      QuoteUnfold(s);
      QuoteUnfold(s + t);
      Bare(RenderChar(QuoteChar(s[0])), RenderChars(QuoteChars(s[1..])), RenderChars(QuoteChars(t)));
    }
  }

  lemma NothingQuoted()
    ensures RenderChars(QuoteChars("")) == ""
  {
  }

  lemma QuoteUnfold(s: string)
    requires s != ""
    ensures RenderChars(QuoteChars(s)) == RenderChar(QuoteChar(s[0])) + RenderChars(QuoteChars(s[1..]))
  {
    var cs := [QuoteChar(s[0])] + QuoteChars(s[1..]);
    assert cs[1..] == QuoteChars(s[1..]);
  }

  lemma {:induction false} RawQuoted(s: string)
    requires forall i :: 0 <= i < |s| ==> 0x80 <= s[i] as int
    ensures |RenderChars(QuoteChars(s))| == |s|
  {
    if s != "" {
      RawQuoted(s[1..]);
      QuoteUnfold(s);
    }
  }

  /** No character of a string is written with more bytes than another way to write it takes. */
  lemma CharIsShortest(c: Char)
    requires ValidChar(c)
    ensures |RenderChars(QuoteChars(DenoteChar(c)))| <= |RenderChar(c)|
  {
    var s := DenoteChar(c);
    if |s| == 1 {
      QuoteUnfold(s);
      assert RenderChars(QuoteChars(s[1..])) == "";
    } else {
      RawQuoted(s);
    }
  }

  /** Among all texts of the grammar that denote a string the writers choose a shortest. */
  lemma {:induction false} QuotedIsShortest(cs: seq<Char>)
    requires ValidChars(cs)
    ensures |Quoted(DenoteChars(cs))| <= |RenderString(cs)|
  {
    if cs != [] {
      hide RenderChar, QuoteChars, DenoteChar, ValidChar, RenderChars;
      CharsUnfold(cs);
      CharIsShortest(cs[0]);
      QuotedIsShortest(cs[1..]);
      QuoteJoin(DenoteChar(cs[0]), DenoteChars(cs[1..]));
    }
  }

  /** Control characters without an escape letter are written with two upper-case digits. */
  lemma ControlQuoted(c: char)
    requires 0 < c as int < 0x20 && c as int !in {0x08, 0x09, 0x0a, 0x0c, 0x0d}
    ensures RenderChar(QuoteChar(c)) ==
            "\\u00" + ["0123456789ABCDEF"[c as int / 16], "0123456789ABCDEF"[c as int % 16]]
  {
    ControlHex(c as int);
    hide PrintHex4;
    assert QuoteChar(c) == Unicode(PrintHex4(c as int));
    var high, low := "0123456789ABCDEF"[c as int / 16], "0123456789ABCDEF"[c as int % 16];
    assert "\\u" + ['0', '0', high, low] == "\\u00" + [high, low];
  }

  lemma ControlHex(n: nat)
    requires n < 0x20
    ensures PrintHex4(n) == ['0', '0', "0123456789ABCDEF"[n / 16], "0123456789ABCDEF"[n % 16]]
  {
    UpperHexIs(0);
    UpperHexIs(n / 16);
    UpperHexIs(n % 16);
    hide UpperHex;
    assert n / 0x1000 == 0 && n / 0x100 % 16 == 0 && n / 0x10 % 16 == n / 16;
  }

  lemma UpperHexIs(d: nat)
    requires d < 16
    ensures UpperHex(d) == "0123456789ABCDEF"[d]
  {
  }

  // ---------- lines and indentation ----------

  function Copies(n: nat, s: string): string {
    if n == 0 then "" else Copies(n - 1, s) + s
  }

  function IndentationOf(layout: Layout): string {
    match layout
    case Styled => [' ', ' ', ' ']
    case Stream(indentation) => indentation
  }

  /** A new line, indented to its depth. */
  function NewLine(layout: Layout, depth: nat): string {
    "\n" + Copies(depth, IndentationOf(layout))
  }

  /** `StyledStreamWriter` puts the opening mark of an array or object on a line of its own. */
  function Lead(layout: Layout, depth: nat): string {
    match layout
    case Styled => ""
    case Stream(_) => NewLine(layout, depth)
  }

  function Plainly(printReal: real -> string): FastStyle {
    FastStyle(false, false, printReal)
  }

  /** Elements i, i + 1, ... separated by a comma and a space. */
  function Spaced(es: Entries, i: nat, printReal: real -> string): string
    decreases Size(es) - i
  {
    if i >= Size(es) then ""
    else if i + 1 == Size(es) then FastText(ElementAt(es, i), Plainly(printReal))
    else FastText(ElementAt(es, i), Plainly(printReal)) + ", " + Spaced(es, i + 1, printReal)
  }

  function OneLine(es: Entries, printReal: real -> string): string {
    "[ " + Spaced(es, 0, printReal) + " ]"
  }

  predicate HasParts(v: Value) {
    match v.body
    case Array(es) => Size(es) > 0
    case Object(ms) => ms != End
    case _ => false
  }

  /** An array is written on one line when it has fewer than 25 elements, none of which
      has parts, and the line is shorter than 74 characters. */
  predicate FitsLine(es: Entries, printReal: real -> string) {
    && Size(es) < 25
    && (forall i :: 0 <= i < Size(es) ==> !HasParts(ElementAt(es, i)))
    && |OneLine(es, printReal)| < 74
  }

  function Pretty(layout: Layout, v: Value, depth: nat, printReal: real -> string): string
    decreases Weight(v), 0
  {
    if !HasParts(v) then FastText(v, Plainly(printReal))
    else
      match v.body
      case Array(es) =>
        if FitsLine(es, printReal) then OneLine(es, printReal)
        else
          Lead(layout, depth) + "[" + PrettyElements(layout, es, 0, depth + 1, printReal) + NewLine(layout, depth) + "]"
      case Object(ms) =>
        Lead(layout, depth) + "{" + PrettyMembers(layout, ms, depth + 1, printReal) + NewLine(layout, depth) + "}"
  }

  function PrettyElements(layout: Layout, es: Entries, i: nat, depth: nat, printReal: real -> string): string
    decreases 1 + WeightEntries(es), Size(es) - i
  {
    if i >= Size(es) then ""
    else
      NewLine(layout, depth) + Pretty(layout, ElementAt(es, i), depth, printReal) +
      (if i + 1 < Size(es) then "," else "") + PrettyElements(layout, es, i + 1, depth, printReal)
  }

  function PrettyMembers(layout: Layout, ms: Entries, depth: nat, printReal: real -> string): string
    decreases WeightEntries(ms), 0
  {
    match ms
    case End => ""
    case Entry(k, v, rest) =>
      NewLine(layout, depth) + Quoted(NameOf(k)) + " : " + Pretty(layout, v, depth, printReal) +
      (if rest == End then "" else ",") + PrettyMembers(layout, rest, depth, printReal)
  }

  // ---------- the styled writers print that ----------

  /** The document does not end in a character that `writeIndent` looks for. */
  predicate Inked(doc: string) {
    doc != "" && doc[|doc| - 1] != ' ' && doc[|doc| - 1] != '\n'
  }

  /** Where `writeIndent` of `StyledWriter` adds nothing to the document. */
  predicate Fresh(layout: Layout, doc: string, depth: nat) {
    layout.Styled? ==> (doc == "" && depth == 0) || (doc != "" && doc[|doc| - 1] == ' ')
  }

  lemma LeavesAre(v: Value, printReal: real -> string)
    ensures IsLeaf(v) <==> !HasParts(v)
    ensures IsLeaf(v) ==> LeafText(v.body, printReal) == FastText(v, Plainly(printReal))
  {
    match v.body {
      case Array(es) =>
        assert Size(es) == 0 ==> FastElements(es, 0, Plainly(printReal)) == "";
      case Object(ms) =>
        assert ms == End ==> FastMembers(ms, true, Plainly(printReal)) == "";
      case _ =>
    }
  }

  lemma {:induction false} AllLeavesIs(es: Entries, i: nat)
    ensures AllLeaves(es, i) <==> forall k :: i <= k < Size(es) ==> !HasParts(ElementAt(es, k))
    decreases Size(es) - i
  {
    hide IsLeaf, HasParts, ElementAt;
    if i < Size(es) {
      AllLeavesIs(es, i + 1);
      LeavesAre(ElementAt(es, i), r => "");
    }
  }

  lemma LineNext(es: Entries, i: nat, printReal: real -> string)
    requires AllLeaves(es, i)
    ensures i < Size(es) ==>
              var text := FastText(ElementAt(es, i), Plainly(printReal));
              && AllLeaves(es, i + 1)
              && LeafLine(es, i, printReal) == (if i > 0 then ", " else "") + text + LeafLine(es, i + 1, printReal)
              && LeafLengths(es, i, printReal) == |text| + LeafLengths(es, i + 1, printReal)
              && Spaced(es, i, printReal) ==
                 if i + 1 == Size(es) then text else text + ", " + Spaced(es, i + 1, printReal)
    ensures i >= Size(es) ==>
              LeafLine(es, i, printReal) == Spaced(es, i, printReal) == "" && LeafLengths(es, i, printReal) == 0
  {
    hide IsLeaf, HasParts, ElementAt, LeafText, FastText;
    if i < Size(es) {
      LeavesAre(ElementAt(es, i), printReal);
    }
  }

  /** The line, and its length. */
  lemma {:induction false} LineIs(es: Entries, i: nat, printReal: real -> string)
    requires AllLeaves(es, i)
    ensures LeafLine(es, i, printReal) == (if 0 < i < Size(es) then ", " else "") + Spaced(es, i, printReal)
    ensures |Spaced(es, i, printReal)| ==
            LeafLengths(es, i, printReal) + if i < Size(es) then (Size(es) - 1 - i) * 2 else 0
    decreases Size(es) - i
  {
    hide *;
    LineNext(es, i, printReal);
    if i < Size(es) {
      LineIs(es, i + 1, printReal);
      var text, lead := FastText(ElementAt(es, i), Plainly(printReal)), if i > 0 then ", " else "";
      LineNext(es, i + 1, printReal);
      if i + 1 < Size(es) {
        Bare(text, ", ", Spaced(es, i + 1, printReal));
        Bare(lead, text, ", " + Spaced(es, i + 1, printReal));
      } else {
        Bare(lead + text, "", "");
        assert text + "" == text;
      }
    }
  }

  lemma FitsLineIs(es: Entries, printReal: real -> string)
    requires Size(es) > 0
    ensures MultiLine(es, printReal) <==> !FitsLine(es, printReal)
    ensures FitsLine(es, printReal) ==> "[ " + LeafLine(es, 0, printReal) + " ]" == OneLine(es, printReal)
  {
    hide LeafLine, Spaced, LeafLengths, AllLeaves;
    AllLeavesIs(es, 0);
    if AllLeaves(es, 0) {
      LineIs(es, 0, printReal);
    }
  }

  lemma DigitsInked(n: nat)
    ensures Inked(Print(n))
  {
    PrintRoundTrip(n);
    assert IsDigit(Print(n)[|Print(n)| - 1]);
  }

  lemma LeafInked(v: Value, printReal: real -> string)
    requires Writable(v) && !HasParts(v)
    ensures Inked(FastText(v, Plainly(printReal)))
  {
    LeavesAre(v, printReal);
    hide FastText;
    match v.body {
      case Int(i) =>
        DigitsInked(if i < 0 then 0 - i else i);
      case UInt(u) => DigitsInked(u);
      case _ =>
    }
  }

  lemma PrettyInked(layout: Layout, v: Value, depth: nat, printReal: real -> string)
    requires Writable(v)
    ensures Inked(Pretty(layout, v, depth, printReal))
  {
    hide FastText, PrettyElements, PrettyMembers, FitsLine, Spaced, NewLine, Lead, Writable;
    if !HasParts(v) {
      LeafInked(v, printReal);
    }
  }

  /** What the writer adds at the start of a line. */
  lemma BreakIs(layout: Layout, doc: string, depth: nat)
    ensures var indent := Copies(depth, IndentationOf(layout));
            && (Inked(doc) ==> Indented(layout, doc, indent) == doc + NewLine(layout, depth))
            && (Fresh(layout, doc, depth) ==> Indented(layout, doc, indent) == doc + Lead(layout, depth))
  {
    assert doc + "" == doc;
  }

  lemma LineStartIsFresh(layout: Layout, doc: string, depth: nat)
    requires depth > 0
    ensures Fresh(layout, doc + NewLine(layout, depth), depth)
  {
  }

  lemma Deeper(layout: Layout, depth: nat)
    ensures Copies(depth, IndentationOf(layout)) + Unit(layout) == Copies(depth + 1, IndentationOf(layout))
    ensures Copies(0, IndentationOf(layout)) == ""
  {
  }

  lemma PartsAre(v: Value)
    ensures HasParts(v) ==> v.body.Array? || v.body.Object?
    ensures HasParts(v) && v.body.Array? ==> Size(v.body.elements) > 0
    ensures HasParts(v) && v.body.Object? ==> v.body.members.Entry?
    ensures v.body.Array? ==> WeightEntries(v.body.elements) + 2 == Weight(v)
    ensures v.body.Object? ==> WeightEntries(v.body.members) + 2 == Weight(v)
  {
  }

  lemma PrettyLeaf(layout: Layout, v: Value, depth: nat, printReal: real -> string)
    requires !HasParts(v)
    ensures Pretty(layout, v, depth, printReal) == FastText(v, Plainly(printReal))
  {
    hide FastText;
  }

  lemma PrettyArray(layout: Layout, v: Value, depth: nat, printReal: real -> string)
    requires HasParts(v) && v.body.Array?
    ensures var es := v.body.elements;
            Pretty(layout, v, depth, printReal) ==
            if FitsLine(es, printReal) then OneLine(es, printReal)
            else Lead(layout, depth) + "[" + PrettyElements(layout, es, 0, depth + 1, printReal) + NewLine(layout, depth) + "]"
  {
    hide FitsLine, OneLine, Lead, PrettyElements, NewLine;
  }

  lemma PrettyObject(layout: Layout, v: Value, depth: nat, printReal: real -> string)
    requires HasParts(v) && v.body.Object?
    ensures Pretty(layout, v, depth, printReal) ==
            Lead(layout, depth) + "{" + PrettyMembers(layout, v.body.members, depth + 1, printReal) +
            NewLine(layout, depth) + "}"
  {
    hide Lead, PrettyMembers, NewLine;
  }

  lemma Grouped(doc: string, a: string, b: string, c: string)
    ensures doc + a + b + c == doc + (a + b + c)
  {
    Bare(doc, a, b);
    Bare(doc, a + b, c);
  }

  lemma Assembled(doc: string, lead: string, begin: string, items: string, line: string, end: string)
    ensures doc + lead + begin + items + line + end == doc + (lead + begin + items + line + end)
  {
    Bare(doc, lead, begin);
    Bare(doc, lead + begin, items);
    Bare(doc, lead + begin + items, line);
    Bare(doc, lead + begin + items + line, end);
  }

  lemma MarkInked(doc: string, mark: string)
    requires mark in {"[", "{", ","}
    ensures Inked(doc + mark)
  {
  }

  lemma TextInked(doc: string, text: string)
    requires Inked(text)
    ensures Inked(doc + text)
  {
  }

  lemma ColonIsFresh(layout: Layout, doc: string, name: string, depth: nat)
    ensures Fresh(layout, doc + name + " : ", depth)
  {
  }

  lemma ElementsNext(layout: Layout, doc: string, es: Entries, i: nat, depth: nat, indent: string, printReal: real -> string)
    ensures i >= Size(es) ==>
              StyledElements(layout, doc, es, i, indent, printReal) == doc &&
              PrettyElements(layout, es, i, depth, printReal) == ""
    ensures i < Size(es) ==>
              var d := StyledText(layout, Indented(layout, doc, indent), ElementAt(es, i), indent, printReal);
              && StyledElements(layout, doc, es, i, indent, printReal) ==
                 StyledElements(layout, if i + 1 < Size(es) then d + "," else d, es, i + 1, indent, printReal)
              && PrettyElements(layout, es, i, depth, printReal) ==
                 NewLine(layout, depth) + Pretty(layout, ElementAt(es, i), depth, printReal) +
                 (if i + 1 < Size(es) then "," else "") + PrettyElements(layout, es, i + 1, depth, printReal)
  {
    hide StyledText, Indented, ElementAt, Pretty, NewLine;
  }

  lemma {:induction false} ElementsArePretty(
    layout: Layout, doc: string, es: Entries, i: nat, depth: nat, printReal: real -> string)
    requires WritableEntries(es) && depth > 0 && Inked(doc)
    ensures var text := doc + PrettyElements(layout, es, i, depth, printReal);
            StyledElements(layout, doc, es, i, Copies(depth, IndentationOf(layout)), printReal) == text && Inked(text)
    decreases 1 + WeightEntries(es), Size(es) - i
  {
    hide *;
    var indent := Copies(depth, IndentationOf(layout));
    ElementsNext(layout, doc, es, i, depth, indent, printReal);
    if i < Size(es) {
      var v, line := ElementAt(es, i), NewLine(layout, depth);
      FindWritable(es, Index(i));
      ElementAtIs(es, i);
      BreakIs(layout, doc, depth);
      LineStartIsFresh(layout, doc, depth);
      StyledIsPretty(layout, doc + line, v, depth, printReal);
      PrettyInked(layout, v, depth, printReal);
      var text := Pretty(layout, v, depth, printReal);
      var d := doc + line + text;
      TextInked(doc + line, text);
      MarkInked(d, ",");
      var comma := if i + 1 < Size(es) then "," else "";
      assert (if i + 1 < Size(es) then d + "," else d) == d + comma;
      ElementsArePretty(layout, d + comma, es, i + 1, depth, printReal);
      Item(doc, line, text, comma, PrettyElements(layout, es, i + 1, depth, printReal));
    } else {
      Bare(doc, "", "");
    }
  }

  lemma Item(doc: string, line: string, text: string, comma: string, rest: string)
    ensures doc + line + text + comma + rest == doc + (line + text + comma + rest)
  {
    Bare(doc, line, text);
    Bare(doc, line + text, comma);
    Bare(doc, line + text + comma, rest);
  }

  lemma MembersNext(layout: Layout, doc: string, ms: Entries, depth: nat, indent: string, printReal: real -> string)
    ensures ms.End? ==>
              StyledMembers(layout, doc, ms, indent, printReal) == doc &&
              PrettyMembers(layout, ms, depth, printReal) == ""
    ensures ms.Entry? ==>
              var front := Indented(layout, doc, indent) + Quoted(NameOf(ms.key)) + " : ";
              var d := StyledText(layout, front, ms.value, indent, printReal);
              && StyledMembers(layout, doc, ms, indent, printReal) ==
                 StyledMembers(layout, if ms.rest.Entry? then d + "," else d, ms.rest, indent, printReal)
              && PrettyMembers(layout, ms, depth, printReal) ==
                 NewLine(layout, depth) + Quoted(NameOf(ms.key)) + " : " + Pretty(layout, ms.value, depth, printReal) +
                 (if ms.rest.Entry? then "," else "") + PrettyMembers(layout, ms.rest, depth, printReal)
  {
    hide StyledText, Indented, Quoted, NameOf, Pretty, NewLine;
  }

  lemma WritableMember(ms: Entries)
    requires WritableEntries(ms) && ms.Entry?
    ensures Writable(ms.value) && WritableEntries(ms.rest)
    ensures Weight(ms.value) < WeightEntries(ms) && WeightEntries(ms.rest) < WeightEntries(ms)
  {
  }

  lemma {:induction false} MembersArePretty(
    layout: Layout, doc: string, ms: Entries, depth: nat, printReal: real -> string)
    requires WritableEntries(ms) && depth > 0 && Inked(doc)
    ensures var text := doc + PrettyMembers(layout, ms, depth, printReal);
            StyledMembers(layout, doc, ms, Copies(depth, IndentationOf(layout)), printReal) == text && Inked(text)
    decreases WeightEntries(ms), 0
  {
    hide *;
    var indent := Copies(depth, IndentationOf(layout));
    MembersNext(layout, doc, ms, depth, indent, printReal);
    if ms.Entry? {
      WritableMember(ms);
      var line, name := NewLine(layout, depth), Quoted(NameOf(ms.key));
      BreakIs(layout, doc, depth);
      var front := doc + line + name + " : ";
      ColonIsFresh(layout, doc + line, name, depth);
      StyledIsPretty(layout, front, ms.value, depth, printReal);
      PrettyInked(layout, ms.value, depth, printReal);
      var text := Pretty(layout, ms.value, depth, printReal);
      TextInked(front, text);
      MarkInked(front + text, ",");
      var comma := if ms.rest.Entry? then "," else "";
      assert (if ms.rest.Entry? then front + text + "," else front + text) == front + text + comma;
      MembersArePretty(layout, front + text + comma, ms.rest, depth, printReal);
      MemberItem(doc, line, name, text, comma, PrettyMembers(layout, ms.rest, depth, printReal));
    } else {
      Bare(doc, "", "");
    }
  }

  lemma MemberItem(doc: string, line: string, name: string, text: string, comma: string, rest: string)
    ensures doc + line + name + " : " + text + comma + rest == doc + (line + name + " : " + text + comma + rest)
  {
    Bare(doc, line, name);
    Bare(doc, line + name, " : ");
    Bare(doc, line + name + " : ", text);
    Bare(doc, line + name + " : " + text, comma);
    Bare(doc, line + name + " : " + text + comma, rest);
  }

  /** `StyledWriter` and `StyledStreamWriter`, which decide by the end of the document
      so far, lay a value out as described. */
  lemma {:induction false} StyledIsPretty(layout: Layout, doc: string, v: Value, depth: nat, printReal: real -> string)
    requires Writable(v) && Fresh(layout, doc, depth)
    ensures StyledText(layout, doc, v, Copies(depth, IndentationOf(layout)), printReal) ==
            doc + Pretty(layout, v, depth, printReal)
    decreases Weight(v), 0
  {
    hide *;
    var indent := Copies(depth, IndentationOf(layout));
    LeavesAre(v, printReal);
    WritableParts(v);
    Deeper(layout, depth);
    if IsLeaf(v) {
      StyledLeaf(layout, doc, v, indent, printReal);
      PrettyLeaf(layout, v, depth, printReal);
    } else {
      PartsAre(v);
      BreakIs(layout, doc, depth);
      match v.body {
        case Array(es) =>
          FitsLineIs(es, printReal);
          PrettyArray(layout, v, depth, printReal);
          if FitsLine(es, printReal) {
            StyledLine(layout, doc, v, indent, printReal);
            Grouped(doc, "[ ", LeafLine(es, 0, printReal), " ]");
          } else {
            StyledArray(layout, doc, v, indent, printReal);
            var start := doc + Lead(layout, depth) + "[";
            MarkInked(doc + Lead(layout, depth), "[");
            ElementsArePretty(layout, start, es, 0, depth + 1, printReal);
            var items := PrettyElements(layout, es, 0, depth + 1, printReal);
            BreakIs(layout, start + items, depth);
            Assembled(doc, Lead(layout, depth), "[", items, NewLine(layout, depth), "]");
          }
        case Object(ms) =>
          PrettyObject(layout, v, depth, printReal);
          StyledObject(layout, doc, v, indent, printReal);
          var start := doc + Lead(layout, depth) + "{";
          MarkInked(doc + Lead(layout, depth), "{");
          MembersArePretty(layout, start, ms, depth + 1, printReal);
          var items := PrettyMembers(layout, ms, depth + 1, printReal);
          BreakIs(layout, start + items, depth);
          Assembled(doc, Lead(layout, depth), "{", items, NewLine(layout, depth), "}");
      }
    }
  }

  /** A styled document. */
  lemma StyledDocumentIs(layout: Layout, v: Value, printReal: real -> string)
    requires Writable(v)
    ensures StyledDocument(layout, v, printReal) == Pretty(layout, v, 0, printReal) + "\n"
  {
    hide StyledText, Pretty, Writable;
    Deeper(layout, 0);
    StyledIsPretty(layout, "", v, 0, printReal);
    Bare(Pretty(layout, v, 0, printReal), "", "");
  }

  /** What the round trips are not about: reals are printed by the C library, a null string
      pointer prints as nothing, and so does null when placeholders are dropped. */
  lemma OtherLeaves(v: Value, style: FastStyle)
    ensures v.body.Real? ==> FastText(v, style) == style.printReal(v.body.r)
    ensures v.body.NullStr? ==> FastText(v, style) == ""
    ensures v.body.Null? ==> FastText(v, style) == if style.dropNull then "" else "null"
  {
  }

  /** With its YAML setting `FastWriter` puts one space behind the colon. */
  lemma YamlExample(name: string, i: int, dropNull: bool, printReal: real -> string)
    ensures FastText(Plain(Object(Entry(Name(name), Plain(Int(i)), End))), FastStyle(true, dropNull, printReal)) ==
            "{" + Quoted(name) + ": " + PrintInteger(i) + "}"
  {
    hide Quoted, PrintInteger;
    var style, v := FastStyle(true, dropNull, printReal), Plain(Int(i));
    assert FastText(v, style) == PrintInteger(i) && FastMembers(End, false, style) == "";
    var text := Quoted(name) + ": " + PrintInteger(i);
    assert "" + Quoted(name) + ": " + PrintInteger(i) + "" == text;
    assert FastMembers(Entry(Name(name), v, End), true, style) == text;
    assert "{" + text + "}" == "{" + Quoted(name) + ": " + PrintInteger(i) + "}";
  }
}
