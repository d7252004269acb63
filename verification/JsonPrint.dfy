/** What the three JSON writers print, as functions of the value. */
module JsonPrint {
  import opened CStrings
  import opened Decimal
  import opened JsonValue
  import opened JsonText
  import opened JsonSyntax

  // ---------- scalars ----------

  function PrintInteger(i: int): string {
    if i < 0 then "-" + Print(0 - i) else Print(i)
  }

  predicate IsControl(c: char) {
    0 < c as int <= 0x1f
  }

  /** How `valueToQuotedString` writes one character. */
  function QuoteChar(c: char): Char {
    if c == '"' then Short('"')
    else if c == '\\' then Short('\\')
    else if c == BACKSPACE then Short('b')
    else if c == FORM_FEED then Short('f')
    else if c == '\n' then Short('n')
    else if c == '\r' then Short('r')
    else if c == '\t' then Short('t')
    else if IsControl(c) then Unicode(PrintHex4(c as int))
    else Raw(c)
  }

  function QuoteChars(s: string): (cs: seq<Char>)
    ensures |cs| == |s|
  {
    if s == "" then [] else [QuoteChar(s[0])] + QuoteChars(s[1..])
  }

  function Quoted(s: string): string {
    RenderString(QuoteChars(s))
  }

  /** The text of a value without children; `printReal` is the C library's "%.16g". */
  function LeafText(b: Body, printReal: real -> string): string {
    match b
    case Null => "null"
    case Int(i) => PrintInteger(i)
    case UInt(u) => Print(u)
    case Real(r) => printReal(r)
    case Str(s) => Quoted(s)
    case NullStr => ""
    case Bool(b) => if b then "true" else "false"
    case Array(_) => "[]"
    case Object(_) => "{}"
  }

  function ElementAt(es: Entries, i: nat): (v: Value)
    ensures Weight(v) <= 1 + WeightEntries(es)
  {
    Find(es, Index(i))
  }

  // ---------- FastWriter ----------

  /** The writer's settings: a space after the colon, null printed as nothing. */
  datatype FastStyle = FastStyle(yaml: bool, dropNull: bool, printReal: real -> string)

  function FastText(v: Value, style: FastStyle): string
    decreases Weight(v), 0
  {
    match v.body
    case Null => if style.dropNull then "" else "null"
    case Array(es) => "[" + FastElements(es, 0, style) + "]"
    case Object(ms) => "{" + FastMembers(ms, true, style) + "}"
    case _ => LeafText(v.body, style.printReal)
  }

  /** Elements i, i + 1, ... of an array, each but element 0 behind a comma. */
  function FastElements(es: Entries, i: nat, style: FastStyle): string
    decreases 1 + WeightEntries(es), Size(es) - i
  {
    if i >= Size(es) then ""
    else (if i > 0 then "," else "") + FastText(ElementAt(es, i), style) + FastElements(es, i + 1, style)
  }

  function FastMembers(ms: Entries, first: bool, style: FastStyle): string
    decreases WeightEntries(ms), 0
  {
    match ms
    case End => ""
    case Entry(k, v, rest) =>
      (if first then "" else ",") + Quoted(NameOf(k)) + (if style.yaml then ": " else ":") +
      FastText(v, style) + FastMembers(rest, false, style)
  }

  function NameOf(k: Key): string {
    if k.Name? then k.name else ""
  }

  // ---------- StyledWriter and StyledStreamWriter ----------

  const RIGHT_MARGIN := 74

  /** The two styled writers differ in `writeIndent` and in the unit of indentation. */
  datatype Layout = Styled | Stream(indentation: string)

  function Unit(layout: Layout): string {
    if layout.Styled? then "   " else layout.indentation
  }

  /** What `writeIndent` adds to the document. */
  function LineBreak(layout: Layout, doc: string, indent: string): string {
    if layout.Stream? then "\n" + indent
    else if doc == "" then indent
    else if doc[|doc| - 1] == ' ' then ""
    else if doc[|doc| - 1] == '\n' then indent
    else "\n" + indent
  }

  function Indented(layout: Layout, doc: string, indent: string): string {
    doc + LineBreak(layout, doc, indent)
  }

  /** `childValue.size()` of an array or object. */
  function SizeOf(v: Value): nat {
    match v.body
    case Array(es) => Size(es)
    case Object(ms) => Count(ms)
    case _ => 0
  }

  predicate IsLeaf(v: Value) {
    SizeOf(v) == 0
  }

  predicate AllLeaves(es: Entries, i: nat)
    decreases Size(es) - i
  {
    i < Size(es) ==> IsLeaf(ElementAt(es, i)) && AllLeaves(es, i + 1)
  }

  lemma {:induction false} LeafAt(es: Entries, i: nat, k: nat)
    requires AllLeaves(es, i) && i <= k < Size(es)
    ensures IsLeaf(Find(es, Index(k)))
    decreases k - i
  {
    if i < k {
      LeafAt(es, i + 1, k);
    }
  }

  function LeafLengths(es: Entries, i: nat, printReal: real -> string): nat
    decreases Size(es) - i
  {
    if i >= Size(es) then 0
    else |LeafText(ElementAt(es, i).body, printReal)| + LeafLengths(es, i + 1, printReal)
  }

  /** Whether an array is spread over several lines. */
  predicate MultiLine(es: Entries, printReal: real -> string) {
    || Size(es) * 3 >= RIGHT_MARGIN
    || !AllLeaves(es, 0)
    || 4 + (Size(es) - 1) * 2 + LeafLengths(es, 0, printReal) >= RIGHT_MARGIN
  }

  /** Leaves i, i + 1, ... of an array on one line. */
  function LeafLine(es: Entries, i: nat, printReal: real -> string): string
    decreases Size(es) - i
  {
    if i >= Size(es) then ""
    else (if i > 0 then ", " else "") + LeafText(ElementAt(es, i).body, printReal) + LeafLine(es, i + 1, printReal)
  }

  /** The document after the value is written behind `doc`. */
  function StyledText(layout: Layout, doc: string, v: Value, indent: string, printReal: real -> string): string
    decreases Weight(v), 0
  {
    if IsLeaf(v) then doc + LeafText(v.body, printReal)
    else
      match v.body
      case Object(ms) =>
        var inner := StyledMembers(layout, Indented(layout, doc, indent) + "{", ms, indent + Unit(layout), printReal);
        Indented(layout, inner, indent) + "}"
      case Array(es) =>
        if !MultiLine(es, printReal) then doc + "[ " + LeafLine(es, 0, printReal) + " ]"
        else
          var inner := StyledElements(layout, Indented(layout, doc, indent) + "[", es, 0, indent + Unit(layout), printReal);
          Indented(layout, inner, indent) + "]"
      case _ => doc
  }

  function StyledElements(
    layout: Layout, doc: string, es: Entries, i: nat, indent: string, printReal: real -> string): string
    decreases 1 + WeightEntries(es), Size(es) - i
  {
    if i >= Size(es) then doc
    else
      var d := StyledText(layout, Indented(layout, doc, indent), ElementAt(es, i), indent, printReal);
      StyledElements(layout, if i + 1 < Size(es) then d + "," else d, es, i + 1, indent, printReal)
  }

  function StyledMembers(layout: Layout, doc: string, ms: Entries, indent: string, printReal: real -> string): string
    decreases WeightEntries(ms), 0
  {
    match ms
    case End => doc
    case Entry(k, v, rest) =>
      var d := StyledText(layout, Indented(layout, doc, indent) + Quoted(NameOf(k)) + " : ", v, indent, printReal);
      StyledMembers(layout, if rest.Entry? then d + "," else d, rest, indent, printReal)
  }

  // ---------- the values the writers can print as JSON ----------

  /** No real numbers, no null string pointers, arrays whose size fits an `int`. */
  predicate Writable(v: Value) {
    match v.body
    case Real(_) => false
    case NullStr => false
    case Str(s) => NulFree(s)
    case Int(i) => MIN_INT64 <= i <= MAX_INT64
    case UInt(u) => u <= MAX_UINT64
    case Array(es) => Sorted(es, false) && WritableEntries(es)
    case Object(ms) => Sorted(ms, true) && WritableEntries(ms)
    case _ => true
  }

  predicate WritableEntries(m: Entries) {
    match m
    case End => true
    case Entry(k, v, rest) => ValidKey(k) && Writable(v) && WritableEntries(rest)
  }

  /** Integers as the reader represents them. */
  function NormalInteger(i: int): Body {
    if 0 <= i <= MAX_INT || i < 0 then Int(i) else UInt(i)
  }

  /** The value the reader makes of what a writer prints: integers in the reader's
      representation, holes of sparse arrays filled with null, no offsets. */
  function Normal(v: Value): Value
    decreases Weight(v), 0
  {
    match v.body
    case Int(i) => Plain(NormalInteger(i))
    case UInt(u) => Plain(NormalInteger(u))
    case Array(es) => Plain(Array(NormalElements(es, 0)))
    case Object(ms) => Plain(Object(NormalMembers(ms)))
    case _ => Plain(v.body)
  }

  function NormalElements(es: Entries, i: nat): Entries
    decreases 1 + WeightEntries(es), Size(es) - i
  {
    if i >= Size(es) then End
    else Entry(Index(i), Normal(ElementAt(es, i)), NormalElements(es, i + 1))
  }

  function NormalMembers(ms: Entries): Entries
    decreases WeightEntries(ms), 0
  {
    match ms
    case End => End
    case Entry(k, v, rest) => Entry(k, Normal(v), NormalMembers(rest))
  }
}
