/** What was read can be written and read again: the values of accepted documents. */
module JsonStable {
  import opened CStrings
  import opened Optional
  import opened Decimal
  import opened JsonValue
  import opened JsonSyntax
  import opened JsonParse
  import opened JsonAccept
  import opened JsonExact
  import opened JsonPrint
  import opened JsonRoundTrip

  predicate NoReals(v: Value) {
    match v.body
    case Real(_) => false
    case Array(es) => NoRealEntries(es)
    case Object(ms) => NoRealEntries(ms)
    case _ => true
  }

  predicate NoRealEntries(m: Entries) {
    m.Entry? ==> NoReals(m.value) && NoRealEntries(m.rest)
  }

  /** The entries have the keys i, i + 1, ... */
  predicate Dense(m: Entries, i: nat) {
    m.Entry? ==> m.key == Index(i) && Dense(m.rest, i + 1)
  }

  /** What the reader makes: integers up to 2^31 - 1 signed and larger ones unsigned, C
      strings, arrays without holes, objects sorted by name. */
  predicate Tidy(v: Value) {
    match v.body
    case Int(i) => -0x8000_0000_0000_0000 <= i <= 0x7fff_ffff
    case UInt(u) => 0x7fff_ffff < u <= 0xffff_ffff_ffff_ffff
    case Str(s) => NulFree(s)
    case NullStr => false
    case Array(es) => Dense(es, 0) && Count(es) <= 0x7fff_ffff && TidyEntries(es)
    case Object(ms) => Sorted(ms, true) && Count(ms) <= 0x7fff_ffff && TidyMembers(ms)
    case _ => true
  }

  predicate TidyEntries(m: Entries) {
    m.Entry? ==> Tidy(m.value) && TidyEntries(m.rest)
  }

  predicate TidyMembers(m: Entries) {
    m.Entry? ==> m.key.Name? && NulFree(m.key.name) && Tidy(m.value) && TidyMembers(m.rest)
  }

  // ---------- what a text denotes is tidy ----------

  lemma {:induction false} TidyPut(m: Entries, name: string, v: Value)
    requires TidyMembers(m) && NulFree(name) && Tidy(v)
    ensures TidyMembers(Put(m, Name(name), v)) && Count(Put(m, Name(name), v)) <= Count(m) + 1
  {
    hide Tidy, KeyLess;
    if m.Entry? {
      TidyPut(m.rest, name, v);
    }
  }

  lemma NumberTidy(n: Number, scan: string -> Option<real>)
    requires LooseNumber(n) && (ExactNumber(n) || scan(RenderNumber(n)).Some?)
    ensures Tidy(Plain(DenoteNumber(n, scan)))
  {
    hide RenderNumber, ValueOf, LooseNumber;
  }

  lemma {:induction false} DenoteTidy(j: Json, scan: string -> Option<real>)
    requires LooseJson(j) && Scans(j, scan) && |Render(j)| <= 0x7fff_ffff
    ensures Tidy(Denote(j, scan))
    decreases j
  {
    hide LooseNumber, LooseChars, RenderNumber, DenoteNumber, DenoteChars, Gap, AllSpace, CString, ExactNumber,
         RenderElements, RenderMembers, LooseElements, LooseMembers, ScansElements, ScansMembers,
         DenoteElements, DenoteMembers, TidyEntries, TidyMembers, Dense, Sorted, Count;
    match j {
      case JNumber(n) =>
        NumberTidy(n, scan);
      case JArray(_, es) =>
        ElementsTidy(es, 0, scan);
      case JObject(_, ms) =>
        NothingTidy();
        MembersTidy(ms, End, scan);
        MembersLength(ms);
      case _ =>
    }
  }

  lemma NothingTidy()
    ensures TidyMembers(End) && Sorted(End, true) && Count(End) == 0
  {
  }

  lemma ElementLength(es: Elements)
    requires es.Element?
    ensures |RenderElements(es)| > |Render(es.value)|
    ensures es.rest.Element? ==> |RenderElements(es)| > |RenderElements(es.rest)|
  {
    hide Render;
    assert RenderElement(es) == Render(es.value) + AfterElement(es);
    if es.rest.Element? {
      assert AfterElement(es) == es.after + ("," + RenderElements(es.rest));
    } else {
      assert AfterElement(es) == es.after + "]";
    }
  }

  lemma {:induction false} ElementsTidy(es: Elements, index: nat, scan: string -> Option<real>)
    requires LooseElements(es) && ScansElements(es, scan)
    requires es.Element? ==> index + |RenderElements(es)| <= 0x7fff_ffff
    ensures var m := DenoteElements(es, index, scan);
            && Dense(m, index) && TidyEntries(m)
            && index + Count(m) <= if es.Element? then 0x7fff_ffff else index
    decreases es
  {
    hide Render, RenderElements, Denote, Tidy, Gap, AllSpace, LooseJson, Scans;
    if es.Element? {
      ElementLength(es);
      DenoteTidy(es.value, scan);
      ElementsTidy(es.rest, index + 1, scan);
    }
  }

  lemma MembersLength(ms: Members)
    ensures |Render(JObject("", ms))| > if ms.NoMember? then 0 else |RenderMembers(ms)|
  {
    hide RenderMembers;
  }

  lemma MemberLength(ms: Members)
    requires ms.Member?
    ensures |RenderMembers(ms)| > |Render(ms.value)|
    ensures !ms.rest.NoMember? ==> |RenderMembers(ms)| > |RenderMembers(ms.rest)|
  {
    hide Render, RenderString;
    RenderMembersIs(ms);
    if !ms.rest.NoMember? {
      assert AfterMember(ms) == ms.after + (ms.separator + RenderMembers(ms.rest));
    } else {
      assert AfterMember(ms) == ms.after + "}";
    }
  }

  lemma {:induction false} MembersTidy(ms: Members, m: Entries, scan: string -> Option<real>)
    requires LooseMembers(ms) && ScansMembers(ms, scan)
    requires !ms.NoMember? ==> |RenderMembers(ms)| <= 0x7fff_ffff
    requires TidyMembers(m) && Sorted(m, true)
    ensures var n := DenoteMembers(ms, m, scan);
            && TidyMembers(n) && Sorted(n, true)
            && Count(n) <= Count(m) + if ms.NoMember? then 0 else |RenderMembers(ms)|
    decreases ms
  {
    hide *;
    match ms {
      case Member(_, name, _, _, value, _, _, rest) =>
        MemberLength(ms);
        MemberDenotes(ms, m, scan);
        DenoteTidy(value, scan);
        var key := CString(DenoteChars(name));
        TidyPut(m, key, Denote(value, scan));
        PutFind(m, Name(key), Denote(value, scan), Name(key));
        MembersTidy(rest, Put(m, Name(key), Denote(value, scan)), scan);
      case _ =>
        NoMemberDenotes(ms, m, scan);
    }
  }

  lemma NoMemberDenotes(ms: Members, m: Entries, scan: string -> Option<real>)
    requires !ms.Member? && LooseMembers(ms) && ScansMembers(ms, scan)
    ensures DenoteMembers(ms, m, scan) == m
  {
  }

  // ---------- tidy values print as themselves ----------

  /** The entries from number i on. */
  function Drop(m: Entries, i: nat): Entries {
    if i == 0 || m.End? then m else Drop(m.rest, i - 1)
  }

  lemma {:induction false} DropNext(m: Entries, i: nat)
    requires i < Count(m)
    ensures Drop(m, i).Entry? && Drop(m, i + 1) == Drop(m, i).rest
  {
    if i > 0 {
      DropNext(m.rest, i - 1);
    }
  }

  lemma {:induction false} DropEnd(m: Entries)
    ensures Drop(m, Count(m)) == End
  {
    if m.Entry? {
      DropEnd(m.rest);
    }
  }

  lemma {:induction false} DenseFind(m: Entries, first: nat, i: nat)
    requires Dense(m, first) && i < Count(m)
    ensures Drop(m, i).Entry? && Drop(m, i).key == Index(first + i)
    ensures Find(m, Index(first + i)) == Drop(m, i).value
  {
    if i > 0 {
      DenseFind(m.rest, first + 1, i - 1);
    }
  }

  lemma {:induction false} DenseSize(m: Entries, first: nat)
    requires Dense(m, first)
    ensures Size(m) == if m.End? then 0 else first + Count(m)
  {
    if m.Entry? {
      DenseSize(m.rest, first + 1);
    }
  }

  lemma {:induction false} DenseAbove(m: Entries, first: nat, low: nat)
    requires Dense(m, first) && low < first
    ensures Above(m, Index(low))
  {
    if m.Entry? {
      DenseAbove(m.rest, first + 1, low);
    }
  }

  lemma {:induction false} DenseSorted(m: Entries, first: nat)
    requires Dense(m, first)
    ensures Sorted(m, false)
  {
    if m.Entry? {
      DenseAbove(m.rest, first + 1, first);
      DenseSorted(m.rest, first + 1);
    }
  }

  /** A tidy value without reals can be written, and reading would not change it. */
  lemma {:induction false} TidyIsNormal(v: Value)
    requires Tidy(v) && NoReals(v)
    ensures Writable(v) && Normal(v) == Strip(v)
    decreases Weight(v), 0
  {
    hide NormalElements, NormalMembers, Dense, Sorted, TidyEntries, TidyMembers, WritableEntries, NoRealEntries, Count,
         StripEntries;
    match v.body {
      case Array(es) =>
        DenseSorted(es, 0);
        EntriesWritable(es, 0);
        ElementsNormal(es, 0);
        DropAll(es);
      case Object(ms) =>
        MembersNormal(ms);
      case _ =>
    }
  }

  lemma DropAll(m: Entries)
    ensures Drop(m, 0) == m
  {
  }

  lemma {:induction false} EntriesWritable(es: Entries, first: nat)
    requires Dense(es, first) && first + Count(es) <= 0x7fff_ffff && TidyEntries(es) && NoRealEntries(es)
    ensures WritableEntries(es)
    decreases WeightEntries(es), 1
  {
    hide Writable, Normal, Strip, Tidy, NoReals;
    if es.Entry? {
      TidyIsNormal(es.value);
      EntriesWritable(es.rest, first + 1);
    }
  }

  lemma {:induction false} DropTidy(m: Entries, i: nat)
    requires TidyEntries(m) && NoRealEntries(m) && i < Count(m)
    ensures Drop(m, i).Entry? && Tidy(Drop(m, i).value) && NoReals(Drop(m, i).value)
    ensures Weight(Drop(m, i).value) < WeightEntries(m)
  {
    hide Tidy, NoReals;
    if i > 0 {
      DropTidy(m.rest, i - 1);
    }
  }

  lemma {:induction false} ElementsNormal(es: Entries, i: nat)
    requires Dense(es, 0) && TidyEntries(es) && NoRealEntries(es) && i <= Count(es)
    ensures NormalElements(es, i) == StripEntries(Drop(es, i))
    decreases WeightEntries(es) + 1, Count(es) - i
  {
    hide Normal, Strip, Tidy, NoReals, Find, Size, Dense, TidyEntries, NoRealEntries, Count, Drop, Writable;
    DenseSize(es, 0);
    SizeOrEnd(es);
    if i == Count(es) {
      DropEnd(es);
    } else {
      DropTidy(es, i);
      DropNext(es, i);
      DenseFind(es, 0, i);
      TidyIsNormal(Drop(es, i).value);
      ElementsNormal(es, i + 1);
    }
  }

  lemma SizeOrEnd(es: Entries)
    ensures es.End? <==> Count(es) == 0
  {
  }

  lemma {:induction false} MembersNormal(ms: Entries)
    requires TidyMembers(ms) && NoRealEntries(ms)
    ensures WritableEntries(ms) && NormalMembers(ms) == StripEntries(ms)
    decreases WeightEntries(ms), 1
  {
    hide Writable, Normal, Strip, Tidy, NoReals;
    if ms.Entry? {
      TidyIsNormal(ms.value);
      MembersNormal(ms.rest);
    }
  }

  // ---------- tidy values are valid ----------

  lemma {:induction false} TidyIsValid(v: Value)
    requires Tidy(v)
    ensures Valid(v)
    decreases Weight(v), 0
  {
    hide Dense, Sorted, TidyEntries, TidyMembers, ValidEntries, Count;
    match v.body {
      case Array(es) =>
        DenseSorted(es, 0);
        EntriesValid(es, 0);
      case Object(ms) =>
        MembersValid(ms);
      case _ =>
    }
  }

  lemma {:induction false} EntriesValid(es: Entries, first: nat)
    requires Dense(es, first) && first + Count(es) <= 0x7fff_ffff && TidyEntries(es)
    ensures ValidEntries(es)
    decreases WeightEntries(es), 1
  {
    hide Valid, Tidy;
    if es.Entry? {
      TidyIsValid(es.value);
      EntriesValid(es.rest, first + 1);
    }
  }

  lemma {:induction false} MembersValid(ms: Entries)
    requires TidyMembers(ms)
    ensures ValidEntries(ms)
    decreases WeightEntries(ms), 1
  {
    hide Valid, Tidy;
    if ms.Entry? {
      TidyIsValid(ms.value);
      MembersValid(ms.rest);
    }
  }

  // ---------- documents ----------

  lemma {:induction false} StripTwice(v: Value)
    ensures Strip(Strip(v)) == Strip(v)
    ensures NoReals(Strip(v)) <==> NoReals(v)
    decreases v
  {
    match v.body {
      case Array(es) => StripEntriesTwice(es);
      case Object(ms) => StripEntriesTwice(ms);
      case _ =>
    }
  }

  lemma {:induction false} StripEntriesTwice(m: Entries)
    ensures StripEntries(StripEntries(m)) == StripEntries(m)
    ensures NoRealEntries(StripEntries(m)) <==> NoRealEntries(m)
    decreases m
  {
    hide Strip, NoReals;
    if m.Entry? {
      StripTwice(m.value);
      StripEntriesTwice(m.rest);
    }
  }

  lemma StartsShort(env: Env, strictRoot: bool, pre: string, j: Json, post: string)
    requires Starts(env, strictRoot, pre, j, post) && |env.doc| <= 0x7fff_ffff
    ensures |Render(j)| <= 0x7fff_ffff
  {
    hide Render, ValueGap, Readable, Scans;
  }

  /** Every value that was read is valid: numbers in range, no NUL in strings, arrays
      without holes, members sorted and without duplicates. */
  lemma ReadIsValid(env: Env, strictRoot: bool, root: Value)
    requires |env.doc| <= 0x7fff_ffff && Parse(env, strictRoot, root).ok
    ensures var v := Strip(Parse(env, strictRoot, root).value); Valid(v) && Tidy(v)
  {
    hide *;
    AcceptedIff(env, strictRoot, root);
    var pre, j, post :| Starts(env, strictRoot, pre, j, post);
    StartsShort(env, strictRoot, pre, j, post);
    DenoteTidy(j, env.scan);
    TidyIsValid(Denote(j, env.scan));
  }

  /** Whatever document without reals is accepted: the value is one the writers can print,
      and parsing what `FastWriter` prints for it gives the same value. */
  lemma ReadWriteRead(env: Env, strictRoot: bool, root: Value, style: FastStyle, again: Env, root2: Value)
    requires |env.doc| <= 0x7fff_ffff && Parse(env, strictRoot, root).ok && NoReals(Parse(env, strictRoot, root).value)
    requires !style.dropNull && again.doc == FastText(Parse(env, strictRoot, root).value, style)
    ensures var v, r := Parse(env, strictRoot, root).value, Parse(again, false, root2);
            && Writable(Strip(v)) && r.ok && r.pos == |again.doc| && Strip(r.value) == Strip(v)
  {
    hide *;
    ReadIsValid(env, strictRoot, root);
    var v := Parse(env, strictRoot, root).value;
    StripTwice(v);
    TidyIsNormal(Strip(v));
    StripPrintsSame(v, style);
    FastRoundTrip(Strip(v), style, again, root2);
  }
}
