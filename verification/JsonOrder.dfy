/** `Value::operator<`, `operator==` and `compare`, and the proof that they order
    all values: a strict total order in step with the equality. */
module JsonOrder {
  import opened JsonValue

  // ---------- the operators ----------

  /** `ValueType`, the order of the kinds of value. */
  function TypeOf(b: Body): nat {
    match b
    case Null => 0
    case Int(_) => 1
    case UInt(_) => 2
    case Real(_) => 3
    case Str(_) => 4
    case NullStr => 4
    case Bool(_) => 5
    case Array(_) => 6
    case Object(_) => 7
  }

  /** Conversion of a `size_t` difference to `int`: the low 32 bits, as a signed number. */
  function ToInt(n: int): (r: int)
    ensures -0x8000_0000 <= r < 0x8000_0000 && (n - r) % 0x1_0000_0000 == 0
  {
    var low := n % 0x1_0000_0000;
    if low < 0x8000_0000 then low else low - 0x1_0000_0000
  }

  predicate Less(a: Value, b: Value)
    decreases Weight(a) + Weight(b), 0
  {
    if TypeOf(a.body) != TypeOf(b.body) then TypeOf(a.body) < TypeOf(b.body)
    else
      match (a.body, b.body)
      case (Int(i), Int(j)) => i < j
      case (UInt(i), UInt(j)) => i < j
      case (Real(x), Real(y)) => x < y
      case (Bool(x), Bool(y)) => !x && y
      case (NullStr, Str(_)) => true
      case (Str(s), Str(t)) => StringLess(s, t)
      case (Array(m), Array(n)) => MapsLess(m, n)
      case (Object(m), Object(n)) => MapsLess(m, n)
      case _ => false
  }

  predicate MapsLess(m: Entries, n: Entries)
    decreases WeightEntries(m) + WeightEntries(n), 1
  {
    var delta := ToInt(Count(m) - Count(n));
    if delta != 0 then delta < 0 else Lexicographic(m, n)
  }

  /** `std::map`'s `operator<`: lexicographic comparison of the (key, value) pairs. */
  predicate Lexicographic(m: Entries, n: Entries)
    decreases WeightEntries(m) + WeightEntries(n), 0
  {
    if n.End? then false
    else if m.End? then true
    else if PairLess(m.key, m.value, n.key, n.value) then true
    else if PairLess(n.key, n.value, m.key, m.value) then false
    else Lexicographic(m.rest, n.rest)
  }

  predicate PairLess(k: Key, v: Value, l: Key, w: Value)
    decreases Weight(v) + Weight(w), 1
  {
    KeyLess(k, l) || (!KeyLess(l, k) && Less(v, w))
  }

  predicate Equal(a: Value, b: Value)
    decreases a
  {
    if TypeOf(a.body) != TypeOf(b.body) then false
    else
      match (a.body, b.body)
      case (Array(m), Array(n)) => Count(m) == Count(n) && EntriesEqual(m, n)
      case (Object(m), Object(n)) => Count(m) == Count(n) && EntriesEqual(m, n)
      case _ => a.body == b.body
  }

  predicate EntriesEqual(m: Entries, n: Entries)
    requires Count(m) == Count(n)
    decreases m
  {
    m.End? || (m.key == n.key && Equal(m.value, n.value) && EntriesEqual(m.rest, n.rest))
  }

  function Compare(a: Value, b: Value): int {
    if Less(a, b) then -1 else if Less(b, a) then 1 else 0
  }

  // ---------- the laws ----------

  /** Equality looks at everything but the offsets. */
  lemma {:induction false} EqualIsStrip(a: Value, b: Value)
    ensures Equal(a, b) <==> Strip(a) == Strip(b)
    decreases a
  {
    match (a.body, b.body) {
      case (Array(m), Array(n)) => EntriesEqualIsStrip(m, n);
      case (Object(m), Object(n)) => EntriesEqualIsStrip(m, n);
      case _ =>
    }
  }

  lemma {:induction false} EntriesEqualIsStrip(m: Entries, n: Entries)
    ensures Count(m) == Count(n) && EntriesEqual(m, n) <==> StripEntries(m) == StripEntries(n)
    decreases m
  {
    if m.Entry? && n.Entry? {
      EqualIsStrip(m.value, n.value);
      EntriesEqualIsStrip(m.rest, n.rest);
    }
  }

  /** Sizes whose difference survives the conversion to `int`, and keys of one
      kind per map; both hold for every valid value. */
  lemma DeltaSign(i: nat, j: nat)
    requires i <= MAX_INT && j <= MAX_INT
    ensures ToInt(i - j) == i - j
  {
  }

  predicate Kinds(m: Entries, names: bool) {
    m.Entry? ==> m.key.Name? == names && Kinds(m.rest, names)
  }

  lemma {:induction false} SortedKinds(m: Entries, names: bool)
    requires Sorted(m, names)
    ensures Kinds(m, names)
  {
    if m.Entry? {
      SortedKinds(m.rest, names);
    }
  }

  /** At most one of "less", "greater" and "equal" holds, and at least one. */
  lemma {:induction false} Trichotomy(a: Value, b: Value)
    requires Valid(a) && Valid(b)
    ensures Less(a, b) ==> !Less(b, a) && Strip(a) != Strip(b)
    ensures Strip(a) == Strip(b) ==> !Less(a, b) && !Less(b, a)
    ensures Less(a, b) || Less(b, a) || Strip(a) == Strip(b)
    decreases Weight(a) + Weight(b), 0
  {
    match (a.body, b.body) {
      case (Str(s), Str(t)) => StringTotal(s, t);
      case (Array(m), Array(n)) => MapsTrichotomy(m, n, false);
      case (Object(m), Object(n)) => MapsTrichotomy(m, n, true);
      case _ =>
    }
  }

  lemma {:induction false} MapsTrichotomy(m: Entries, n: Entries, names: bool)
    requires Sorted(m, names) && Sorted(n, names) && ValidEntries(m) && ValidEntries(n)
    requires Count(m) <= MAX_INT && Count(n) <= MAX_INT
    ensures MapsLess(m, n) ==> !MapsLess(n, m) && StripEntries(m) != StripEntries(n)
    ensures StripEntries(m) == StripEntries(n) ==> !MapsLess(m, n) && !MapsLess(n, m)
    ensures MapsLess(m, n) || MapsLess(n, m) || StripEntries(m) == StripEntries(n)
    decreases WeightEntries(m) + WeightEntries(n), 2
  {
    hide Lexicographic, StripEntries, Kinds, Sorted, ValidEntries, Count, ToInt;
    DeltaSign(Count(m), Count(n));
    DeltaSign(Count(n), Count(m));
    StripCount(m);
    StripCount(n);
    SortedKinds(m, names);
    SortedKinds(n, names);
    LexTrichotomy(m, n, names);
  }

  lemma {:induction false} StripCount(m: Entries)
    ensures Count(StripEntries(m)) == Count(m)
  {
    if m.Entry? {
      StripCount(m.rest);
    }
  }

  /** The first pairs decide the comparison in favour of the first map. */
  predicate HeadLess(m: Entries, n: Entries)
    requires m.Entry? && n.Entry?
  {
    PairLess(m.key, m.value, n.key, n.value)
  }

  predicate HeadEqual(m: Entries, n: Entries)
    requires m.Entry? && n.Entry?
  {
    m.key == n.key && Strip(m.value) == Strip(n.value)
  }

  lemma {:induction false} HeadTrichotomy(m: Entries, n: Entries, names: bool)
    requires m.Entry? && n.Entry? && Kinds(m, names) && Kinds(n, names)
    requires ValidEntries(m) && ValidEntries(n)
    ensures HeadLess(m, n) ==> !HeadLess(n, m) && !HeadEqual(m, n)
    ensures HeadLess(m, n) || HeadLess(n, m) || HeadEqual(m, n)
    ensures HeadEqual(m, n) ==> !HeadLess(m, n) && !HeadLess(n, m)
    decreases WeightEntries(m) + WeightEntries(n), 0
  {
    KeyTotal(m.key, n.key);
    Trichotomy(m.value, n.value);
  }

  lemma {:induction false} LexTrichotomy(m: Entries, n: Entries, names: bool)
    requires Kinds(m, names) && Kinds(n, names) && ValidEntries(m) && ValidEntries(n)
    ensures Lexicographic(m, n) ==> !Lexicographic(n, m) && StripEntries(m) != StripEntries(n)
    ensures StripEntries(m) == StripEntries(n) ==> !Lexicographic(m, n) && !Lexicographic(n, m)
    ensures Lexicographic(m, n) || Lexicographic(n, m) || StripEntries(m) == StripEntries(n)
    decreases WeightEntries(m) + WeightEntries(n), 1
  {
    if m.Entry? && n.Entry? {
      HeadTrichotomy(m, n, names);
      LexTrichotomy(m.rest, n.rest, names);
    }
  }

  lemma {:induction false} LessTransitive(a: Value, b: Value, c: Value)
    requires Valid(a) && Valid(b) && Valid(c)
    requires Less(a, b) && Less(b, c)
    ensures Less(a, c)
    decreases Weight(a) + Weight(b) + Weight(c), 0
  {
    match (a.body, b.body, c.body) {
      case (Str(s), Str(t), Str(u)) => StringTransitive(s, t, u);
      case (Array(m), Array(n), Array(o)) => MapsTransitive(m, n, o, false);
      case (Object(m), Object(n), Object(o)) => MapsTransitive(m, n, o, true);
      case _ =>
    }
  }

  lemma {:induction false} MapsTransitive(m: Entries, n: Entries, o: Entries, names: bool)
    requires Sorted(m, names) && Sorted(n, names) && Sorted(o, names)
    requires ValidEntries(m) && ValidEntries(n) && ValidEntries(o)
    requires Count(m) <= MAX_INT && Count(n) <= MAX_INT && Count(o) <= MAX_INT
    requires MapsLess(m, n) && MapsLess(n, o)
    ensures MapsLess(m, o)
    decreases WeightEntries(m) + WeightEntries(n) + WeightEntries(o), 2
  {
    hide Lexicographic, Kinds, Sorted, ValidEntries, Count, ToInt;
    DeltaSign(Count(m), Count(n));
    DeltaSign(Count(n), Count(o));
    DeltaSign(Count(m), Count(o));
    if Count(m) == Count(n) == Count(o) {
      SortedKinds(m, names);
      SortedKinds(n, names);
      SortedKinds(o, names);
      LexTransitive(m, n, o, names);
    }
  }

  /** Values equal to a smaller one are interchangeable with it. */
  lemma {:induction false} LessStrip(a: Value, b: Value)
    ensures Less(a, b) <==> Less(Strip(a), Strip(b))
    decreases Weight(a) + Weight(b), 0
  {
    match (a.body, b.body) {
      case (Array(m), Array(n)) =>
        StripCount(m);
        StripCount(n);
        LexStrip(m, n);
      case (Object(m), Object(n)) =>
        StripCount(m);
        StripCount(n);
        LexStrip(m, n);
      case _ =>
    }
  }

  lemma {:induction false} LexStrip(m: Entries, n: Entries)
    ensures Lexicographic(m, n) <==> Lexicographic(StripEntries(m), StripEntries(n))
    decreases WeightEntries(m) + WeightEntries(n), 0
  {
    if m.Entry? && n.Entry? {
      LessStrip(m.value, n.value);
      LessStrip(n.value, m.value);
      LexStrip(m.rest, n.rest);
    }
  }

  lemma {:induction false} LexTransitive(m: Entries, n: Entries, o: Entries, names: bool)
    requires Kinds(m, names) && Kinds(n, names) && Kinds(o, names)
    requires ValidEntries(m) && ValidEntries(n) && ValidEntries(o)
    requires Lexicographic(m, n) && Lexicographic(n, o)
    ensures Lexicographic(m, o)
    decreases WeightEntries(m) + WeightEntries(n) + WeightEntries(o), 1
  {
    if m.Entry? && n.Entry? && o.Entry? {
      var p, q := HeadLess(m, n), HeadLess(n, o);
      HeadTransitive(m, n, o, names);
      if !p && !q {
        LexTransitive(m.rest, n.rest, o.rest, names);
      }
    }
  }

  lemma {:induction false} HeadTransitive(m: Entries, n: Entries, o: Entries, names: bool)
    requires m.Entry? && n.Entry? && o.Entry?
    requires Kinds(m, names) && Kinds(n, names) && Kinds(o, names)
    requires ValidEntries(m) && ValidEntries(n) && ValidEntries(o)
    requires Lexicographic(m, n) && Lexicographic(n, o)
    ensures HeadLess(m, n) || HeadLess(n, o) ==> HeadLess(m, o)
    ensures !HeadLess(m, n) && !HeadLess(n, o) ==> HeadEqual(m, o)
    ensures HeadEqual(m, o) ==> !HeadLess(m, o) && !HeadLess(o, m)
    decreases WeightEntries(m) + WeightEntries(n) + WeightEntries(o), 0
  {
    HeadTrichotomy(m, n, names);
    HeadTrichotomy(n, o, names);
    HeadTrichotomy(m, o, names);
    if HeadLess(m, n) && HeadLess(n, o) {
      if KeyLess(m.key, n.key) && KeyLess(n.key, o.key) {
        KeyTransitive(m.key, n.key, o.key);
      } else {
        KeyTotal(m.key, n.key);
        KeyTotal(n.key, o.key);
        if m.key == n.key && n.key == o.key {
          LessTransitive(m.value, n.value, o.value);
        }
      }
    } else {
      LessStrip(m.value, o.value);
      LessStrip(m.value, n.value);
      LessStrip(n.value, o.value);
    }
  }

  // ---------- which order it is ----------

  /** The kinds in ascending order: null, signed and unsigned integers, reals, strings,
      truth values, arrays and objects. */
  lemma KindsOrdered(a: Value, b: Value)
    ensures var x, y := a.body, b.body;
            var ascending :=
              || (x.Null? && !y.Null?)
              || (x.Int? && !y.Null? && !y.Int?)
              || (x.UInt? && (y.Real? || y.Str? || y.NullStr? || y.Bool? || y.Array? || y.Object?))
              || (x.Real? && (y.Str? || y.NullStr? || y.Bool? || y.Array? || y.Object?))
              || ((x.Str? || x.NullStr?) && (y.Bool? || y.Array? || y.Object?))
              || (x.Bool? && (y.Array? || y.Object?))
              || (x.Array? && y.Object?);
            ascending ==> Less(a, b) && !Less(b, a)
  {
  }

  /** Two values of one kind are compared by what they hold. */
  lemma LeavesOrdered(a: Value, b: Value)
    ensures var x, y := a.body, b.body;
            && (x.Null? && y.Null? ==> !Less(a, b))
            && (x.Int? && y.Int? ==> (Less(a, b) <==> x.i < y.i))
            && (x.UInt? && y.UInt? ==> (Less(a, b) <==> x.u < y.u))
            && (x.Real? && y.Real? ==> (Less(a, b) <==> x.r < y.r))
            && (x.Bool? && y.Bool? ==> (Less(a, b) <==> x == Bool(false) && y == Bool(true)))
            && (x.Str? && y.Str? ==> (Less(a, b) <==> exists k: nat :: DiffersAt(x.text, y.text, k)))
            && (x.NullStr? ==> (y.Str? ==> Less(a, b)) && (y.Str? || y.NullStr? ==> !Less(b, a)))
  {
    if a.body.Str? && b.body.Str? {
      StringLessIff(a.body.text, b.body.text);
    }
  }

  function KeyAt(m: Entries, i: nat): Key
    requires i < Count(m)
  {
    if i == 0 then m.key else KeyAt(m.rest, i - 1)
  }

  function ValueAt(m: Entries, i: nat): Value
    requires i < Count(m)
  {
    if i == 0 then m.value else ValueAt(m.rest, i - 1)
  }

  /** The entries in front of the i-th agree, and the i-th of `m` is the lesser. */
  predicate DecidedAt(m: Entries, n: Entries, i: nat) {
    && i < Count(m) && i < Count(n)
    && (forall j :: 0 <= j < i ==> KeyAt(m, j) == KeyAt(n, j) && Equal(ValueAt(m, j), ValueAt(n, j)))
    && (|| KeyLess(KeyAt(m, i), KeyAt(n, i))
        || (KeyAt(m, i) == KeyAt(n, i) && Less(ValueAt(m, i), ValueAt(n, i))))
  }

  lemma DecidedFirst(m: Entries, n: Entries, names: bool)
    requires m.Entry? && n.Entry? && Kinds(m, names) && Kinds(n, names)
    ensures DecidedAt(m, n, 0) <==> HeadLess(m, n)
  {
    hide Less, Equal, KeyLess;
    KeyTotal(m.key, n.key);
  }

  lemma RestAt(m: Entries, j: nat)
    requires m.Entry? && j + 1 < Count(m)
    ensures KeyAt(m, j + 1) == KeyAt(m.rest, j) && ValueAt(m, j + 1) == ValueAt(m.rest, j)
  {
  }

  lemma DecidedInRest(m: Entries, n: Entries, i: nat)
    requires m.Entry? && n.Entry? && DecidedAt(m, n, i + 1)
    ensures m.key == n.key && Equal(m.value, n.value) && DecidedAt(m.rest, n.rest, i)
  {
    hide Less, Equal, KeyLess, KeyAt, ValueAt;
    HeadAt(m);
    HeadAt(n);
    assert KeyAt(m, 0) == KeyAt(n, 0) && Equal(ValueAt(m, 0), ValueAt(n, 0));
    forall j | 0 <= j < i
      ensures KeyAt(m.rest, j) == KeyAt(n.rest, j) && Equal(ValueAt(m.rest, j), ValueAt(n.rest, j))
    {
      RestAt(m, j);
      RestAt(n, j);
      assert KeyAt(m, j + 1) == KeyAt(n, j + 1) && Equal(ValueAt(m, j + 1), ValueAt(n, j + 1));
    }
    RestAt(m, i);
    RestAt(n, i);
  }

  lemma DecidedLater(m: Entries, n: Entries, i: nat)
    requires m.Entry? && n.Entry?
    requires m.key == n.key && Equal(m.value, n.value) && DecidedAt(m.rest, n.rest, i)
    ensures DecidedAt(m, n, i + 1)
  {
    hide Less, Equal, KeyLess, KeyAt, ValueAt;
    HeadAt(m);
    HeadAt(n);
    forall j | 0 <= j < i + 1
      ensures KeyAt(m, j) == KeyAt(n, j) && Equal(ValueAt(m, j), ValueAt(n, j))
    {
      if j > 0 {
        RestAt(m, j - 1);
        RestAt(n, j - 1);
      }
    }
    RestAt(m, i);
    RestAt(n, i);
  }

  lemma HeadAt(m: Entries)
    requires m.Entry?
    ensures KeyAt(m, 0) == m.key && ValueAt(m, 0) == m.value
  {
  }

  lemma {:induction false} LexDecided(m: Entries, n: Entries, names: bool)
    requires Count(m) == Count(n)
    requires Kinds(m, names) && Kinds(n, names) && ValidEntries(m) && ValidEntries(n)
    ensures Lexicographic(m, n) <==> exists i: nat :: DecidedAt(m, n, i)
    decreases m
  {
    hide DecidedAt, Less, Equal, KeyLess, Strip, Valid;
    if m.End? {
      NothingDecided(m, n);
    } else {
      HeadTrichotomy(m, n, names);
      EqualIsStrip(m.value, n.value);
      DecidedFirst(m, n, names);
      LexDecided(m.rest, n.rest, names);
      if HeadEqual(m, n) {
        if i: nat :| DecidedAt(m.rest, n.rest, i) {
          DecidedLater(m, n, i);
        }
      }
      if i: nat :| DecidedAt(m, n, i) {
        if i > 0 {
          DecidedInRest(m, n, i - 1);
        }
      }
    }
  }

  lemma NothingDecided(m: Entries, n: Entries)
    requires m.End?
    ensures !Lexicographic(m, n) || n.Entry?
    ensures !exists i: nat :: DecidedAt(m, n, i)
  {
  }

  predicate SameContainer(a: Body, b: Body) {
    (a.Array? && b.Array?) || (a.Object? && b.Object?)
  }

  function EntriesOf(b: Body): Entries {
    match b
    case Array(m) => m
    case Object(m) => m
    case _ => End
  }

  /** Of two arrays, and of two objects, the one with fewer entries is the lesser; among
      equally many, the first differing pair of key and value decides, the key first. */
  lemma ContainersOrdered(a: Value, b: Value)
    requires Valid(a) && Valid(b) && SameContainer(a.body, b.body)
    ensures var m, n := EntriesOf(a.body), EntriesOf(b.body);
            Less(a, b) <==> Count(m) < Count(n) || (Count(m) == Count(n) && exists i: nat :: DecidedAt(m, n, i))
  {
    hide DecidedAt, Lexicographic, ValidEntries, Sorted, Kinds, Count, ToInt;
    var m, n, names := EntriesOf(a.body), EntriesOf(b.body), a.body.Object?;
    DeltaSign(Count(m), Count(n));
    SortedKinds(m, names);
    SortedKinds(n, names);
    if Count(m) == Count(n) {
      LexDecided(m, n, names);
    }
  }

  /** The operators form a strict total order in step with equality, through
      arbitrarily nested arrays and objects. */
  lemma TotalOrder(a: Value, b: Value, c: Value)
    requires Valid(a) && Valid(b) && Valid(c)
    ensures !Less(a, a)
    ensures Less(a, b) && Less(b, c) ==> Less(a, c)
    ensures Compare(a, b) == 0 <==> Equal(a, b)
    ensures Compare(a, b) == -1 <==> Less(a, b)
    ensures Compare(a, b) == -Compare(b, a)
    ensures Equal(a, b) ==> (Less(a, c) <==> Less(b, c)) && (Less(c, a) <==> Less(c, b))
  {
    hide Less, Equal, Strip;
    Trichotomy(a, a);
    Trichotomy(a, b);
    EqualIsStrip(a, b);
    if Less(a, b) && Less(b, c) {
      LessTransitive(a, b, c);
    }
    LessStrip(a, c);
    LessStrip(b, c);
    LessStrip(c, a);
    LessStrip(c, b);
  }
}
