/** The JSON value tree: `Json::Value` without its comments. A `char` stands for
    one byte of a C string. */
module JsonValue {
  import opened CStrings

  /** `Value::CZString`: the key of a map, an array index or a member name. */
  datatype Key = Index(index: nat) | Name(name: string)

  /** What a value holds. `NullStr` is a string value whose pointer is null. */
  datatype Body =
    | Null
    | Int(i: int)
    | UInt(u: nat)
    | Real(r: real)
    | Str(text: string)
    | NullStr
    | Bool(b: bool)
    | Array(elements: Entries)
    | Object(members: Entries)

  /** `start` and `limit` are the value's place in the document it was read from. */
  datatype Value = Value(body: Body, start: nat, limit: nat)

  /** `Value::ObjectValues`, a `std::map`: its entries in ascending order of the keys. */
  datatype Entries = End | Entry(key: Key, value: Value, rest: Entries)

  function Plain(body: Body): Value {
    Value(body, 0, 0)
  }

  const MIN_INT64 := -0x8000_0000_0000_0000
  const MAX_INT64 := 0x7fff_ffff_ffff_ffff
  const MAX_UINT64 := 0xffff_ffff_ffff_ffff
  const MAX_INT := 0x7fff_ffff

  /** Negation of a 64-bit integer, which maps the smallest one to itself. */
  function Negate64(value: int): int {
    if value == MIN_INT64 then value else 0 - value
  }

  // ---------- order of keys ----------

  /** `strcmp(a, b) < 0`. */
  predicate StringLess(a: string, b: string) {
    b != "" && (a == "" || a[0] < b[0] || (a[0] == b[0] && StringLess(a[1..], b[1..])))
  }

  /** `b` continues what it shares with `a` by a greater character, or `a` ends there. */
  predicate DiffersAt(a: string, b: string, k: nat) {
    && k <= |a| && k < |b| && a[..k] == b[..k]
    && (k == |a| || a[k] as int < b[k] as int)
  }

  /** The order of the bytes: the first difference decides, and a prefix comes first. */
  lemma {:induction false} StringLessIff(a: string, b: string)
    ensures StringLess(a, b) <==> exists k: nat :: DiffersAt(a, b, k)
    decreases |b|
  {
    if b != "" {
      if a == "" {
        assert DiffersAt(a, b, 0);
      } else if a[0] == b[0] {
        StringLessIff(a[1..], b[1..]);
        if k: nat :| DiffersAt(a[1..], b[1..], k) {
          assert a[..k + 1] == [a[0]] + a[1..][..k] && b[..k + 1] == [b[0]] + b[1..][..k];
          assert DiffersAt(a, b, k + 1);
        }
        if k: nat :| DiffersAt(a, b, k) {
          assert a[1..][..k - 1] == a[..k][1..] && b[1..][..k - 1] == b[..k][1..];
          assert DiffersAt(a[1..], b[1..], k - 1);
        }
      } else {
        assert a[0] < b[0] ==> DiffersAt(a, b, 0);
        if k: nat :| DiffersAt(a, b, k) {
          assert k > 0 ==> a[..k][0] == b[..k][0];
        }
      }
    }
  }

  /** `CZString::operator<` on keys of one map. */
  predicate KeyLess(a: Key, b: Key) {
    match (a, b)
    case (Name(x), Name(y)) => StringLess(x, y)
    case (Index(i), Index(j)) => i < j
    case _ => false
  }

  predicate SameKind(a: Key, b: Key) {
    a.Name? <==> b.Name?
  }

  /** Member names are ordered by their bytes, array indices by their size. */
  lemma KeyLessIff(a: Key, b: Key)
    ensures a.Name? && b.Name? ==> (KeyLess(a, b) <==> exists k: nat :: DiffersAt(a.name, b.name, k))
    ensures a.Index? && b.Index? ==> (KeyLess(a, b) <==> a.index < b.index)
  {
    if a.Name? && b.Name? {
      StringLessIff(a.name, b.name);
    }
  }

  lemma {:induction false} StringTotal(a: string, b: string)
    ensures StringLess(a, b) || StringLess(b, a) || a == b
    ensures !(StringLess(a, b) && StringLess(b, a))
    ensures !StringLess(a, a)
    decreases |a|
  {
    if a != "" {
      StringTotal(a[1..], a[1..]);
      if b != "" && a[0] == b[0] {
        StringTotal(a[1..], b[1..]);
        assert a == [a[0]] + a[1..] && b == [b[0]] + b[1..];
      }
    }
  }

  lemma {:induction false} StringTransitive(a: string, b: string, c: string)
    requires StringLess(a, b) && StringLess(b, c)
    ensures StringLess(a, c)
    decreases |a|
  {
    if a != "" && a[0] == b[0] && b[0] == c[0] {
      StringTransitive(a[1..], b[1..], c[1..]);
    }
  }

  lemma KeyTotal(a: Key, b: Key)
    requires SameKind(a, b)
    ensures KeyLess(a, b) || KeyLess(b, a) || a == b
    ensures !(KeyLess(a, b) && KeyLess(b, a))
    ensures !KeyLess(a, a)
  {
    if a.Name? {
      StringTotal(a.name, b.name);
    }
  }

  lemma KeyTransitive(a: Key, b: Key, c: Key)
    requires KeyLess(a, b) && KeyLess(b, c)
    ensures KeyLess(a, c)
  {
    if a.Name? {
      StringTransitive(a.name, b.name, c.name);
    }
  }

  // ---------- the map operations ----------

  function Weight(v: Value): nat {
    match v.body
    case Array(es) => 2 + WeightEntries(es)
    case Object(es) => 2 + WeightEntries(es)
    case _ => 1
  }

  function WeightEntries(m: Entries): nat {
    match m
    case End => 0
    case Entry(_, v, rest) => 1 + Weight(v) + WeightEntries(rest)
  }

  function Find(m: Entries, key: Key): (r: Value)
    ensures Weight(r) < 2 + WeightEntries(m)
  {
    match m
    case End => Plain(Null)
    case Entry(k, v, rest) => if k == key then v else Find(rest, key)
  }

  predicate Contains(m: Entries, key: Key) {
    m.Entry? && (m.key == key || Contains(m.rest, key))
  }

  /** Insert or replace, keeping the order. */
  function Put(m: Entries, key: Key, value: Value): (r: Entries)
    ensures r.Entry?
  {
    match m
    case End => Entry(key, value, End)
    case Entry(k, v, rest) =>
      if k == key then Entry(k, value, rest)
      else if KeyLess(key, k) then Entry(key, value, m)
      else Entry(k, v, Put(rest, key, value))
  }

  /** `resolveReference`: make sure the key is there, as null if it was not. */
  function Resolve(m: Entries, key: Key): Entries {
    if Contains(m, key) then m else Put(m, key, Plain(Null))
  }

  /** What `operator[]` finds under a key. */
  function Child(m: Entries, key: Key): Value {
    Find(Resolve(m, key), key)
  }

  lemma {:induction false} PutTwice(m: Entries, key: Key, u: Value, v: Value)
    ensures Put(Put(m, key, u), key, v) == Put(m, key, v)
  {
    if m.Entry? {
      PutTwice(m.rest, key, u, v);
    }
  }

  lemma {:induction false} PutResolve(m: Entries, key: Key, v: Value)
    ensures Put(Resolve(m, key), key, v) == Put(m, key, v)
  {
    PutTwice(m, key, Plain(Null), v);
  }

  function Count(m: Entries): nat {
    match m
    case End => 0
    case Entry(_, _, rest) => 1 + Count(rest)
  }

  /** All keys lie above `key`. */
  predicate Above(m: Entries, key: Key) {
    m.Entry? ==> KeyLess(key, m.key) && Above(m.rest, key)
  }

  /** What `std::map` guarantees: keys of one kind, strictly ascending. */
  predicate Sorted(m: Entries, names: bool) {
    m.Entry? ==> (m.key.Name? <==> names) && Above(m.rest, m.key) && Sorted(m.rest, names)
  }

  /** `Value::size` of an array: the highest index plus one. */
  function Size(m: Entries): nat {
    match m
    case End => 0
    case Entry(k, _, rest) => if rest.End? then (if k.Index? then k.index + 1 else 0) else Size(rest)
  }

  lemma {:induction false} AboveTransitive(m: Entries, a: Key, b: Key)
    requires KeyLess(a, b) && Above(m, b)
    ensures Above(m, a)
  {
    if m.Entry? {
      KeyTransitive(a, b, m.key);
      AboveTransitive(m.rest, a, b);
    }
  }

  lemma {:induction false} PutAbove(m: Entries, key: Key, value: Value, low: Key)
    requires Above(m, low) && KeyLess(low, key)
    ensures Above(Put(m, key, value), low)
  {
    if m.Entry? && m.key != key && !KeyLess(key, m.key) {
      PutAbove(m.rest, key, value, low);
    }
  }

  /** `Put` keeps the map sorted, stores the value under its key and touches no other. */
  lemma {:induction false} PutFind(m: Entries, key: Key, value: Value, other: Key)
    requires Sorted(m, key.Name?) && other.Name? == key.Name?
    ensures Sorted(Put(m, key, value), key.Name?)
    ensures Find(Put(m, key, value), key) == value
    ensures other != key ==> Find(Put(m, key, value), other) == Find(m, other)
    ensures Contains(Put(m, key, value), other) <==> other == key || Contains(m, other)
  {
    if m.Entry? {
      KeyTotal(key, m.key);
      if KeyLess(key, m.key) {
        AboveTransitive(m.rest, key, m.key);
      } else if key != m.key {
        PutFind(m.rest, key, value, other);
        PutAbove(m.rest, key, value, m.key);
      }
    }
  }

  /** The size of an array is the number behind its highest index. */
  lemma {:induction false} SizeIs(m: Entries, i: nat)
    requires Sorted(m, false)
    ensures Contains(m, Index(i)) ==> i < Size(m)
    ensures i + 1 == Size(m) ==> Contains(m, Index(i))
  {
    if m.Entry? && m.rest.Entry? {
      SizeIs(m.rest, i);
      HighestAbove(m.rest, m.key.index);
    } else if m.Entry? {
      assert m.key.Index? && !Contains(m.rest, Index(i));
    }
  }

  lemma {:induction false} HighestAbove(m: Entries, i: nat)
    requires m.Entry? && Sorted(m, false) && Above(m, Index(i))
    ensures i < Size(m)
  {
    if m.rest.Entry? {
      HighestAbove(m.rest, i);
    }
  }

  // ---------- valid values ----------

  predicate ValidKey(k: Key) {
    match k
    case Name(n) => NulFree(n)
    case Index(i) => i < MAX_INT
  }

  /** Numbers in range, C strings without embedded NUL, maps as `std::map` keeps them. */
  predicate Valid(v: Value) {
    match v.body
    case Int(i) => MIN_INT64 <= i <= MAX_INT64
    case UInt(u) => u <= MAX_UINT64
    case Str(s) => NulFree(s)
    case Array(es) => Sorted(es, false) && Count(es) <= MAX_INT && ValidEntries(es)
    case Object(es) => Sorted(es, true) && Count(es) <= MAX_INT && ValidEntries(es)
    case _ => true
  }

  predicate ValidEntries(m: Entries) {
    match m
    case End => true
    case Entry(k, v, rest) => ValidKey(k) && Valid(v) && ValidEntries(rest)
  }

  /** The value with every offset forgotten. */
  function Strip(v: Value): Value {
    match v.body
    case Array(es) => Plain(Array(StripEntries(es)))
    case Object(es) => Plain(Object(StripEntries(es)))
    case _ => Plain(v.body)
  }

  function StripEntries(m: Entries): Entries {
    match m
    case End => End
    case Entry(k, v, rest) => Entry(k, Strip(v), StripEntries(rest))
  }

  lemma {:induction false} StripPut(m: Entries, key: Key, value: Value)
    ensures StripEntries(Put(m, key, value)) == Put(StripEntries(m), key, Strip(value))
  {
    if m.Entry? {
      StripPut(m.rest, key, value);
    }
  }
}
