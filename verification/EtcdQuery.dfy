/**
 * Reading a registry from etcd (register/etcd_repo.py `query_paginated`,
 * register/etcd_client.py `range`, `_prefix_range_end`). Keys are byte strings,
 * written as strings whose characters are bytes.
 */
module EtcdQuery {
  import opened Order
  import opened EtcdStore

  // ---- prefix scans --------------------------------------------------------------------

  predicate IsBytes(s: string) { forall i | 0 <= i < |s| :: s[i] <= '\U{ff}' }

  /** `_prefix_range_end`: an empty prefix and a prefix that ends in 255 raise. */
  function RangeEnd(prefix: string): Option<string>
    requires IsBytes(prefix)
  {
    if prefix == [] || prefix[|prefix| - 1] == '\U{ff}' then None
    else Some(prefix[..|prefix| - 1] + [(prefix[|prefix| - 1] as int + 1) as char])
  }

  /** The keys etcd returns for `[lo, hi)`. */
  predicate InRange(key: string, lo: string, hi: string) { !StrLess(key, lo) && StrLess(key, hi) }

  /** The byte interval of a prefix contains exactly the keys that extend the prefix. */
  lemma {:induction false} PrefixRangeExact(prefix: string, key: string)
    requires IsBytes(prefix) && RangeEnd(prefix).Some?
    ensures InRange(key, prefix, RangeEnd(prefix).value) <==> prefix <= key
  {
    var hi := RangeEnd(prefix).value;
    if |prefix| == 1 {
      assert hi == [(prefix[0] as int + 1) as char];
      if key != [] {
        assert !StrLess(key[1..], hi[1..]) && !StrLess(key[1..], prefix[1..]);
        assert InRange(key, prefix, hi) <==> key[0] == prefix[0];
        assert prefix <= key <==> key[0] == prefix[0] by {
          if key[0] == prefix[0] { assert key[..1] == prefix; }
        }
      }
    } else if key == [] {
    } else if key[0] == prefix[0] {
      assert RangeEnd(prefix[1..]).value == hi[1..];
      PrefixRangeExact(prefix[1..], key[1..]);
      assert prefix <= key <==> prefix[1..] <= key[1..] by {
        assert prefix == [prefix[0]] + prefix[1..] && key == [key[0]] + key[1..];
      }
    }
  }

  /**
   * A row, whatever its id, is under the prefix of `name` if and only if it belongs to it, or
   * its registry's name continues the prefix, or `name` goes on beyond its registry's name
   * into its id.
   */
  lemma RowUnderPrefix(name: string, registry: string, sid: string)
    ensures name + "/" <= RowKey(registry, sid) <==>
              || registry == name
              || name + "/" <= registry
              || (registry + "/" <= name && name[|registry| + 1..] + "/" <= sid)
  {
    var key, p, own := RowKey(registry, sid), name + "/", registry + "/";
    if |registry| < |name| {
      assert key[..|own|] == own && key[|own|..] == sid;
      if own <= name { assert p == own + (name[|own|..] + "/"); }
      if p <= key {
        assert name[..|own|] == p[..|own|] == key[..|own|] == own;
        assert p[|own|..] == key[..|p|][|own|..] == sid[..|p| - |own|];
      }
    } else if |name| == |registry| {
      if p <= key { assert name == key[..|name|] == registry; }
      if registry == name { assert key[..|p|] == p; }
    } else {
      if p <= key { assert p == key[..|p|] == registry[..|p|]; }
      if p <= registry { assert key[..|p|] == registry[..|p|]; }
    }
  }

  /** Neither name followed by a slash starts the other. */
  predicate Apart(a: string, b: string) { !(a + "/" <= b + "/") && !(b + "/" <= a + "/") }

  lemma StartsOnlyItself(a: string, b: string)
    requires '/' !in b
    ensures a + "/" <= b + "/" <==> a == b
  {
    if |a| < |b| { assert b[|a|] in b && (b + "/")[|a|] == b[|a|] && (a + "/")[|a|] == '/'; }
    if |a| == |b| { assert (a + "/")[..|a|] == a && (b + "/")[..|a|] == b; }
  }

  lemma ApartBySlash(a: string, b: string)
    requires a != b && '/' !in a && '/' !in b
    ensures Apart(a, b)
  {
    StartsOnlyItself(a, b);
    StartsOnlyItself(b, a);
  }

  /** Two registries keep their rows apart under the prefix of the one, for all ids, if and only if they are one or apart. */
  lemma IsolatedIff(name: string, registry: string)
    ensures (forall sid :: name + "/" <= RowKey(registry, sid) <==> registry == name) <==> registry == name || Apart(name, registry)
  {
    if registry == name {
      forall sid ensures name + "/" <= RowKey(registry, sid) { RowUnderPrefix(name, registry, sid); }
    } else if Apart(name, registry) {
      forall sid ensures !(name + "/" <= RowKey(registry, sid)) {
        RowUnderPrefix(name, registry, sid);
      }
    } else {
      var sid := Intruder(name, registry);
      assert name + "/" <= RowKey(registry, sid);
    }
  }

  /** An id under which a row of the one registry shows up in the other. */
  lemma Intruder(name: string, registry: string) returns (sid: string)
    requires registry != name && !Apart(name, registry)
    ensures name + "/" <= RowKey(registry, sid)
  {
    if name + "/" <= registry + "/" {
      sid := "";
      assert RowKey(registry, sid) == registry + "/";
    } else {
      sid := (name + "/")[|registry| + 1..];
      assert RowKey(registry, sid) == registry + "/" + sid == name + "/";
    }
  }

  /** Two registries can hold one and the same key, so that a row of the one overwrites the other's, if and only if they are not apart. */
  lemma KeysCollideIff(a: string, b: string)
    requires a != b
    ensures (exists x, y :: RowKey(a, x) == RowKey(b, y)) <==> !Apart(a, b)
  {
    if x, y :| RowKey(a, x) == RowKey(b, y) {
      var key, p, q := RowKey(a, x), a + "/", b + "/";
      assert p == key[..|p|] && q == key[..|q|];
      if |p| <= |q| { assert p == q[..|p|]; } else { assert q == p[..|q|]; }
    }
    if a + "/" <= b + "/" {
      var rest := (b + "/")[|a| + 1..];
      assert RowKey(a, rest) == b + "/" == RowKey(b, "");
    } else if b + "/" <= a + "/" {
      var rest := (a + "/")[|b| + 1..];
      assert RowKey(b, rest) == a + "/" == RowKey(a, "");
    }
  }

  // ---- values and filters ---------------------------------------------------------------

  /** `_extract_value`: a column, or with `data.` in front a member of the data. */
  function Extract(row: Row, field: string): Value {
    var v := if "data." <= field then Lookup(row.data, field[5..]) else Lookup(row.columns, field);
    if v.Some? then v.value else Null
  }

  /** `_matches` */
  predicate Matches(row: Row, filter: map<string, Value>) { forall k | k in filter :: Extract(row, k) == filter[k] }

  const RUNNING: Value := Text("\U{8fd0}\U{884c}")

  /** The persisted status, where a missing or falsy one means running. */
  function Status(row: Row): Value {
    var v := Lookup(row.data, "status");
    if Falsy(v) then RUNNING else v.value
  }

  predicate Keeps(row: Row, filter: Option<map<string, Value>>, status: Option<string>) {
    && (filter.Some? ==> Matches(row, filter.value))
    && (status.Some? ==> Status(row) == Text(status.value))
  }

  /** `_rows` followed by the two filters, in key order. */
  function Selected(kvs: seq<(string, Stored)>, lo: string, hi: string, filter: Option<map<string, Value>>, status: Option<string>): seq<Row> {
    if kvs == [] then []
    else
      var (key, value) := kvs[0];
      (if InRange(key, lo, hi) && value.Entry? && Keeps(value.row, filter, status) then [value.row] else [])
      + Selected(kvs[1..], lo, hi, filter, status)
  }

  // ---- orders ----------------------------------------------------------------------------

  datatype OrderItem = OrderItem(field: string, desc: bool)

  /** `_sort_tuple` comparison: None below every value. Numbers and texts do not meet in one column. */
  predicate ValueLess(a: Value, b: Value) {
    match (a, b)
    case (_, Null) => false
    case (Null, _) => true
    case (Num(x), Num(y)) => x < y
    case (Num(_), Text(_)) => true
    case (Text(_), Num(_)) => false
    case (Text(x), Text(y)) => StrLess(x, y)
  }

  lemma ValueWeakOrder(a: Value, b: Value, c: Value)
    ensures ValueLess(a, b) ==> !ValueLess(b, a)
    ensures ValueLess(a, c) ==> ValueLess(a, b) || ValueLess(b, c)
  {
    if a.Text? && b.Text? {
      if StrLess(a.s, b.s) { StrAsymmetric(a.s, b.s); }
      StrTotal(a.s, b.s);
      if c.Text? && StrLess(b.s, a.s) && StrLess(a.s, c.s) { StrTransitive(b.s, a.s, c.s); }
    }
  }

  /** Does `a` come strictly before `b` under one order item? `reverse` turns the comparison around. */
  predicate Before(item: OrderItem, a: Row, b: Row) {
    var x, y := Extract(a, item.field), Extract(b, item.field);
    if item.desc then ValueLess(y, x) else ValueLess(x, y)
  }

  /** Does `a` come strictly before `b`, first item most significant? */
  predicate LexBefore(items: seq<OrderItem>, a: Row, b: Row) {
    items != [] && (Before(items[0], a, b) || (!Before(items[0], b, a) && LexBefore(items[1..], a, b)))
  }

  lemma BeforeWeakOrder(item: OrderItem, a: Row, b: Row, c: Row)
    ensures Before(item, a, b) ==> !Before(item, b, a)
    ensures Before(item, a, c) ==> Before(item, a, b) || Before(item, b, c)
  {
    var x, y, z := Extract(a, item.field), Extract(b, item.field), Extract(c, item.field);
    ValueWeakOrder(x, y, z);
    ValueWeakOrder(z, y, x);
    ValueWeakOrder(y, x, z);
  }

  lemma {:induction false} LexWeakOrder(items: seq<OrderItem>, a: Row, b: Row, c: Row)
    ensures LexBefore(items, a, b) ==> !LexBefore(items, b, a)
    ensures LexBefore(items, a, c) ==> LexBefore(items, a, b) || LexBefore(items, b, c)
  {
    if items != [] {
      LexWeakOrder(items[1..], a, b, c);
      BeforeWeakOrder(items[0], a, b, c);
      BeforeWeakOrder(items[0], c, a, b);
      BeforeWeakOrder(items[0], b, a, c);
      BeforeWeakOrder(items[0], b, c, a);
      BeforeWeakOrder(items[0], c, b, a);
      BeforeWeakOrder(items[0], a, c, b);
    }
  }

  // ---- stable sorting -------------------------------------------------------------------

  /** Put a row that stood in front of `s` at its place, before everything it ties with. */
  function Insert(items: seq<OrderItem>, x: Row, s: seq<Row>): seq<Row> {
    if s == [] || !LexBefore(items, s[0], x) then [x] + s else [s[0]] + Insert(items, x, s[1..])
  }

  /** One stable sort by the whole list of items. */
  function StableSort(items: seq<OrderItem>, s: seq<Row>): seq<Row> {
    if s == [] then [] else Insert(items, s[0], StableSort(items, s[1..]))
  }

  /** The source's way: one stable sort per item, least significant first. */
  function SortRepeatedly(items: seq<OrderItem>, s: seq<Row>): seq<Row> {
    if items == [] then s else StableSort([items[0]], SortRepeatedly(items[1..], s))
  }

  ghost predicate Sorted(items: seq<OrderItem>, s: seq<Row>) {
    forall i, j | 0 <= i < j < |s| :: !LexBefore(items, s[j], s[i])
  }

  lemma {:induction false} InsertElements(items: seq<OrderItem>, x: Row, s: seq<Row>)
    ensures multiset(Insert(items, x, s)) == multiset([x] + s)
    ensures forall r :: r in Insert(items, x, s) <==> r == x || r in s
  {
    if s == [] || !LexBefore(items, s[0], x) {
    } else {
      InsertElements(items, x, s[1..]);
      assert s == [s[0]] + s[1..];
    }
  }

  lemma {:induction false} SortElements(items: seq<OrderItem>, s: seq<Row>)
    ensures multiset(StableSort(items, s)) == multiset(s)
    ensures forall r :: r in StableSort(items, s) <==> r in s
  {
    if s != [] {
      SortElements(items, s[1..]);
      InsertElements(items, s[0], StableSort(items, s[1..]));
      assert s == [s[0]] + s[1..];
    }
  }

  lemma {:induction false} InsertSorted(items: seq<OrderItem>, x: Row, s: seq<Row>)
    requires Sorted(items, s)
    ensures Sorted(items, Insert(items, x, s))
  {
    if s == [] {
    } else if !LexBefore(items, s[0], x) {
      forall j | 0 <= j < |s| ensures !LexBefore(items, s[j], x) { LexWeakOrder(items, s[j], s[0], x); }
    } else {
      InsertSorted(items, x, s[1..]);
      InsertElements(items, x, s[1..]);
      var t := Insert(items, x, s[1..]);
      forall j | 0 <= j < |t| ensures !LexBefore(items, t[j], s[0]) {
        assert t[j] in t;
        if t[j] == x { LexWeakOrder(items, s[0], x, x); } else { assert t[j] in s[1..]; }
      }
    }
  }

  lemma {:induction false} SortedByLex(items: seq<OrderItem>, s: seq<Row>)
    ensures Sorted(items, StableSort(items, s))
  {
    if s != [] {
      SortedByLex(items, s[1..]);
      InsertSorted(items, s[0], StableSort(items, s[1..]));
    }
  }

  /** The rows that tie with `e`, in list order. */
  function Ties(items: seq<OrderItem>, e: Row, s: seq<Row>): seq<Row> {
    if s == [] then []
    else (if !LexBefore(items, s[0], e) && !LexBefore(items, e, s[0]) then [s[0]] else []) + Ties(items, e, s[1..])
  }

  lemma {:induction false} InsertStable(items: seq<OrderItem>, x: Row, s: seq<Row>, e: Row)
    ensures Ties(items, e, Insert(items, x, s)) == Ties(items, e, [x] + s)
  {
    if s == [] || !LexBefore(items, s[0], x) {
    } else {
      InsertStable(items, x, s[1..], e);
      LexWeakOrder(items, s[0], e, x);
      var t := Insert(items, x, s[1..]);
      assert ([s[0]] + t)[1..] == t;
      assert ([x] + s)[1..] == s;
      assert ([x] + s[1..])[1..] == s[1..];
    }
  }

  /** Rows that tie keep their order. */
  lemma {:induction false} SortStable(items: seq<OrderItem>, s: seq<Row>, e: Row)
    ensures Ties(items, e, StableSort(items, s)) == Ties(items, e, s)
  {
    if s != [] {
      SortStable(items, s[1..], e);
      var t := StableSort(items, s[1..]);
      InsertStable(items, s[0], t, e);
      assert ([s[0]] + t)[1..] == t;
    }
  }

  // ---- repeated sorts are one sort ---------------------------------------------------------

  lemma SingleItem(item: OrderItem, a: Row, b: Row)
    ensures LexBefore([item], a, b) == Before(item, a, b)
  {
  }

  /**
   * If `a` precedes `x` under the less significant items, placing `a` by the most
   * significant item and placing `x` by all of them can be exchanged.
   */
  lemma {:induction false} PlacementsCommute(items: seq<OrderItem>, a: Row, x: Row, t: seq<Row>)
    requires items != [] && LexBefore(items[1..], a, x)
    ensures Insert([items[0]], a, Insert(items, x, t)) == Insert(items, x, Insert([items[0]], a, t))
  {
    var i0 := items[0];
    SingleItem(i0, x, a);
    BeforeWeakOrder(i0, a, x, a);
    if t != [] {
      var y := t[0];
      SingleItem(i0, y, a);
      BeforeWeakOrder(i0, y, x, a);
      BeforeWeakOrder(i0, x, y, a);
      assert t == [y] + t[1..];
      if LexBefore(items, y, x) && Before(i0, y, a) {
        PlacementsCommute(items, a, x, t[1..]);
        assert Insert(items, x, t) == [y] + Insert(items, x, t[1..]);
        assert Insert([i0], a, t) == [y] + Insert([i0], a, t[1..]);
      } else if LexBefore(items, y, x) {
        assert Insert(items, x, t) == [y] + Insert(items, x, t[1..]);
        assert ([a] + t)[1..] == t;
      } else if Before(i0, y, a) {
        assert Insert([i0], a, t) == [y] + Insert([i0], a, t[1..]);
        assert ([x] + t)[1..] == t;
      } else {
        assert ([x] + t)[1..] == t && ([a] + t)[1..] == t;
      }
    }
  }

  /** When nothing precedes `x` under the less significant items, the most significant one places it. */
  lemma {:induction false} PlacementAgrees(items: seq<OrderItem>, x: Row, t: seq<Row>)
    requires items != [] && forall y | y in t :: !LexBefore(items[1..], y, x)
    ensures Insert([items[0]], x, t) == Insert(items, x, t)
  {
    if t != [] {
      SingleItem(items[0], t[0], x);
      assert t[0] in t;
      PlacementAgrees(items, x, t[1..]);
    }
  }

  /** Sorting by the first item after one more row was placed by the others. */
  lemma {:induction false} SortAfterInsert(items: seq<OrderItem>, x: Row, s: seq<Row>)
    requires items != [] && Sorted(items[1..], s)
    ensures StableSort([items[0]], Insert(items[1..], x, s)) == Insert(items, x, StableSort([items[0]], s))
  {
    var i0, rest := items[0], items[1..];
    if s == [] || !LexBefore(rest, s[0], x) {
      assert ([x] + s)[1..] == s;
      SortElements([i0], s);
      forall y | y in StableSort([i0], s) ensures !LexBefore(rest, y, x) {
        assert y in s;
        var j :| 0 <= j < |s| && s[j] == y;
        if j > 0 { LexWeakOrder(rest, y, s[0], x); }
      }
      PlacementAgrees(items, x, StableSort([i0], s));
    } else {
      SortAfterInsert(items, x, s[1..]);
      var t := Insert(rest, x, s[1..]);
      assert ([s[0]] + t)[1..] == t;
      PlacementsCommute(items, s[0], x, StableSort([i0], s[1..]));
    }
  }

  lemma {:induction false} SortOfSorted(items: seq<OrderItem>, s: seq<Row>)
    requires items != []
    ensures StableSort([items[0]], StableSort(items[1..], s)) == StableSort(items, s)
  {
    if s != [] {
      SortOfSorted(items, s[1..]);
      SortedByLex(items[1..], s[1..]);
      SortAfterInsert(items, s[0], StableSort(items[1..], s[1..]));
    }
  }

  lemma {:induction false} NoItems(s: seq<Row>)
    ensures StableSort([], s) == s
  {
    if s != [] { NoItems(s[1..]); }
  }

  /** The least-to-most-significant stable sorts equal one stable lexicographic sort, directions and None included. */
  lemma {:induction false} RepeatedSortsAreOneSort(items: seq<OrderItem>, s: seq<Row>)
    ensures SortRepeatedly(items, s) == StableSort(items, s)
    ensures var r := SortRepeatedly(items, s); forall i, j | 0 <= i < j < |r| :: InOrder(items, r[i], r[j])
  {
    hide InOrder;
    if items == [] {
      NoItems(s);
    } else {
      RepeatedSortsAreOneSort(items[1..], s);
      SortOfSorted(items, s);
    }
    SortSorted(items, s);
  }

  // ---- pages -----------------------------------------------------------------------------------

  /** A Python slice bound. */
  function Bound(i: int, len: nat): nat {
    if i < 0 then (if len + i < 0 then 0 else len + i) else if i < len then i else len
  }

  function Slice<T>(s: seq<T>, lo: int, hi: int): seq<T> {
    var a, b := Bound(lo, |s|), Bound(hi, |s|);
    if a <= b then s[a..b] else []
  }

  function Page<T>(s: seq<T>, limit: int, offset: int): seq<T> {
    if limit > 0 then Slice(s, offset, offset + limit) else s
  }

  /** The first `n` pages of one size, one after the other. */
  function Pages<T>(s: seq<T>, size: int, n: nat): seq<T> {
    if n == 0 then [] else Pages(s, size, n - 1) + Page(s, size, (n - 1) * size)
  }

  lemma {:induction false} PagesPrefix<T>(s: seq<T>, size: int, n: nat)
    requires size > 0
    ensures Pages(s, size, n) == s[..Bound(n * size, |s|)]
  {
    if n > 0 {
      PagesPrefix(s, size, n - 1);
      var a, b := Bound((n - 1) * size, |s|), Bound(n * size, |s|);
      assert (n - 1) * size + size == n * size && 0 <= (n - 1) * size;
      assert s[..b] == s[..a] + s[a..b];
    }
  }

  /** Successive pages tile the result: no gap, no repetition. */
  lemma PagesTile<T>(s: seq<T>, size: int, n: nat)
    requires size > 0 && |s| <= n * size
    ensures Pages(s, size, n) == s
  {
    PagesPrefix(s, size, n);
    assert s[..|s|] == s;
  }

  // ---- what an answer means ----------------------------------------------------------------------

  function Member(m: map<string, Value>, k: string): Value { if k in m then m[k] else Null }

  /** The row has `v` in the field: a column, or the member of the data that a field with `data.` in front names. */
  ghost predicate Reads(row: Row, field: string, v: Value) {
    && (forall k :: field == "data." + k ==> v == Member(row.data, k))
    && ((forall k :: field != "data." + k) ==> v == Member(row.columns, field))
  }

  ghost predicate SameIn(field: string, a: Row, b: Row) { forall v :: Reads(a, field, v) <==> Reads(b, field, v) }

  /** The order of one item, on the values two rows have there: missing values first going up and last going down. */
  predicate Rises(x: Value, y: Value) {
    || (x.Null? && !y.Null?) || (x.Num? && y.Num? && x.n < y.n)
    || (x.Text? && y.Text? && StrLess(x.s, y.s)) || (x.Num? && y.Text?)
  }

  /** Where two rows first differ, the values go up, or down for a descending item. */
  ghost predicate InOrder(order: seq<OrderItem>, a: Row, b: Row) {
    forall m, x, y | 0 <= m < |order| && (forall l | 0 <= l < m :: SameIn(order[l].field, a, b))
                     && !SameIn(order[m].field, a, b) && Reads(a, order[m].field, x) && Reads(b, order[m].field, y) ::
      if order[m].desc then Rises(y, x) else Rises(x, y)
  }

  /** Every field the filter names has the filter's value, and the status, missing or empty meaning running, is the one asked for. */
  ghost predicate IsKept(row: Row, filter: Option<map<string, Value>>, status: Option<string>) {
    && (filter.Some? ==> forall field | field in filter.value :: Reads(row, field, filter.value[field]))
    && (status.Some? ==>
          var v := Member(row.data, "status");
          if v in {Null, Num(0), Text("")} then status.value == "\U{8fd0}\U{884c}" else v == Text(status.value))
  }

  lemma DataField(field: string)
    ensures "data." <= field ==> field == "data." + field[5..]
    ensures forall k :: field == "data." + k ==> "data." <= field && field[5..] == k
  {
    forall k | field == "data." + k ensures "data." <= field && field[5..] == k { }
  }

  lemma ExtractReads(row: Row, field: string, v: Value)
    ensures Reads(row, field, v) <==> v == Extract(row, field)
  {
    DataField(field);
  }

  lemma KeepsIsKept(row: Row, filter: Option<map<string, Value>>, status: Option<string>)
    ensures Keeps(row, filter, status) <==> IsKept(row, filter, status)
  {
    if filter.Some? {
      forall field | field in filter.value ensures Reads(row, field, filter.value[field]) <==> Extract(row, field) == filter.value[field] {
        ExtractReads(row, field, filter.value[field]);
      }
    }
    hide Reads, Extract;
  }

  lemma TiesAreSame(a: Row, b: Row, item: OrderItem)
    ensures SameIn(item.field, a, b) <==> Extract(a, item.field) == Extract(b, item.field)
    ensures Before(item, a, b) <==> if item.desc then Rises(Extract(b, item.field), Extract(a, item.field)) else Rises(Extract(a, item.field), Extract(b, item.field))
    ensures Before(item, a, b) || Before(item, b, a) || SameIn(item.field, a, b)
  {
    forall v ensures (Reads(a, item.field, v) <==> v == Extract(a, item.field)) && (Reads(b, item.field, v) <==> v == Extract(b, item.field)) {
      ExtractReads(a, item.field, v);
      ExtractReads(b, item.field, v);
    }
    var x, y := Extract(a, item.field), Extract(b, item.field);
    assert Reads(a, item.field, x) && (SameIn(item.field, a, b) ==> Reads(b, item.field, x));
    hide Reads, Extract;
    if x.Text? && y.Text? { StrTotal(x.s, y.s); }
  }

  lemma {:induction false} NotAfterInOrder(order: seq<OrderItem>, a: Row, b: Row, m: nat, x: Value, y: Value)
    requires !LexBefore(order, b, a) && m < |order| && forall l | 0 <= l < m :: SameIn(order[l].field, a, b)
    requires !SameIn(order[m].field, a, b) && Reads(a, order[m].field, x) && Reads(b, order[m].field, y)
    ensures if order[m].desc then Rises(y, x) else Rises(x, y)
    decreases m
  {
    TiesAreSame(a, b, order[0]);
    TiesAreSame(b, a, order[0]);
    ExtractReads(a, order[m].field, x);
    ExtractReads(b, order[m].field, y);
    if m > 0 {
      assert SameIn(order[0].field, a, b);
      assert !Before(order[0], a, b) by { BeforeWeakOrder(order[0], a, a, a); SameNotBefore(order[0], a, b); }
      assert forall l | 0 <= l < m - 1 :: SameIn(order[1..][l].field, a, b) by { assert forall l | 0 <= l < m - 1 :: order[1..][l] == order[l + 1]; }
      hide Reads, SameIn, Before, Rises;
      NotAfterInOrder(order[1..], a, b, m - 1, x, y);
    }
  }

  lemma SameNotBefore(item: OrderItem, a: Row, b: Row)
    requires SameIn(item.field, a, b)
    ensures !Before(item, a, b) && !Before(item, b, a)
  {
    TiesAreSame(a, b, item);
    BeforeWeakOrder(item, a, a, a);
    hide SameIn;
  }

  /** A sorted list goes up or down as its items ask. */
  lemma SortedInOrder(order: seq<OrderItem>, rows: seq<Row>)
    requires Sorted(order, rows)
    ensures forall i, j | 0 <= i < j < |rows| :: InOrder(order, rows[i], rows[j])
  {
    forall i, j | 0 <= i < j < |rows| ensures InOrder(order, rows[i], rows[j]) {
      forall m, x, y | 0 <= m < |order| && (forall l | 0 <= l < m :: SameIn(order[l].field, rows[i], rows[j]))
                       && !SameIn(order[m].field, rows[i], rows[j]) && Reads(rows[i], order[m].field, x) && Reads(rows[j], order[m].field, y)
        ensures if order[m].desc then Rises(y, x) else Rises(x, y)
      {
        NotAfterInOrder(order, rows[i], rows[j], m, x, y);
      }
    }
  }

  ghost predicate IsFound(kv: (string, Stored), prefix: string, filter: Option<map<string, Value>>, status: Option<string>) {
    prefix <= kv.0 && kv.1.Entry? && IsKept(kv.1.row, filter, status)
  }

  /** The one stable sort puts the rows in the order the items ask for. */
  lemma SortSorted(items: seq<OrderItem>, s: seq<Row>)
    ensures var r := StableSort(items, s); forall i, j | 0 <= i < j < |r| :: InOrder(items, r[i], r[j])
  {
    SortedByLex(items, s);
    SortedInOrder(items, StableSort(items, s));
  }

  /** The positions of the rows under a prefix that are kept. */
  ghost function KeptPositions(kvs: seq<(string, Stored)>, prefix: string, filter: Option<map<string, Value>>, status: Option<string>): set<nat> {
    set i: nat | i < |kvs| && IsFound(kvs[i], prefix, filter, status)
  }

  lemma {:induction false} RowsUnderAppend(kvs: seq<(string, Stored)>, last: (string, Stored), prefix: string,
                                           filter: Option<map<string, Value>>, status: Option<string>)
    ensures RowsUnder(kvs + [last], prefix, filter, status) ==
            RowsUnder(kvs, prefix, filter, status) + if prefix <= last.0 && last.1.Entry? && Keeps(last.1.row, filter, status) then [last.1.row] else []
  {
    hide Keeps;
    if kvs == [] {
      assert [last][1..] == [];
      assert kvs + [last] == [last];
    } else {
      var all, rest := kvs + [last], kvs[1..] + [last];
      assert all[1..] == rest && all[0] == kvs[0];
      RowsUnderAppend(kvs[1..], last, prefix, filter, status);
      var head := if prefix <= kvs[0].0 && kvs[0].1.Entry? && Keeps(kvs[0].1.row, filter, status) then [kvs[0].1.row] else [];
      assert RowsUnder(all, prefix, filter, status) == head + RowsUnder(rest, prefix, filter, status);
      assert RowsUnder(kvs, prefix, filter, status) == head + RowsUnder(kvs[1..], prefix, filter, status);
      hide RowsUnder;
    }
  }

  lemma {:induction false} KeptRows(kvs: seq<(string, Stored)>, prefix: string, filter: Option<map<string, Value>>, status: Option<string>)
    ensures var rows, kept := RowsUnder(kvs, prefix, filter, status), KeptPositions(kvs, prefix, filter, status);
      && |rows| == |kept|
      && (forall r :: r in rows <==> exists i :: i in kept && kvs[i].1.row == r)
  {
    if kvs == [] {
      assert KeptPositions(kvs, prefix, filter, status) == {};
    } else {
      var k := |kvs| - 1;
      var before, last := kvs[..k], kvs[k];
      KeptRows(before, prefix, filter, status);
      assert kvs == before + [last];
      RowsUnderAppend(before, last, prefix, filter, status);
      if last.1.Entry? { KeepsIsKept(last.1.row, filter, status); }
      OneMoreKept(kvs, prefix, filter, status);
      hide IsKept, Keeps, RowsUnder, KeptPositions;
    }
  }

  lemma OneMoreKept(kvs: seq<(string, Stored)>, prefix: string, filter: Option<map<string, Value>>, status: Option<string>)
    requires kvs != []
    ensures var k := |kvs| - 1;
      var kept, before, more := KeptPositions(kvs, prefix, filter, status), KeptPositions(kvs[..k], prefix, filter, status), IsFound(kvs[k], prefix, filter, status);
      && kept == (if more then before + {k} else before) && |kept| == |before| + (if more then 1 else 0)
      && forall i | i in before :: i < k && kvs[..k][i] == kvs[i]
  {
    hide IsFound;
    var k := |kvs| - 1;
    var kept, before := KeptPositions(kvs, prefix, filter, status), KeptPositions(kvs[..k], prefix, filter, status);
    assert forall i: nat | i < k :: kvs[..k][i] == kvs[i];
    assert kept == if IsFound(kvs[k], prefix, filter, status) then before + {k} else before;
  }

  /** How many rows a page has when the whole answer has `total`. */
  function PageSize(total: nat, limit: int, offset: int): nat
    requires 0 < limit && 0 <= offset
  {
    if total <= offset then 0 else if total - offset < limit then total - offset else limit
  }

  /** A page is cut out of the whole answer in order. */
  lemma PageCut(s: seq<Row>, limit: int, offset: int, order: seq<OrderItem>)
    requires forall i, j | 0 <= i < j < |s| :: InOrder(order, s[i], s[j])
    ensures var page := Page(s, limit, offset);
      && (forall i, j | 0 <= i < j < |page| :: InOrder(order, page[i], page[j]))
      && (forall r | r in page :: r in s)
      && (limit <= 0 ==> page == s)
      && (limit > 0 && 0 <= offset ==> |page| == PageSize(|s|, limit, offset))
      && (limit > 0 && 0 <= offset ==> forall i | 0 <= i < |page| :: page[i] == s[offset + i])
  {
    hide InOrder;
  }

  lemma AnswerMeans(kvs: seq<(string, Stored)>, prefix: string, filter: Option<map<string, Value>>, status: Option<string>,
                    order: seq<OrderItem>, limit: int, offset: int)
    requires IsBytes(prefix) && RangeEnd(prefix).Some?
    ensures var found := Selected(kvs, prefix, RangeEnd(prefix).value, filter, status);
      var rows, kept := Page(StableSort(order, found), limit, offset), KeptPositions(kvs, prefix, filter, status);
      && |found| == |kept|
      && (forall i, j | 0 <= i < j < |rows| :: InOrder(order, rows[i], rows[j]))
      && (forall r | r in rows :: exists i :: i in kept && kvs[i].1.row == r)
      && (limit <= 0 ==> |rows| == |kept| && forall i | i in kept :: kvs[i].1.row in rows)
      && (limit > 0 && 0 <= offset ==> |rows| == PageSize(|kept|, limit, offset))
  {
    var found := Selected(kvs, prefix, RangeEnd(prefix).value, filter, status);
    SelectedExactly(kvs, prefix, filter, status);
    KeptRows(kvs, prefix, filter, status);
    hide Selected, KeptPositions, Page, StableSort, InOrder, Sorted, RowsUnder;
    var sorted := StableSort(order, found);
    SortElements(order, found);
    assert |multiset(sorted)| == |multiset(found)|;
    SortSorted(order, found);
    PageCut(sorted, limit, offset, order);
  }

  // ---- the query ---------------------------------------------------------------------------------

  datatype Answer = Answer(rows: seq<Row>, total: nat) | ValidationError

  /** `_check_filter_keys` */
  predicate FilterAllowed(filter: Option<map<string, Value>>, kind: string) {
    filter.Some? ==>
      forall k | k in filter.value :: (|k| > 5 && "data." <= k) || k in Promoted(kind) || k == "service_id"
  }

  lemma FilterFields()
    ensures forall field: string :: (|field| > 5 && "data." <= field) <==> exists k :: k != "" && field == "data." + k
  {
    forall field: string ensures (|field| > 5 && "data." <= field) <==> exists k :: k != "" && field == "data." + k {
      DataField(field);
      if |field| > 5 && "data." <= field { assert field[5..] != "" && field == "data." + field[5..]; }
    }
  }

  /** `query_paginated` on the contents of the store; `kind` is None for a registry that does not exist. */
  method QueryPaginated(kvs: seq<(string, Stored)>, prefix: string, kind: Option<string>,
                        filter: Option<map<string, Value>>, status: Option<string>, order: seq<OrderItem>, limit: int, offset: int)
    returns (answer: Answer)
    requires IsBytes(prefix) && RangeEnd(prefix).Some?
    ensures kind.None? ==> answer == Answer([], 0)
    ensures kind.Some? && !FilterAllowed(filter, kind.value) ==> answer == ValidationError
    ensures kind.Some? && FilterAllowed(filter, kind.value) ==>
              var rows := Selected(kvs, prefix, RangeEnd(prefix).value, filter, status);
              answer == Answer(Page(StableSort(order, rows), limit, offset), |rows|)
    ensures answer.ValidationError? <==>
              kind.Some? && filter.Some? && exists field :: field in filter.value && field != "service_id" && field !in Promoted(kind.value)
                                                            && forall k :: k != "" ==> field != "data." + k
    ensures kind.Some? && answer.Answer? ==> answer.total == |KeptPositions(kvs, prefix, filter, status)|
    ensures kind.Some? && answer.Answer? ==> forall i, j | 0 <= i < j < |answer.rows| :: InOrder(order, answer.rows[i], answer.rows[j])
    ensures kind.Some? && answer.Answer? ==>
              forall r | r in answer.rows :: exists i :: i in KeptPositions(kvs, prefix, filter, status) && kvs[i].1.row == r
    ensures kind.Some? && answer.Answer? && limit <= 0 ==>
              |answer.rows| == answer.total && forall i | i in KeptPositions(kvs, prefix, filter, status) :: kvs[i].1.row in answer.rows
    ensures kind.Some? && answer.Answer? && limit > 0 && 0 <= offset ==> |answer.rows| == PageSize(answer.total, limit, offset)
  {
    FilterFields();
    AnswerMeans(kvs, prefix, filter, status, order, limit, offset);
    hide KeptPositions, InOrder, Page, Selected, StableSort, SortRepeatedly;

    if kind.None? { return Answer([], 0); }
    if !FilterAllowed(filter, kind.value) { return ValidationError; }
    var rows := Selected(kvs, prefix, RangeEnd(prefix).value, filter, status);
    var sorted := SortRows(order, rows);
    return Answer(Page(sorted, limit, offset), |rows|);
  }

  /** The loop of sorts, least significant item first. */
  method SortRows(order: seq<OrderItem>, found: seq<Row>) returns (rows: seq<Row>)
    ensures rows == StableSort(order, found) && multiset(rows) == multiset(found)
    ensures forall i, j | 0 <= i < j < |rows| :: InOrder(order, rows[i], rows[j])
  {
    hide InOrder;
    SortElements(order, found);
    rows := found;
    var i := |order|;
    while i > 0
      invariant 0 <= i <= |order|
      invariant rows == SortRepeatedly(order[i..], found)
    {
      i := i - 1;
      assert order[i..][1..] == order[i + 1..];
      rows := StableSort([order[i]], rows);
    }
    assert order[0..] == order;
    RepeatedSortsAreOneSort(order, found);
  }

  /** The matching rows under a prefix, in key order: what the scan is for. */
  function RowsUnder(kvs: seq<(string, Stored)>, prefix: string, filter: Option<map<string, Value>>, status: Option<string>): seq<Row> {
    if kvs == [] then []
    else
      var (key, value) := kvs[0];
      (if prefix <= key && value.Entry? && Keeps(value.row, filter, status) then [value.row] else [])
      + RowsUnder(kvs[1..], prefix, filter, status)
  }

  /** What is selected by the byte interval is exactly the matching rows under the prefix, each once, in key order. */
  lemma {:induction false} SelectedExactly(kvs: seq<(string, Stored)>, prefix: string, filter: Option<map<string, Value>>, status: Option<string>)
    requires IsBytes(prefix) && RangeEnd(prefix).Some?
    ensures Selected(kvs, prefix, RangeEnd(prefix).value, filter, status) == RowsUnder(kvs, prefix, filter, status)
  {
    if kvs != [] {
      SelectedExactly(kvs[1..], prefix, filter, status);
      PrefixRangeExact(prefix, kvs[0].0);
    }
  }

  /** `_full_key` of a row. */
  function FullKey(ns: string, registry: string, sid: string): string { ns + "/" + RowKey(registry, sid) }

  lemma OwnKeys(ns: string, name: string, registry: string, sid: string)
    requires registry == name || Apart(name, registry)
    ensures ns + "/" + name + "/" <= FullKey(ns, registry, sid) <==> registry == name
  {
    var root, row, p := ns + "/", RowKey(registry, sid), name + "/";
    assert root + name + "/" == root + p && FullKey(ns, registry, sid) == root + row;
    if p <= row { assert (root + row)[..|root + p|] == root + row[..|p|]; }
    if root + p <= root + row { assert (root + row)[|root|..] == row && (root + p)[|root|..] == p; }
    assert root + p <= root + row <==> p <= row;
    IsolatedIff(name, registry);
  }

  /** The matching rows of one registry; `registries` says to which one each key belongs. */
  function RowsOf(kvs: seq<(string, Stored)>, registries: seq<string>, name: string, filter: Option<map<string, Value>>, status: Option<string>): seq<Row>
    requires |registries| == |kvs|
  {
    if kvs == [] then []
    else
      (if registries[0] == name && kvs[0].1.Entry? && Keeps(kvs[0].1.row, filter, status) then [kvs[0].1.row] else [])
      + RowsOf(kvs[1..], registries[1..], name, filter, status)
  }

  lemma {:induction false} UnderIsOwn(ns: string, name: string, registries: seq<string>, sids: seq<string>, kvs: seq<(string, Stored)>,
                                      filter: Option<map<string, Value>>, status: Option<string>)
    requires |registries| == |sids| == |kvs|
    requires forall i | 0 <= i < |kvs| :: kvs[i].0 == FullKey(ns, registries[i], sids[i])
    requires forall i | 0 <= i < |kvs| :: registries[i] == name || Apart(name, registries[i])
    ensures RowsUnder(kvs, ns + "/" + name + "/", filter, status) == RowsOf(kvs, registries, name, filter, status)
  {
    if kvs != [] {
      OwnKeys(ns, name, registries[0], sids[0]);
      UnderIsOwn(ns, name, registries[1..], sids[1..], kvs[1..], filter, status);
    }
  }

  /**
   * A query sees exactly the matching rows of its own registry, each once, in key order,
   * whatever the ids, as long as the name is apart from the other registries' names, which
   * it is when no name has a slash (`ApartBySlash`).
   */
  lemma QueryIsolated(ns: string, name: string, registries: seq<string>, sids: seq<string>, kvs: seq<(string, Stored)>,
                      filter: Option<map<string, Value>>, status: Option<string>)
    requires IsBytes(ns) && IsBytes(name) && |registries| == |sids| == |kvs|
    requires forall i | 0 <= i < |kvs| :: kvs[i].0 == FullKey(ns, registries[i], sids[i])
    requires forall i | 0 <= i < |kvs| :: registries[i] == name || Apart(name, registries[i])
    ensures var prefix := ns + "/" + name + "/";
            IsBytes(prefix) && RangeEnd(prefix).Some? &&
            Selected(kvs, prefix, RangeEnd(prefix).value, filter, status) == RowsOf(kvs, registries, name, filter, status)
  {
    var prefix := ns + "/" + name + "/";
    assert prefix[|prefix| - 1] == '/';
    SelectedExactly(kvs, prefix, filter, status);
    UnderIsOwn(ns, name, registries, sids, kvs, filter, status);
  }

  /** With a slash in a name or an id rows cross over, both ways, and can overwrite each other. */
  lemma SlashedRegistryLeaks()
    ensures "a" + "/" <= RowKey("a/b", "svc")
    ensures "a/b" + "/" <= RowKey("a", "b/c")
    ensures RowKey("a", "b/c") == RowKey("a/b", "c")
  {
    assert RowKey("a/b", "svc")[..2] == "a/" && RowKey("a", "b/c")[..4] == "a/b/";
  }
}
