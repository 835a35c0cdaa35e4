/** The NDJSON table viewer: dotted-key flattening of JSON objects, the row search
    filter, the elimination of empty columns, value formatting and the two table
    layouts. JSON text is taken as already parsed. */
module NdjsonTable {
  import opened Text
  import opened Lists

  /** A parsed JSON value. A float carries the text Python's `repr` gives it. An object
      carries its dict items in insertion order. */
  datatype Json = JNull | JBool(b: bool) | JInt(i: int) | JFloat(repr: string) | JStr(s: string)
                | JArray(items: seq<Json>) | JObject(fields: seq<Field>)

  datatype Field = Field(key: string, value: Json)

  // ---------------------------------------------------------------------------
  // Dicts in insertion order

  /** A Python `dict[str, object]`: its items in insertion order. */
  type Dict = seq<Field>

  /** `d.get(k)` */
  function Lookup(d: Dict, k: string): Option<Json> {
    if d == [] then None else if d[0].key == k then Some(d[0].value) else Lookup(d[1..], k)
  }

  /** `list(d.keys())` */
  function Keys(d: Dict): (ks: seq<string>)
    ensures |ks| == |d|
  {
    if d == [] then [] else [d[0].key] + Keys(d[1..])
  }

  /** No key occurs twice, as in every Python dict. */
  predicate DistinctKeys(d: Dict) {
    d == [] || (d[0].key !in Keys(d[1..]) && DistinctKeys(d[1..]))
  }

  predicate NoObjects(d: Dict) {
    forall i :: 0 <= i < |d| ==> !d[i].value.JObject?
  }

  lemma {:induction false} LookupIn(d: Dict, k: string)
    ensures Lookup(d, k).Some? <==> k in Keys(d)
  {
    if d != [] {
      LookupIn(d[1..], k);
    }
  }

  /** `d[k] = v`: a new key goes last, an existing key keeps its place. */
  function Put(d: Dict, k: string, v: Json): (r: Dict)
    ensures Lookup(r, k) == Some(v)
    ensures forall k2 :: k2 != k ==> Lookup(r, k2) == Lookup(d, k2)
    ensures Keys(r) == if k in Keys(d) then Keys(d) else Keys(d) + [k]
  {
    if d == [] then [Field(k, v)]
    else if d[0].key == k then [Field(k, v)] + d[1..]
    else
      var r := [d[0]] + Put(d[1..], k, v);
      assert r[1..] == Put(d[1..], k, v);
      r
  }

  /** `d[k] = v` keeps the keys distinct, and adds no object if `v` is none. */
  lemma {:induction false} PutPreserves(d: Dict, k: string, v: Json)
    ensures DistinctKeys(d) ==> DistinctKeys(Put(d, k, v))
    ensures NoObjects(d) && !v.JObject? ==> NoObjects(Put(d, k, v))
  {
    if d != [] && d[0].key != k {
      PutPreserves(d[1..], k, v);
      var r := Put(d, k, v);
      assert r[1..] == Put(d[1..], k, v);
    }
  }

  /** `d.update(e)` */
  function Merge(d: Dict, e: Dict): (r: Dict)
    ensures DistinctKeys(d) ==> DistinctKeys(r)
    ensures NoObjects(d) && NoObjects(e) ==> NoObjects(r)
  {
    if e == [] then d
    else
      var front, last := e[..|e| - 1], e[|e| - 1];
      var m := Merge(d, front);
      PutPreserves(m, last.key, last.value);
      Put(m, last.key, last.value)
  }

  /** Looking up a key appended after all others. */
  lemma {:induction false} LookupSnoc(d: Dict, f: Field, k: string)
    ensures Lookup(d + [f], k) == if Lookup(d, k).Some? then Lookup(d, k) else if f.key == k then Some(f.value) else None
  {
    if d != [] {
      assert (d + [f])[1..] == d[1..] + [f];
      LookupSnoc(d[1..], f, k);
    }
  }

  /** A dict with distinct keys stays so without its last item, which is then new. */
  lemma {:induction false} DistinctSnoc(d: Dict, f: Field)
    requires DistinctKeys(d + [f])
    ensures DistinctKeys(d) && f.key !in Keys(d)
  {
    if d != [] {
      var e := d + [f];
      assert e[1..] == d[1..] + [f];
      DistinctSnoc(d[1..], f);
      LookupIn(d[1..] + [f], d[0].key);
      LookupIn(d[1..], d[0].key);
      LookupSnoc(d[1..], f, d[0].key);
    }
  }

  /** After `d.update(e)`, a key of `e` has its value from `e`; any other key keeps its
      value from `d`. */
  lemma {:induction false} MergeLookup(d: Dict, e: Dict, k: string)
    requires DistinctKeys(e)
    ensures Lookup(Merge(d, e), k) == if Lookup(e, k).Some? then Lookup(e, k) else Lookup(d, k)
  {
    if e != [] {
      var front, last := e[..|e| - 1], e[|e| - 1];
      assert e == front + [last];
      DistinctSnoc(front, last);
      MergeLookup(d, front, k);
      var m := Merge(d, front);
      assert Merge(d, e) == Put(m, last.key, last.value);
      LastWins(m, d, front, last, k);
    }
  }

  /** The step of `MergeLookup` for the last item of `e`, which is a new key of `e`. */
  lemma LastWins(m: Dict, d: Dict, front: Dict, last: Field, k: string)
    requires last.key !in Keys(front)
    requires Lookup(m, k) == if Lookup(front, k).Some? then Lookup(front, k) else Lookup(d, k)
    ensures var e := front + [last];
            Lookup(Put(m, last.key, last.value), k) == if Lookup(e, k).Some? then Lookup(e, k) else Lookup(d, k)
  {
    LookupSnoc(front, last, k);
    if k == last.key {
      LookupIn(front, k);
    }
  }

  // ---------------------------------------------------------------------------
  // flatten

  /** `f"{parent_key}.{key}" if parent_key else key` */
  function NewKey(parent: string, key: string): string {
    if parent != "" then parent + "." + key else key
  }

  /** The step of `flatten` for one item: an object is flattened under the item's key,
      a list whose first element is an object is flattened through that element
      alone, and anything else is stored as it is. */
  function FlattenStepOf(items: Dict, parent: string, f: Field, inner: Dict): Dict {
    if f.value.JObject? || (f.value.JArray? && f.value.items != [] && f.value.items[0].JObject?) then Merge(items, inner)
    else Put(items, NewKey(parent, f.key), f.value)
  }

  /** The fields `flatten` recurses into for an item, if any. */
  function NestedOf(f: Field): Option<seq<Field>> {
    match f.value
    case JObject(inner) => Some(inner)
    case JArray(xs) => if xs != [] && xs[0].JObject? then Some(xs[0].fields) else None
    case _ => None
  }

  /** `flatten(obj, parent_key)` */
  function Flatten(fields: seq<Field>, parent: string): (r: Dict)
    ensures DistinctKeys(r) && NoObjects(r)
    decreases fields
  {
    if fields == [] then []
    else
      var f := fields[|fields| - 1];
      assert f in fields;
      var items := Flatten(fields[..|fields| - 1], parent);
      match f.value
      case JObject(inner) => Merge(items, Flatten(inner, NewKey(parent, f.key)))
      case JArray(xs) =>
        if xs != [] && xs[0].JObject? then
          assert xs[0] in xs;
          Merge(items, Flatten(xs[0].fields, NewKey(parent, f.key)))
        else
          PutPreserves(items, NewKey(parent, f.key), f.value);
          Put(items, NewKey(parent, f.key), f.value)
      case _ =>
        PutPreserves(items, NewKey(parent, f.key), f.value);
        Put(items, NewKey(parent, f.key), f.value)
  }

  lemma FlattenStep(fields: seq<Field>, i: int, parent: string)
    requires 0 <= i < |fields|
    ensures Flatten(fields[..i + 1], parent) ==
            FlattenStepOf(Flatten(fields[..i], parent), parent, fields[i],
                          match NestedOf(fields[i]) case Some(inner) => Flatten(inner, NewKey(parent, fields[i].key)) case None => [])
  {
    assert fields[..i + 1][..i] == fields[..i];
    assert fields[..i + 1][i] == fields[i];
  }

  /** The loop of `flatten`, filling `items` item by item and recursing into nested
      objects. */
  method FlattenObject(fields: seq<Field>, parent: string) returns (items: Dict)
    ensures items == Flatten(fields, parent)
    decreases fields
  {
    items := [];
    var i := 0;
    while i < |fields|
      invariant 0 <= i <= |fields|
      invariant items == Flatten(fields[..i], parent)
    {
      FlattenStep(fields, i, parent);
      var f := fields[i];
      assert f in fields;
      var newKey := NewKey(parent, f.key);
      match f.value {
        case JObject(inner) =>
          var sub := FlattenObject(inner, newKey);
          items := Merge(items, sub);
        case JArray(xs) =>
          if xs != [] && xs[0].JObject? {
            assert xs[0] in xs;
            var sub := FlattenObject(xs[0].fields, newKey);
            items := Merge(items, sub);
          } else {
            items := Put(items, newKey, f.value);
          }
        case _ =>
          items := Put(items, newKey, f.value);
      }
      i := i + 1;
    }
    assert fields[..i] == fields;
  }

  /** A leaf item lands under its dotted key, replacing whatever was there, and leaves
      every other key alone. */
  lemma FlattenLeaf(front: seq<Field>, parent: string, key: string, v: Json, k: string)
    requires NestedOf(Field(key, v)).None?
    ensures Lookup(Flatten(front + [Field(key, v)], parent), k) ==
            if k == NewKey(parent, key) then Some(v) else Lookup(Flatten(front, parent), k)
  {
    var fields := front + [Field(key, v)];
    assert fields[..|fields| - 1] == front;
    assert !v.JObject?;
  }

  /** A nested object's keys override earlier ones; other keys keep their values. */
  lemma FlattenNested(front: seq<Field>, parent: string, key: string, inner: seq<Field>, k: string)
    ensures var nested := Flatten(inner, NewKey(parent, key));
            Lookup(Flatten(front + [Field(key, JObject(inner))], parent), k) ==
            if Lookup(nested, k).Some? then Lookup(nested, k) else Lookup(Flatten(front, parent), k)
  {
    var fields := front + [Field(key, JObject(inner))];
    assert fields[..|fields| - 1] == front;
    MergeLookup(Flatten(front, parent), Flatten(inner, NewKey(parent, key)), k);
  }

  /** A list whose first element is an object is flattened through that element alone;
      its other elements are dropped. */
  lemma FlattenListFirstOnly(front: seq<Field>, parent: string, key: string, xs: seq<Json>)
    requires xs != [] && xs[0].JObject?
    ensures Flatten(front + [Field(key, JArray(xs))], parent) == Flatten(front + [Field(key, xs[0])], parent)
  {
    var a := front + [Field(key, JArray(xs))];
    var b := front + [Field(key, xs[0])];
    assert a[..|a| - 1] == front && b[..|b| - 1] == front;
  }

  /** An empty nested object contributes no keys. */
  lemma FlattenEmptyObject(front: seq<Field>, parent: string, key: string)
    ensures Flatten(front + [Field(key, JObject([]))], parent) == Flatten(front, parent)
  {
    var a := front + [Field(key, JObject([]))];
    assert a[..|a| - 1] == front;
  }

  /** On a key collision the later item wins: `{"a.b": 1, "a": {"b": 2}}` flattens to
      `{"a.b": 2}`. */
  lemma FlattenCollision()
    ensures Flatten([Field("a.b", JInt(1)), Field("a", JObject([Field("b", JInt(2))]))], "") == [Field("a.b", JInt(2))]
  {
    var fields := [Field("a.b", JInt(1)), Field("a", JObject([Field("b", JInt(2))]))];
    var inner := [Field("b", JInt(2))];
    var leaf := [Field("a.b", JInt(1))];
    var merged := [Field("a.b", JInt(2))];
    assert NewKey("a", "b") == "a.b";
    assert fields[..1] == leaf && leaf[..0] == [] && inner[..0] == [];
    assert Flatten(leaf, "") == Put([], "a.b", JInt(1)) == leaf;
    assert Flatten(inner, "a") == Put([], "a.b", JInt(2)) == merged;
    assert merged[..0] == [];
    assert Merge(leaf, merged) == Put(leaf, "a.b", JInt(2)) == merged;
  }

  // ---------------------------------------------------------------------------
  // str() of values

  /** `str(v)`. Strings inside containers are shown with single quotes; the escaping
      and quote choice of `repr` are not modelled. */
  function PyStr(j: Json): string
    decreases j, 1
  {
    match j
    case JNull => "None"
    case JBool(b) => if b then "True" else "False"
    case JInt(i) => IntToString(i)
    case JFloat(r) => r
    case JStr(s) => s
    case JArray(items) => "[" + ReprItems(items) + "]"
    case JObject(fields) => "{" + ReprFields(fields) + "}"
  }

  /** `repr(v)` of an element inside a container. */
  function PyRepr(j: Json): string
    decreases j, 2
  {
    if j.JStr? then "'" + j.s + "'" else PyStr(j)
  }

  function ReprItems(items: seq<Json>): string
    decreases items
  {
    if items == [] then ""
    else if |items| == 1 then PyRepr(items[0])
    else PyRepr(items[0]) + ", " + ReprItems(items[1..])
  }

  function ReprFields(fields: seq<Field>): string
    decreases fields
  {
    if fields == [] then ""
    else
      assert fields[0] in fields;
      var head := "'" + fields[0].key + "': " + PyRepr(fields[0].value);
      if |fields| == 1 then head else head + ", " + ReprFields(fields[1..])
  }

  // ---------------------------------------------------------------------------
  // The search filter

  /** `row.get(col, default)` */
  function GetOr(d: Dict, k: string, default: Json): Json {
    match Lookup(d, k)
    case None => default
    case Some(v) => v
  }

  function ValueOf(f: Field): Json {
    f.value
  }

  /** The strings a row is searched in: the selected columns (a missing one as "") or
      else every value. */
  function SearchValues(flat: Dict, headers: seq<string>, selected: bool): seq<string> {
    if selected then Map(headers, (col: string) => PyStr(GetOr(flat, col, JStr(""))))
    else Map(Map(flat, ValueOf), PyStr)
  }

  /** `all(any(pat.search(v) for v in values) for pat in patterns)`, each compiled
      pattern taken as the predicate "it matches somewhere in the string". */
  predicate AllPatternsMatch(patterns: seq<string -> bool>, values: seq<string>) {
    forall i :: 0 <= i < |patterns| ==> exists v :: v in values && patterns[i](v)
  }

  /** Whether a flattened row passes the search. */
  predicate Kept(flat: Dict, headers: seq<string>, selected: bool, patterns: seq<string -> bool>) {
    patterns == [] || AllPatternsMatch(patterns, SearchValues(flat, headers, selected))
  }

  /** What one input line contributes: None for a line that is not valid JSON or that
      the search rejects, else its flattened object. */
  function RowOf(headers: seq<string>, selected: bool, patterns: seq<string -> bool>): Option<seq<Field>> -> Option<Dict> {
    (line: Option<seq<Field>>) =>
      match line
      case None => None
      case Some(obj) => if Kept(Flatten(obj, ""), headers, selected, patterns) then Some(Flatten(obj, "")) else None
  }

  /** The row loop: every line is parsed, flattened and searched, in order. */
  method CollectRows(lines: seq<Option<seq<Field>>>, headers: seq<string>, selected: bool, patterns: seq<string -> bool>)
    returns (rows: seq<Dict>)
    ensures rows == FilterMap(lines, RowOf(headers, selected, patterns))
  {
    rows := [];
    var i := 0;
    while i < |lines|
      invariant 0 <= i <= |lines|
      invariant rows == FilterMap(lines[..i], RowOf(headers, selected, patterns))
    {
      var f := RowOf(headers, selected, patterns);
      FilterMapStep(lines, i, f);
      match lines[i] {
        case None =>
          assert f(lines[i]) == None;
        case Some(obj) =>
          var flat := FlattenObject(obj, "");
          var values := SearchValues(flat, headers, selected);
          if patterns == [] || AllPatternsMatch(patterns, values) {
            assert f(lines[i]) == Some(flat);
            rows := rows + [flat];
          } else {
            assert f(lines[i]) == None;
          }
      }
      i := i + 1;
    }
    assert lines[..i] == lines;
  }

  /** A row is kept iff its line is valid JSON and every pattern matches one of its
      searched values. */
  lemma CollectRowsMember(lines: seq<Option<seq<Field>>>, headers: seq<string>, selected: bool,
                          patterns: seq<string -> bool>, flat: Dict)
    ensures flat in FilterMap(lines, RowOf(headers, selected, patterns)) <==>
            exists line :: line in lines && line.Some? && flat == Flatten(line.value, "") && Kept(flat, headers, selected, patterns)
  {
    var f := RowOf(headers, selected, patterns);
    FilterMapMember(lines, f, flat);
    assert forall line :: f(line) == Some(flat) <==> line.Some? && flat == Flatten(line.value, "") && Kept(flat, headers, selected, patterns);
  }

  function ValidRow(line: Option<seq<Field>>): Option<Dict> {
    match line
    case None => None
    case Some(obj) => Some(Flatten(obj, ""))
  }

  /** With no search patterns, every valid line becomes a row. */
  lemma {:induction false} NoPatternsKeepsAll(lines: seq<Option<seq<Field>>>, headers: seq<string>, selected: bool)
    ensures FilterMap(lines, RowOf(headers, selected, [])) == FilterMap(lines, ValidRow)
  {
    if lines != [] {
      NoPatternsKeepsAll(lines[..|lines| - 1], headers, selected);
    }
  }

  // ---------------------------------------------------------------------------
  // Empty columns

  /** `value in (0, "", None)`: Python's `==` makes `False` and a zero float equal to 0 too. */
  predicate IsEmptyValue(v: Json) {
    v == JNull || v == JInt(0) || v == JBool(false) || v == JStr("") || v == JFloat("0.0") || v == JFloat("-0.0")
  }

  predicate ColumnEmpty(rows: seq<Dict>, key: string) {
    forall i :: 0 <= i < |rows| ==> IsEmptyValue(GetOr(rows[i], key, JNull))
  }

  /** `is_empty_column`: scan the rows, stopping at the first non-empty value. */
  method IsEmptyColumn(rows: seq<Dict>, key: string) returns (empty: bool)
    ensures empty <==> ColumnEmpty(rows, key)
  {
    var i := 0;
    while i < |rows|
      invariant 0 <= i <= |rows|
      invariant forall j :: 0 <= j < i ==> IsEmptyValue(GetOr(rows[j], key, JNull))
    {
      var value := GetOr(rows[i], key, JNull);
      if !IsEmptyValue(value) {
        return false;
      }
      i := i + 1;
    }
    return true;
  }

  function KeptHeaders(headers: seq<string>, rows: seq<Dict>): seq<string> {
    Filter(headers, (key: string) => !ColumnEmpty(rows, key))
  }

  /** `filtered_headers`: the headers some row gives a non-empty value, in header order. */
  lemma KeptHeadersMember(headers: seq<string>, rows: seq<Dict>, key: string)
    ensures key in KeptHeaders(headers, rows) <==>
            key in headers && exists i :: 0 <= i < |rows| && !IsEmptyValue(GetOr(rows[i], key, JNull))
    ensures IsSubsequence(KeptHeaders(headers, rows), headers)
  {
    FilterMember(headers, (key: string) => !ColumnEmpty(rows, key), key);
    FilterIsSubsequence(headers, (key: string) => !ColumnEmpty(rows, key));
  }

  /** The header filter, one `is_empty_column` call per header. */
  method FilterHeaders(headers: seq<string>, rows: seq<Dict>) returns (kept: seq<string>)
    ensures kept == KeptHeaders(headers, rows)
  {
    kept := [];
    var i := 0;
    while i < |headers|
      invariant 0 <= i <= |headers|
      invariant kept == KeptHeaders(headers[..i], rows)
    {
      assert headers[..i + 1][..i] == headers[..i];
      var empty := IsEmptyColumn(rows, headers[i]);
      if !empty {
        kept := kept + [headers[i]];
      }
      i := i + 1;
    }
    assert headers[..i] == headers;
  }

  // ---------------------------------------------------------------------------
  // format_value

  /** The Python type of a value, as `type_map` records it. */
  datatype PyType = NoneType | BoolType | IntType | FloatType | StrType | ListType | DictType

  function TypeOf(v: Json): PyType {
    match v
    case JNull => NoneType
    case JBool(_) => BoolType
    case JInt(_) => IntType
    case JFloat(_) => FloatType
    case JStr(_) => StrType
    case JArray(_) => ListType
    case JObject(_) => DictType
  }

  /** A table cell. Sizes of 1024 bytes and more and `_`-grouped floats are shown by
      float formatting, which is kept abstract. */
  datatype Cell = Text(text: string) | ScaledSize(bytes: int) | GroupedFloat(repr: string)

  /** The three digits of `m < 1000`, zero-padded. */
  function Pad3(m: nat): (r: string)
    requires m < 1000
    ensures |r| == 3 && forall i :: 0 <= i < 3 ==> '0' <= r[i] <= '9'
  {
    [DigitChar(m / 100), DigitChar(m / 10 % 10), DigitChar(m % 10)]
  }

  /** `f"{n:_}"` for a natural number. */
  function GroupNat(n: nat): string {
    if n < 1000 then NatToString(n) else GroupNat(n / 1000) + "_" + Pad3(n % 1000)
  }

  /** `f"{i:_}"` for an integer. */
  function Grouped(i: int): string {
    if i < 0 then "-" + GroupNat(-i) else GroupNat(i)
  }

  /** The digits of a string, read back without its `_` separators. */
  function Ungrouped(s: string): (r: string)
    ensures forall i :: 0 <= i < |r| ==> '0' <= r[i] <= '9'
  {
    if s == [] then [] else Ungrouped(s[..|s| - 1]) + (if '0' <= s[|s| - 1] <= '9' then [s[|s| - 1]] else [])
  }

  lemma {:induction false} UngroupedAppend(a: string, b: string)
    ensures Ungrouped(a + b) == Ungrouped(a) + Ungrouped(b)
    decreases |b|
  {
    if b == [] {
      assert a + b == a;
    } else {
      assert (a + b)[..|a + b| - 1] == a + b[..|b| - 1];
      UngroupedAppend(a, b[..|b| - 1]);
    }
  }

  lemma {:induction false} UngroupedDigits(s: string)
    requires forall i :: 0 <= i < |s| ==> '0' <= s[i] <= '9'
    ensures Ungrouped(s) == s
  {
    if s != [] {
      UngroupedDigits(s[..|s| - 1]);
    }
  }

  function Pow10(k: nat): nat {
    if k == 0 then 1 else 10 * Pow10(k - 1)
  }

  lemma Distribute(x: int, p: int, y: int, d: int)
    ensures (x * p + y) * 10 + d == x * (10 * p) + (y * 10 + d)
  {
  }

  lemma {:induction false} DigitsValueAppend(a: string, b: string)
    requires forall i :: 0 <= i < |a| ==> '0' <= a[i] <= '9'
    requires forall i :: 0 <= i < |b| ==> '0' <= b[i] <= '9'
    ensures DigitsValue(a + b) == DigitsValue(a) * Pow10(|b|) + DigitsValue(b)
    decreases |b|
  {
    if b == [] {
      assert a + b == a;
    } else {
      var b' := b[..|b| - 1];
      var d := b[|b| - 1] as int - '0' as int;
      var ab := a + b;
      assert ab[..|ab| - 1] == a + b';
      assert ab[|ab| - 1] == b[|b| - 1];
      DigitsValueAppend(a, b');
      assert DigitsValue(ab) == DigitsValue(a + b') * 10 + d;
      assert DigitsValue(b) == DigitsValue(b') * 10 + d;
      Distribute(DigitsValue(a), Pow10(|b'|), DigitsValue(b'), d);
    }
  }

  lemma Pad3Value(m: nat)
    requires m < 1000
    ensures DigitsValue(Pad3(m)) == m
  {
    var p := Pad3(m);
    var h, t, u := m / 100, m / 10 % 10, m % 10;
    var p2, p1 := p[..2], p[..1];
    assert p2[..1] == p1 && p1[..0] == [];
    assert DigitsValue(p1) == h;
    assert DigitsValue(p2) == h * 10 + t;
    assert DigitsValue(p) == (h * 10 + t) * 10 + u;
    assert m / 10 == h * 10 + t;
  }

  lemma UngroupedSeparated(g: string, p: string)
    requires forall i :: 0 <= i < |p| ==> '0' <= p[i] <= '9'
    ensures Ungrouped(g + "_" + p) == Ungrouped(g) + p
  {
    var sep: string := "_";
    UngroupedAppend(g + sep, p);
    UngroupedAppend(g, sep);
    UngroupedDigits(p);
    assert Ungrouped(sep) == [] by { assert sep[..0] == []; }
    var ug := Ungrouped(g);
    assert Ungrouped(g + sep) == ug + [] == ug;
  }

  /** One `_`-separated group of three digits appended after `g`. */
  lemma GroupAppendValue(g: string, m: nat)
    requires m < 1000
    ensures DigitsValue(Ungrouped(g + "_" + Pad3(m))) == DigitsValue(Ungrouped(g)) * 1000 + m
  {
    var p := Pad3(m);
    UngroupedSeparated(g, p);
    DigitsValueAppend(Ungrouped(g), p);
    Pad3Value(m);
    assert Pow10(3) == 1000;
  }

  /** Dropping the `_` separators of `f"{n:_}"` gives back the digits of `n`. */
  lemma {:induction false} GroupNatValue(n: nat)
    ensures DigitsValue(Ungrouped(GroupNat(n))) == n
  {
    if n < 1000 {
      UngroupedDigits(NatToString(n));
      NatToStringValue(n);
    } else {
      GroupNatValue(n / 1000);
      GroupAppendValue(GroupNat(n / 1000), n % 1000);
    }
  }

  /** `f"{i:_}"` reads back as `i`: a sign for a negative number, then its digits. */
  lemma GroupedValue(i: int)
    ensures i >= 0 ==> DigitsValue(Ungrouped(Grouped(i))) == i
    ensures i < 0 ==> Grouped(i)[0] == '-' && DigitsValue(Ungrouped(Grouped(i)[1..])) == -i
  {
    if i < 0 {
      GroupNatValue(-i);
      assert Grouped(i)[1..] == GroupNat(-i);
    } else {
      GroupNatValue(i);
    }
  }

  /** The integer value of an `int` (a `bool` is an `int` in Python). */
  function IntValue(v: Json): int
    requires v.JInt? || v.JBool?
  {
    if v.JInt? then v.i else if v.b then 1 else 0
  }

  /** `human_readable_size` for an integer: below 1024 it is `f"{size} B"`. */
  function HumanReadableSize(v: Json): (c: Cell)
    requires v.JInt? || v.JBool?
    ensures IntValue(v) < 1024 ==> c == Text(PyStr(v) + " B")
    ensures IntValue(v) >= 1024 ==> c == ScaledSize(IntValue(v))
  {
    if IntValue(v) < 1024 then Text(PyStr(v) + " B") else ScaledSize(IntValue(v))
  }

  /** `type_map.get(key, type(value))`: the column's type from the first line, or the
      value's own type for a column the first line lacks. */
  function ColumnType(key: string, value: Json, typeMap: map<string, PyType>): PyType {
    if key in typeMap then typeMap[key] else TypeOf(value)
  }

  /** `format_value(key, value, type_map)`: `value` is `flat_obj.get(col, None)`, with a
      missing key as `JNull`. */
  function FormatValue(key: string, value: Json, typeMap: map<string, PyType>): (c: Cell)
    ensures value == JNull ==> c == Text("")
    ensures value != JNull && key == "size" && value.JInt? && value.i < 1024 ==> c == Text(IntToString(value.i) + " B")
    ensures value != JNull && key != "size" && value.JInt? && (key in typeMap ==> typeMap[key] in {IntType, FloatType})
            ==> c == Text(Grouped(value.i))
    ensures c.Text? && value.JStr? ==> c.text == value.s
    ensures value != JNull && !(key == "size" && (value.JInt? || value.JBool?))
            && !(ColumnType(key, value, typeMap) in {IntType, FloatType} && (value.JInt? || value.JBool? || value.JFloat?))
            ==> c == Text(PyStr(value))
  {
    if value == JNull then Text("")
    else
      var colType := ColumnType(key, value, typeMap);
      if key == "size" && (value.JInt? || value.JBool?) then HumanReadableSize(value)
      else if (colType == IntType || colType == FloatType) && (value.JInt? || value.JBool? || value.JFloat?) then
        if value.JFloat? then GroupedFloat(value.repr) else Text(Grouped(IntValue(value)))
      else Text(PyStr(value))
  }

  // ---------------------------------------------------------------------------
  // The table

  /** What `ndjson_table` shows. */
  datatype Outcome =
    | EmptyInput
    | FirstLineInvalid
    | MissingColumn(column: string)   // a selected column absent from the first line raises KeyError
    | Rendered(columns: seq<string>, rows: seq<seq<Cell>>)

  /** `headers = selected_columns or all_headers` */
  function Headers(selected: seq<string>, flatFirst: Dict): (hs: seq<string>)
    ensures selected != [] ==> hs == selected
    ensures selected == [] ==> hs == Keys(flatFirst)
  {
    if selected != [] then selected else Keys(flatFirst)
  }

  function TypeMap(headers: seq<string>, flatFirst: Dict): map<string, PyType>
    requires forall h :: h in headers ==> Lookup(flatFirst, h).Some?
  {
    map h | h in headers :: TypeOf(Lookup(flatFirst, h).value)
  }

  function PlainRow(kept: seq<string>, typeMap: map<string, PyType>, rows: seq<Dict>, at: nat): seq<Cell>
    requires at < |rows|
  {
    [Text(NatToString(at + 1))] + Map(kept, (col: string) => FormatValue(col, GetOr(rows[at], col, JNull), typeMap))
  }

  /** The rows of the plain layout: a `#` column numbered from 1, then the kept columns. */
  function PlainTable(kept: seq<string>, typeMap: map<string, PyType>, rows: seq<Dict>): (t: seq<seq<Cell>>)
    ensures |t| == |rows|
    ensures forall at :: 0 <= at < |t| ==> |t[at]| == |kept| + 1 && t[at][0] == Text(NatToString(at + 1))
  {
    seq(|rows|, (at: int) requires 0 <= at < |rows| => PlainRow(kept, typeMap, rows, at))
  }

  function PivotRow(rows: seq<Dict>, typeMap: map<string, PyType>): string -> seq<Cell> {
    (col: string) => [Text(col)] + Map(rows, (r: Dict) => FormatValue(col, GetOr(r, col, JNull), typeMap))
  }

  function RowTitle(at: nat): string {
    "Row " + NatToString(at + 1)
  }

  /** The pivot layout: a `Field` column and one column per row; one row per kept header. */
  function PivotTable(kept: seq<string>, typeMap: map<string, PyType>, rows: seq<Dict>): (t: (seq<string>, seq<seq<Cell>>))
    ensures |t.0| == |rows| + 1 && t.0[0] == "Field"
    ensures forall at :: 0 <= at < |rows| ==> t.0[at + 1] == RowTitle(at)
    ensures |t.1| == |kept| && forall i :: 0 <= i < |kept| ==> |t.1[i]| == |rows| + 1 && t.1[i][0] == Text(kept[i])
  {
    (["Field"] + seq(|rows|, (at: int) requires 0 <= at < |rows| => RowTitle(at)), Map(kept, PivotRow(rows, typeMap)))
  }

  /** `ndjson_table` on already-read lines, each parsed to an object or None for
      invalid JSON. */
  method RenderTable(lines: seq<Option<seq<Field>>>, selected: seq<string>, pivot: bool, patterns: seq<string -> bool>)
    returns (out: Outcome)
    ensures lines == [] ==> out == EmptyInput
    ensures lines != [] && lines[0].None? ==> out == FirstLineInvalid
    ensures out.Rendered? ==>
              lines != [] && lines[0].Some?
              && var flatFirst := Flatten(lines[0].value, "");
                 var headers := Headers(selected, flatFirst);
                 var rows := FilterMap(lines, RowOf(headers, selected != [], patterns));
                 var kept := KeptHeaders(headers, rows);
                 (forall h :: h in headers ==> Lookup(flatFirst, h).Some?)
                 && (!pivot ==> out.columns == ["#"] + kept && out.rows == PlainTable(kept, TypeMap(headers, flatFirst), rows))
                 && (pivot ==> (out.columns, out.rows) == PivotTable(kept, TypeMap(headers, flatFirst), rows))
    ensures out.MissingColumn? ==> out.column in selected && lines[0].Some? && Lookup(Flatten(lines[0].value, ""), out.column).None?
    ensures lines != [] && lines[0].Some? ==>
              (out.MissingColumn? <==> exists c :: c in selected && Lookup(Flatten(lines[0].value, ""), c).None?)
    ensures lines != [] && lines[0].Some? && (forall c :: c in selected ==> Lookup(Flatten(lines[0].value, ""), c).Some?)
            ==> out.Rendered?
    ensures out.MissingColumn? ==>
              exists k :: 0 <= k < |selected| && selected[k] == out.column
                          && forall i :: 0 <= i < k ==> Lookup(Flatten(lines[0].value, ""), selected[i]).Some?
  {
    if lines == [] {
      return EmptyInput;
    }
    if lines[0].None? {
      return FirstLineInvalid;
    }
    var flatFirst := FlattenObject(lines[0].value, "");
    var headers := Headers(selected, flatFirst);
    var j := 0;
    while j < |headers|
      invariant 0 <= j <= |headers|
      invariant forall h :: h in headers[..j] ==> Lookup(flatFirst, h).Some?
      invariant forall i :: 0 <= i < j ==> Lookup(flatFirst, headers[i]).Some?
    {
      if Lookup(flatFirst, headers[j]).None? {
        if selected == [] {
          LookupIn(flatFirst, headers[j]);
        }
        return MissingColumn(headers[j]);
      }
      assert headers[..j + 1] == headers[..j] + [headers[j]];
      j := j + 1;
    }
    assert headers[..j] == headers;
    var typeMap := TypeMap(headers, flatFirst);
    var rows := CollectRows(lines, headers, selected != [], patterns);
    var kept := FilterHeaders(headers, rows);
    if !pivot {
      return Rendered(["#"] + kept, PlainTable(kept, typeMap, rows));
    }
    var t := PivotTable(kept, typeMap, rows);
    return Rendered(t.0, t.1);
  }
}
