/** `flatten_schema`: the leaf columns of a JSON Schema, sorted by name, with
    duplicate names rejected. */
module SchemaFlattening {
  import opened Json
  import opened Text
  import opened Naming
  import RecordFlattening

  /** A flattened property: its column name and its leaf definition. */
  type Leaf = (string, Json)

  // ---------------------------------------------------------------------
  // Ordering by column name

  /** Names are in non-decreasing order. */
  predicate SortedByName(s: seq<Leaf>) {
    forall i, j :: 0 <= i < j < |s| ==> !Less(s[j].0, s[i].0)
  }

  predicate StrictlySortedByName(s: seq<Leaf>) {
    forall i, j :: 0 <= i < j < |s| ==> Less(s[i].0, s[j].0)
  }

  predicate NoDuplicateNames(s: seq<Leaf>) {
    forall i, j :: 0 <= i < j < |s| ==> s[i].0 != s[j].0
  }

  lemma NotLessTransitive(a: string, b: string, c: string)
    requires !Less(b, a) && !Less(c, b)
    ensures !Less(c, a)
  {
    LessTotal(a, b);
    if Less(c, a) && Less(a, b) {
      LessTransitive(c, a, b);
    }
  }

  /** Some leaf of `s` is named `name`. */
  predicate HasName(s: seq<Leaf>, name: string) {
    exists i :: 0 <= i < |s| && s[i].0 == name
  }

  /** A leaf at two positions occurs at least twice. */
  lemma RepeatCounts(s: seq<Leaf>, i: nat, j: nat)
    requires i < j < |s| && s[i] == s[j]
    ensures multiset(s)[s[i]] >= 2
  {
    assert s == s[..j] + s[j..];
    assert s[i] in s[..j];
    assert s[j..][0] == s[j];
  }

  lemma RemoveAt(b: seq<Leaf>, k: nat)
    requires k < |b|
    ensures multiset(b[..k] + b[k + 1..]) == multiset(b) - multiset{b[k]}
  {
    assert b == b[..k] + [b[k]] + b[k + 1..];
  }

  /** A leaf that occurs at least twice sits at two positions. */
  lemma TwoPositions(b: seq<Leaf>, x: Leaf) returns (p: nat, q: nat)
    requires multiset(b)[x] >= 2
    ensures p < q < |b| && b[p] == x && b[q] == x
  {
    assert x in multiset(b);
    var k :| 0 <= k < |b| && b[k] == x;
    var rest := b[..k] + b[k + 1..];
    RemoveAt(b, k);
    assert x in multiset(rest);
    var m :| 0 <= m < |rest| && rest[m] == x;
    if m < k {
      p, q := m, k;
    } else {
      p, q := k, m + 1;
    }
  }

  /** Two arrangements of the same leaves repeat a name alike. */
  lemma PermutationKeepsRepeats(a: seq<Leaf>, b: seq<Leaf>)
    requires multiset(a) == multiset(b)
    requires !NoDuplicateNames(a)
    ensures !NoDuplicateNames(b)
  {
    var i, j :| 0 <= i < j < |a| && a[i].0 == a[j].0;
    if a[i] == a[j] {
      RepeatCounts(a, i, j);
      var p, q := TwoPositions(b, a[i]);
    } else {
      assert a[i] in multiset(b) && a[j] in multiset(b);
      var p :| 0 <= p < |b| && b[p] == a[i];
      var q :| 0 <= q < |b| && b[q] == a[j];
      if q < p {
        assert b[q].0 == b[p].0;
      }
    }
  }

  /** Insertion of one leaf into a list sorted by name. */
  function Insert(e: Leaf, s: seq<Leaf>): (r: seq<Leaf>)
    ensures multiset(r) == multiset(s) + multiset{e}
  {
    if |s| == 0 then [e]
    else if !Less(s[0].0, e.0) then [e] + s
    else
      assert s == [s[0]] + s[1..];
      [s[0]] + Insert(e, s[1..])
  }

  lemma BelowAll(x: Leaf, s: seq<Leaf>)
    requires SortedByName([x] + s)
    ensures forall y :: y in s ==> !Less(y.0, x.0)
  {
    forall y | y in s
      ensures !Less(y.0, x.0)
    {
      var k :| 0 <= k < |s| && s[k] == y;
      assert ([x] + s)[k + 1] == y && ([x] + s)[0] == x;
    }
  }

  lemma ConsSorted(x: Leaf, s: seq<Leaf>)
    requires SortedByName(s)
    requires forall y :: y in s ==> !Less(y.0, x.0)
    ensures SortedByName([x] + s)
  {
    var r := [x] + s;
    forall i, j | 0 <= i < j < |r|
      ensures !Less(r[j].0, r[i].0)
    {
      assert r[j] == s[j - 1];
      if i > 0 {
        assert r[i] == s[i - 1];
      }
    }
  }

  lemma {:induction false} InsertSorted(e: Leaf, s: seq<Leaf>)
    requires SortedByName(s)
    ensures SortedByName(Insert(e, s))
  {
    if |s| == 0 {
    } else if !Less(s[0].0, e.0) {
      assert s == [s[0]] + s[1..];
      BelowAll(s[0], s[1..]);
      forall y | y in s
        ensures !Less(y.0, e.0)
      {
        if y != s[0] {
          NotLessTransitive(e.0, s[0].0, y.0);
        }
      }
      ConsSorted(e, s);
    } else {
      var t := Insert(e, s[1..]);
      assert s == [s[0]] + s[1..];
      assert SortedByName(s[1..]) by {
        forall i, j | 0 <= i < j < |s| - 1
          ensures !Less(s[1..][j].0, s[1..][i].0)
        {
          assert s[1..][j] == s[j + 1] && s[1..][i] == s[i + 1];
        }
      }
      InsertSorted(e, s[1..]);
      BelowAll(s[0], s[1..]);
      forall y | y in t
        ensures !Less(y.0, s[0].0)
      {
        assert y in multiset(t);
        if y == e {
          LessAsymmetric(s[0].0, e.0);
        } else {
          assert y in multiset(s[1..]);
        }
      }
      ConsSorted(s[0], t);
    }
  }

  /** `sorted(items, key=name)`. */
  function SortByName(items: seq<Leaf>): (r: seq<Leaf>)
    ensures multiset(r) == multiset(items)
    ensures SortedByName(r)
  {
    if |items| == 0 then []
    else
      var rest := SortByName(items[1..]);
      InsertSorted(items[0], rest);
      assert items == [items[0]] + items[1..];
      Insert(items[0], rest)
  }

  /** Sorting neither creates nor removes duplicate names. */
  lemma SortKeepsDuplicates(items: seq<Leaf>)
    ensures NoDuplicateNames(SortByName(items)) <==> NoDuplicateNames(items)
  {
    var sorted := SortByName(items);
    if !NoDuplicateNames(items) {
      PermutationKeepsRepeats(items, sorted);
    }
    if !NoDuplicateNames(sorted) {
      PermutationKeepsRepeats(sorted, items);
    }
  }

  /** The position, from `j` on, of the first leaf whose name repeats the
      previous one's (`|s|` or beyond when there is none): where
      `itertools.groupby` meets its first group of two. */
  function FirstRepeat(s: seq<Leaf>, j: nat): (i: nat)
    requires 0 < j
    ensures j <= i
    ensures i < |s| ==> s[i].0 == s[i - 1].0
    ensures forall k :: j <= k < i && k < |s| ==> s[k].0 != s[k - 1].0
    decreases |s| - j
  {
    if j >= |s| then j
    else if s[j].0 == s[j - 1].0 then j
    else FirstRepeat(s, j + 1)
  }

  lemma {:induction false} AdjacentStrictIsStrict(s: seq<Leaf>)
    requires forall i :: 0 < i < |s| ==> Less(s[i - 1].0, s[i].0)
    ensures StrictlySortedByName(s)
  {
    if |s| > 1 {
      AdjacentStrictIsStrict(s[1..]);
      forall j | 1 < j < |s|
        ensures Less(s[0].0, s[j].0)
      {
        assert s[j] == s[1..][j - 1] && s[1] == s[1..][0];
        LessTransitive(s[0].0, s[1].0, s[j].0);
      }
    }
  }

  lemma StrictIsNoDuplicates(s: seq<Leaf>)
    requires StrictlySortedByName(s)
    ensures NoDuplicateNames(s)
  {
    forall i, j | 0 <= i < j < |s|
      ensures s[i].0 != s[j].0
    {
      LessIrreflexive(s[i].0);
    }
  }

  /** A list sorted by name without adjacent repeats is strictly sorted. */
  lemma SortedDistinctIsStrict(s: seq<Leaf>)
    requires SortedByName(s)
    requires forall i :: 0 < i < |s| ==> s[i].0 != s[i - 1].0
    ensures StrictlySortedByName(s)
  {
    forall i | 0 < i < |s|
      ensures Less(s[i - 1].0, s[i].0)
    {
      LessTotal(s[i - 1].0, s[i].0);
    }
    AdjacentStrictIsStrict(s);
  }

  /** The sort and the duplicate check that end `flatten_schema`: the error
      names the first repeated column in sorted order. */
  function SortAndCheck(items: seq<Leaf>): (r: Result<seq<Leaf>>)
    ensures r.Ok? <==> NoDuplicateNames(items)
    ensures r.Ok? ==> StrictlySortedByName(r.value) && multiset(r.value) == multiset(items)
    ensures r.Err? ==> r.error.DuplicateColumn? && HasName(items, r.error.name)
  {
    var sorted := SortByName(items);
    SortKeepsDuplicates(items);
    var i := FirstRepeat(sorted, 1);
    if i < |sorted| then
      assert sorted[i] in multiset(items);
      Err(DuplicateColumn(sorted[i].0))
    else
      SortedDistinctIsStrict(sorted);
      StrictIsNoDuplicates(sorted);
      Ok(sorted)
  }

  // ---------------------------------------------------------------------
  // Walking `properties`

  /** `fields` with every binding of `key` set to `value` (`d[key] = value`). */
  function SetField(fields: seq<(string, Json)>, key: string, value: Json): seq<(string, Json)> {
    seq(|fields|, i requires 0 <= i < |fields| =>
      if fields[i].0 == key then (key, value) else fields[i])
  }

  /** A property without a `type` keyword: the value of its first keyword
      (`list(v.values())[0]`, which Python reads from the first key's last
      binding) must be a list whose first element has a `type`, or the source
      raises; a `string` or `array` alternative becomes a nullable leaf, any
      other alternative is dropped. */
  function UntypedLeaf(key: string, v: seq<(string, Json)>): Result<Option<Leaf>>
    requires |v| > 0
  {
    var first := Lookup(v, v[0].0);
    if !first.Some? || !first.value.JArr? || |first.value.items| == 0 || !first.value.items[0].JObj? then
      Err(MalformedSchema)
    else
      var property := first.value.items[0].fields;
      match Lookup(property, "type")
      case None => Err(MalformedSchema)
      case Some(t) =>
        if t == JStr("string") then
          Ok(Some((key, JObj(SetField(property, "type", JArr([JStr("null"), JStr("string")]))))))
        else if t == JStr("array") then
          Ok(Some((key, JObj(SetField(property, "type", JArr([JStr("null"), JStr("array")]))))))
        else Ok(None)
  }

  /** The `properties` object of a schema node, when there is one. */
  function PropertiesOf(d: Json): Option<Json> {
    if !d.JObj? then None else Lookup(d.fields, "properties")
  }

  /** A value Python's `in` can search: a string, a list or a dict. */
  predicate IsContainer(t: Json) {
    t.JStr? || t.JArr? || t.JObj?
  }

  /** How `flatten_schema` treats one property. */
  datatype PropertyKind =
    | Skipped                     // an empty definition
    | Nested                      // an object with `properties`: flattened under its key
    | Single(leaf: Leaf)          // a typed leaf or an opaque object
    | Dropped                     // an untyped property that is neither string nor array
    | Crash                       // a shape the source raises on

  /** The kind of a property with definition `v` whose column name would be
      `key`. */
  function Classify(key: string, v: Json): (c: PropertyKind)
    ensures c.Single? && v.JObj? && HasKey(v.fields, "type") ==> c.leaf == (key, v)
    ensures c.Nested? ==> v.JObj? && HasKey(v.fields, "properties")
    ensures c.Skipped? <==> Falsy(v)
  {
    if Falsy(v) then Skipped
    else if !v.JObj? then Crash
    else match Lookup(v.fields, "type")
      case Some(t) =>
        if !IsContainer(t) then Crash
        else if Mentions(t, "object") && HasKey(v.fields, "properties") then Nested
        else Single((key, v))
      case None =>
        match UntypedLeaf(key, v.fields)
        case Err(_) => Crash
        case Ok(None) => Dropped
        case Ok(Some(leaf)) => Single(leaf)
  }

  /** The column names `flatten_key(k, parent)` of the keys `k` of `fields`,
      in order. */
  function KeysOf(fields: seq<(string, Json)>, parent: seq<string>): (keys: seq<string>)
    ensures |keys| == |fields|
  {
    if |fields| == 0 then []
    else [FlattenKey(fields[0].0, parent, RecordFlattening.Sep)] + KeysOf(fields[1..], parent)
  }

  lemma {:induction false} KeyAt(fields: seq<(string, Json)>, parent: seq<string>, j: nat)
    requires j < |fields|
    ensures KeysOf(fields, parent)[j] == FlattenKey(fields[j].0, parent, RecordFlattening.Sep)
  {
    if j > 0 {
      KeyAt(fields[1..], parent, j - 1);
    }
  }

  function PropertyKeys(props: Json, parent: seq<string>): (keys: seq<string>)
    requires props.JObj?
    ensures |keys| == |props.fields|
  {
    KeysOf(props.fields, parent)
  }

  /** The leaves property `j` of `props`, named `keys[j]`, adds to `items`:
      none, its own leaf, or the flattened leaves of its nested object. */
  function Contribution(props: Json, keys: seq<string>, j: nat, parent: seq<string>): Result<seq<Leaf>>
    requires props.JObj? && |keys| == |props.fields| && j < |props.fields|
    decreases props, j
  {
    var k := props.fields[j].0;
    var v := props.fields[j].1;
    match Classify(keys[j], v)
    case Skipped => Ok([])
    case Dropped => Ok([])
    case Crash => Err(MalformedSchema)
    case Single(leaf) => Ok([leaf])
    case Nested => FlattenSchema(v, parent + [k])
  }

  /** The leaves of the first `n` properties of `props`, in property order. */
  function PropertyLeaves(props: Json, keys: seq<string>, n: nat, parent: seq<string>): Result<seq<Leaf>>
    requires props.JObj? && |keys| == |props.fields| && n <= |props.fields|
    decreases props, n
  {
    if n == 0 then Ok([])
    else
      var prev :- PropertyLeaves(props, keys, n - 1, parent);
      var more :- Contribution(props, keys, n - 1, parent);
      Ok(prev + more)
  }

  /** The unsorted leaves of schema node `d`. */
  function CollectLeaves(d: Json, parent: seq<string>): Result<seq<Leaf>>
    requires d.JObj?
    decreases d, 1
  {
    var i := FindKey(d.fields, "properties");
    if i < 0 then Ok([])
    else
      var props := d.fields[i].1;
      if !props.JObj? then Err(MalformedSchema)
      else PropertyLeaves(props, PropertyKeys(props, parent), |props.fields|, parent)
  }

  /** `flatten_schema(d, parent)`. */
  function FlattenSchema(d: Json, parent: seq<string>): (r: Result<seq<Leaf>>)
    ensures r.Ok? ==> StrictlySortedByName(r.value) && NoDuplicateNames(r.value)
    decreases d, 2
  {
    if !d.JObj? then Err(MalformedSchema)
    else
      var items :- CollectLeaves(d, parent);
      var r := SortAndCheck(items);
      assert r.Ok? ==> NoDuplicateNames(r.value) by {
        if r.Ok? {
          StrictIsNoDuplicates(r.value);
        }
      }
      r
  }

  /** The schema flattens exactly when its leaves can be collected and no two
      share a name; the result then holds exactly those leaves. */
  lemma FlattenSchemaSpec(d: Json, parent: seq<string>)
    requires d.JObj?
    ensures FlattenSchema(d, parent).Ok?
      <==> CollectLeaves(d, parent).Ok? && NoDuplicateNames(CollectLeaves(d, parent).value)
    ensures FlattenSchema(d, parent).Ok? ==>
      multiset(FlattenSchema(d, parent).value) == multiset(CollectLeaves(d, parent).value)
  {
  }

  /** A schema without `properties` flattens to no columns. */
  lemma NoPropertiesNoColumns(d: Json, parent: seq<string>)
    requires d.JObj? && !HasKey(d.fields, "properties")
    ensures FlattenSchema(d, parent) == Ok([])
  {
  }

  /** What each shape of property contributes. */
  lemma ContributionSpec(props: Json, keys: seq<string>, j: nat, parent: seq<string>)
    requires props.JObj? && |keys| == |props.fields| && j < |props.fields|
    ensures var k := props.fields[j].0;
      var v := props.fields[j].1;
      var c := Contribution(props, keys, j, parent);
      && (Falsy(v) ==> c == Ok([]))
      && (!Falsy(v) && !v.JObj? ==> c.Err?)
      && (v.JObj? && HasKey(v.fields, "type") ==>
            var t := Lookup(v.fields, "type").value;
            && (!IsContainer(t) && !Falsy(v) ==> c.Err?)
            && (IsContainer(t) && Mentions(t, "object") && HasKey(v.fields, "properties") ==>
                  c == FlattenSchema(v, parent + [k]))
            && (IsContainer(t) && !(Mentions(t, "object") && HasKey(v.fields, "properties")) ==>
                  c == Ok([(keys[j], v)])))
  {
  }

  /** One turn of the loop over `properties`. */
  lemma PropertyLeavesStep(props: Json, keys: seq<string>, n: nat, parent: seq<string>)
    requires props.JObj? && |keys| == |props.fields| && 0 < n <= |props.fields|
    ensures var prev := PropertyLeaves(props, keys, n - 1, parent);
      var more := Contribution(props, keys, n - 1, parent);
      PropertyLeaves(props, keys, n, parent)
        == if prev.Ok? && more.Ok? then Ok(prev.value + more.value)
           else if prev.Err? then Err(prev.error) else Err(more.error)
  {
  }

  /** Leaf `e` is among what property `j` contributes. */
  predicate Contributes(props: Json, keys: seq<string>, j: nat, parent: seq<string>, e: Leaf)
    requires props.JObj? && |keys| == |props.fields| && j < |props.fields|
  {
    var c := Contribution(props, keys, j, parent);
    c.Ok? && e in c.value
  }

  /** The loop succeeds exactly when every property it passes does, and then
      its leaves are exactly the ones those properties contribute. */
  lemma {:induction false} PropertyLeavesExact(props: Json, keys: seq<string>, n: nat, parent: seq<string>)
    requires props.JObj? && |keys| == |props.fields| && n <= |props.fields|
    ensures PropertyLeaves(props, keys, n, parent).Ok?
      <==> forall j :: 0 <= j < n ==> Contribution(props, keys, j, parent).Ok?
    ensures PropertyLeaves(props, keys, n, parent).Ok? ==>
      forall e :: e in PropertyLeaves(props, keys, n, parent).value
        <==> exists j :: 0 <= j < n && Contributes(props, keys, j, parent, e)
    decreases n
  {
    if n > 0 {
      PropertyLeavesExact(props, keys, n - 1, parent);
      PropertyLeavesStep(props, keys, n, parent);
      var prev := PropertyLeaves(props, keys, n - 1, parent);
      var more := Contribution(props, keys, n - 1, parent);
      if prev.Ok? && more.Ok? {
        forall e
          ensures e in prev.value + more.value
            <==> exists j :: 0 <= j < n && Contributes(props, keys, j, parent, e)
        {
          if e in more.value {
            assert Contributes(props, keys, n - 1, parent, e);
          }
        }
      }
    }
  }

  /** The columns of a schema that flattens are exactly the leaves its
      properties contribute. */
  lemma FlattenSchemaLeaves(d: Json, parent: seq<string>)
    requires PropertiesOf(d).Some? && PropertiesOf(d).value.JObj?
    requires FlattenSchema(d, parent).Ok?
    ensures var props := PropertiesOf(d).value;
      var keys := PropertyKeys(props, parent);
      && (forall j :: 0 <= j < |props.fields| ==> Contribution(props, keys, j, parent).Ok?)
      && (forall e :: e in FlattenSchema(d, parent).value
            <==> exists j :: 0 <= j < |props.fields| && Contributes(props, keys, j, parent, e))
  {
    var props := PropertiesOf(d).value;
    var keys := PropertyKeys(props, parent);
    assert CollectLeaves(d, parent) == PropertyLeaves(props, keys, |props.fields|, parent);
    var items := CollectLeaves(d, parent).value;
    var r := FlattenSchema(d, parent).value;
    FlattenSchemaSpec(d, parent);
    PropertyLeavesExact(props, keys, |props.fields|, parent);
    forall e
      ensures e in items <==> e in r
    {
      assert e in items <==> e in multiset(items);
      assert e in r <==> e in multiset(r);
    }
  }

  /** A typed property that is not both typed `object` and given
      `properties`, and that the loop accepts, contributes its own
      definition under its key. */
  lemma TypedContributes(props: Json, keys: seq<string>, j: nat, parent: seq<string>)
    requires props.JObj? && |keys| == |props.fields| && j < |props.fields|
    requires var v := props.fields[j].1;
      v.JObj? && HasKey(v.fields, "type")
      && !(Mentions(Lookup(v.fields, "type").value, "object") && HasKey(v.fields, "properties"))
    requires Contribution(props, keys, j, parent).Ok?
    ensures Contributes(props, keys, j, parent, (keys[j], props.fields[j].1))
  {
    ContributionSpec(props, keys, j, parent);
  }

  /** Every typed property of a schema that flattens that is not both typed
      `object` and given `properties` is a column holding its definition,
      named by
      `PropertyKeys` (that is, `flatten_key(k, parent)`, by `KeyAt`). */
  lemma TypedPropertyIsColumn(d: Json, parent: seq<string>, j: nat)
    requires PropertiesOf(d).Some? && PropertiesOf(d).value.JObj?
    requires j < |PropertiesOf(d).value.fields|
    requires FlattenSchema(d, parent).Ok?
    requires var v := PropertiesOf(d).value.fields[j].1;
      v.JObj? && HasKey(v.fields, "type")
      && !(Mentions(Lookup(v.fields, "type").value, "object") && HasKey(v.fields, "properties"))
    ensures var props := PropertiesOf(d).value;
      (PropertyKeys(props, parent)[j], props.fields[j].1) in FlattenSchema(d, parent).value
  {
    var props := PropertiesOf(d).value;
    var keys := PropertyKeys(props, parent);
    FlattenSchemaLeaves(d, parent);
    assert Contribution(props, keys, j, parent).Ok?;
    TypedContributes(props, keys, j, parent);
  }
}
