/** `flatten_record`: un-nesting a record along the stream's column names. */
module RecordFlattening {
  import opened Json
  import opened Rows
  import opened Naming

  /** The separator `flatten_record` joins path segments with. */
  const Sep: string := "__"

  /** A cell that is neither a nested object nor an array: what a flat row
      may hold. */
  predicate IsFlat(c: Cell) {
    c.Val? ==> !c.j.JObj? && !c.j.JArr?
  }

  /** How a value that ends the walk is stored: nested objects and arrays as
      their `str()` text, anything else as it is. */
  function LeafCell(v: Json): (c: Cell)
    ensures IsFlat(c)
  {
    if v.JObj? || v.JArr? then Repr(v) else Val(v)
  }

  /** Every value of a flattened map is flat. */
  ghost predicate AllFlat(m: map<string, Cell>) {
    forall key :: key in m ==> IsFlat(m[key])
  }

  /** The entries the `i`-th field of object `obj` contributes, with
      `parent` the path of `obj`. A field whose flattened name is a declared
      column is stored and not descended into; an undeclared object is
      flattened with the path extended; anything else is stored. */
  function FieldEntry(obj: Json, i: nat, attrs: seq<string>, parent: seq<string>): (r: map<string, Cell>)
    requires obj.JObj? && i < |obj.fields|
    ensures AllFlat(r)
    decreases obj, 0
  {
    var (k, v) := obj.fields[i];
    var key := FlattenKey(k, parent, Sep);
    if key in attrs then map[key := LeafCell(v)]
    else if v.JObj? then FlattenObject(v, attrs, parent + [k])
    else map[key := LeafCell(v)]
  }

  /** The `items` list: the entries of each field of `obj`, in field order. */
  function Entries(obj: Json, attrs: seq<string>, parent: seq<string>): (ms: seq<map<string, Cell>>)
    requires obj.JObj?
    ensures |ms| == |obj.fields|
    ensures forall j :: 0 <= j < |ms| ==> ms[j] == FieldEntry(obj, j, attrs, parent) && AllFlat(ms[j])
    decreases obj, 1
  {
    seq(|obj.fields|, j requires 0 <= j < |obj.fields| => FieldEntry(obj, j, attrs, parent))
  }

  /** `dict(items)`: the first `n` maps of `ms` laid one over the other, a
      later entry replacing an earlier one under the same name. */
  function Overlay(ms: seq<map<string, Cell>>, n: nat): map<string, Cell>
    requires n <= |ms|
  {
    if n == 0 then map[] else Overlay(ms, n - 1) + ms[n - 1]
  }

  /** An overlay of flat maps is flat. */
  lemma {:induction false} OverlayFlat(ms: seq<map<string, Cell>>, n: nat)
    requires n <= |ms|
    requires forall j :: 0 <= j < |ms| ==> AllFlat(ms[j])
    ensures AllFlat(Overlay(ms, n))
    decreases n
  {
    if n > 0 {
      OverlayFlat(ms, n - 1);
      assert AllFlat(ms[n - 1]);
    }
  }

  /** An object flattened: the overlay of its fields' entries. */
  function FlattenObject(obj: Json, attrs: seq<string>, parent: seq<string>): (r: map<string, Cell>)
    requires obj.JObj?
    ensures AllFlat(r)
    decreases obj, 2
  {
    var ms := Entries(obj, attrs, parent);
    OverlayFlat(ms, |ms|);
    Overlay(ms, |ms|)
  }

  /** `flatten_record(d, attrs, parent)`: every value in the result is a
      scalar or the text of a nested structure. */
  function FlattenRecord(d: seq<(string, Json)>, attrs: seq<string>, parent: seq<string>): (r: map<string, Cell>)
    ensures forall key :: key in r ==> IsFlat(r[key])
  {
    FlattenObject(JObj(d), attrs, parent)
  }

  /** In an overlay a name holds what the last map that has it gives it. */
  lemma {:induction false} OverlayLastWins(ms: seq<map<string, Cell>>, n: nat, i: nat, key: string)
    requires i < n <= |ms| && key in ms[i]
    requires forall j :: i < j < n ==> key !in ms[j]
    ensures key in Overlay(ms, n) && Overlay(ms, n)[key] == ms[i][key]
    decreases n
  {
    if i < n - 1 {
      OverlayLastWins(ms, n - 1, i, key);
      UnionKeepsLeft(Overlay(ms, n - 1), ms[n - 1], key);
    } else {
      UnionTakesRight(Overlay(ms, n - 1), ms[n - 1], key);
    }
  }

  /** A name only the left map holds keeps its value in the union. */
  lemma UnionKeepsLeft(a: map<string, Cell>, b: map<string, Cell>, key: string)
    requires key in a && key !in b
    ensures key in a + b && (a + b)[key] == a[key]
  {
  }

  /** A name the right map holds takes its value in the union. */
  lemma UnionTakesRight(a: map<string, Cell>, b: map<string, Cell>, key: string)
    requires key in b
    ensures key in a + b && (a + b)[key] == b[key]
  {
  }

  /** A name written by field `i` and by no later field is in the flattened
      object and holds what field `i` wrote. */
  lemma LastFieldWins(obj: Json, attrs: seq<string>, parent: seq<string>, i: nat, key: string)
    requires obj.JObj? && i < |obj.fields|
    requires key in FieldEntry(obj, i, attrs, parent)
    requires forall j :: i < j < |obj.fields| ==> key !in FieldEntry(obj, j, attrs, parent)
    ensures key in FlattenObject(obj, attrs, parent)
    ensures FlattenObject(obj, attrs, parent)[key] == FieldEntry(obj, i, attrs, parent)[key]
  {
    var ms := Entries(obj, attrs, parent);
    OverlayLastWins(ms, |ms|, i, key);
  }

  /** The four cases of `flatten_record` for the `i`-th field `(k, v)` of a
      record, when no later field writes the same names: a declared column
      holds `v` (as text if it is an object or array) without descent; an
      undeclared array is stored as text; an undeclared scalar as it is; an
      undeclared object contributes its own flattening under the extended
      path. */
  lemma FlattenRecordField(d: seq<(string, Json)>, attrs: seq<string>, parent: seq<string>, i: nat)
    requires i < |d|
    requires forall j, key :: i < j < |d| && key in FieldEntry(JObj(d), i, attrs, parent)
               ==> key !in FieldEntry(JObj(d), j, attrs, parent)
    ensures var k, v, r := d[i].0, d[i].1, FlattenRecord(d, attrs, parent);
      var key := FlattenKey(k, parent, Sep);
      && (key in attrs ==> key in r && r[key] == (if v.JObj? || v.JArr? then Repr(v) else Val(v)))
      && (key !in attrs && v.JArr? ==> key in r && r[key] == Repr(v))
      && (key !in attrs && !v.JObj? && !v.JArr? ==> key in r && r[key] == Val(v))
      && (key !in attrs && v.JObj? ==>
            var inner := FlattenRecord(v.fields, attrs, parent + [k]);
            forall name :: name in inner ==> name in r && r[name] == inner[name])
  {
    var obj := JObj(d);
    var k, v := d[i].0, d[i].1;
    var key := FlattenKey(k, parent, Sep);
    var e := FieldEntry(obj, i, attrs, parent);
    if key in attrs || !v.JObj? {
      LastFieldWins(obj, attrs, parent, i, key);
    } else {
      assert JObj(v.fields) == v;
      forall name | name in e
        ensures name in FlattenRecord(d, attrs, parent)
        ensures FlattenRecord(d, attrs, parent)[name] == e[name]
      {
        LastFieldWins(obj, attrs, parent, i, name);
      }
    }
  }
}
