/** The per-stream record caches: `RecordBuffer` appends every record;
    `UniqueRecordBuffer` is a dict from the record's key tuple to the record,
    so a later record with the same key replaces the earlier one in its slot. */
module Buffers {
  import opened Rows

  /** A record cache. A `Unique` buffer keeps its records in the dict's
      order (first arrival of each key) and holds at most one per key. */
  datatype Buffer = Append(rows: seq<Row>) | Unique(key: seq<string>, rows: seq<Row>)

  /** `len(buffer)`. */
  function Size(b: Buffer): nat {
    |b.rows|
  }

  /** `buffer.values()`: the cached records in order. */
  function Values(b: Buffer): seq<Row> {
    b.rows
  }

  /** A `Unique` buffer holds one record per key tuple. */
  predicate WellFormed(b: Buffer) {
    b.Unique? ==> UniqueKeys(b.rows, b.key)
  }

  /** `buffer.clear()`. */
  function Clear(b: Buffer): (r: Buffer)
    ensures Size(r) == 0 && WellFormed(r)
    ensures r.Unique? == b.Unique? && (b.Unique? ==> r.key == b.key)
  {
    b.(rows := [])
  }

  /** The slot holding key tuple `k`, or -1. */
  function IndexOfKey(rows: seq<Row>, key: seq<string>, k: seq<Cell>): (p: int)
    ensures -1 <= p < |rows|
    ensures p >= 0 ==> KeyOf(key, rows[p]) == k
    ensures p < 0 <==> k !in KeySet(rows, key)
  {
    if |rows| == 0 then -1
    else if KeyOf(key, rows[|rows| - 1]) == k then |rows| - 1
    else
      var p := IndexOfKey(rows[..|rows| - 1], key, k);
      assert forall i :: 0 <= i < |rows| - 1 ==> rows[..|rows| - 1][i] == rows[i];
      KeySetLast(rows, key);
      p
  }

  /** `add_record`: append, or for a `Unique` buffer store under the record's
      key tuple (`extract_keys`), replacing the record already there. The
      size grows by at most one and never shrinks. */
  function Add(b: Buffer, r: Row): (out: Buffer)
    ensures out.Unique? == b.Unique? && (b.Unique? ==> out.key == b.key)
    ensures Size(b) <= Size(out) <= Size(b) + 1 && Size(out) > 0
  {
    match b
    case Append(rows) => Append(rows + [r])
    case Unique(key, rows) =>
      var p := IndexOfKey(rows, key, KeyOf(key, r));
      if p >= 0 then Unique(key, rows[p := r]) else Unique(key, rows + [r])
  }

  /** Adding `rows` one after the other. */
  function AddAll(b: Buffer, rows: seq<Row>): Buffer
    decreases |rows|
  {
    if |rows| == 0 then b else Add(AddAll(b, rows[..|rows| - 1]), rows[|rows| - 1])
  }

  /** Adding a non-empty sequence adds all but its last record, then the
      last one. */
  lemma AddAllLast(b: Buffer, rows: seq<Row>)
    requires |rows| > 0
    ensures AddAll(b, rows) == Add(AddAll(b, rows[..|rows| - 1]), rows[|rows| - 1])
  {
  }

  /** A `RecordBuffer` keeps every record in arrival order. */
  lemma {:induction false} AppendKeepsAll(prior: seq<Row>, rows: seq<Row>)
    ensures AddAll(Append(prior), rows) == Append(prior + rows)
    decreases |rows|
  {
    if |rows| > 0 {
      AppendKeepsAll(prior, rows[..|rows| - 1]);
      assert prior + rows == prior + rows[..|rows| - 1] + [rows[|rows| - 1]];
    }
  }

  /** One add to a `Unique` buffer keeps one record per key; the new
      record's key is stored afterwards, in the slot it already had or in a
      new last slot, and every other slot is unchanged. */
  lemma UniqueAddSpec(key: seq<string>, rows: seq<Row>, r: Row)
    requires UniqueKeys(rows, key)
    ensures var out, k := Add(Unique(key, rows), r).rows, KeyOf(key, r);
      && UniqueKeys(out, key)
      && KeySet(out, key) == KeySet(rows, key) + {k}
      && |out| == (if k in KeySet(rows, key) then |rows| else |rows| + 1)
      && (forall p :: 0 <= p < |rows| ==> out[p] == if KeyOf(key, rows[p]) == k then r else rows[p])
      && (|out| > |rows| ==> out[|rows|] == r)
  {
    var k := KeyOf(key, r);
    var p := IndexOfKey(rows, key, k);
    var out := Add(Unique(key, rows), r).rows;
    if p >= 0 {
      assert forall q :: 0 <= q < |rows| && q != p ==> KeyOf(key, rows[q]) != k;
      assert forall q :: 0 <= q < |rows| ==> KeyOf(key, out[q]) == KeyOf(key, rows[q]);
      KeySetSameKeys(out, rows, key);
    } else {
      KeySetSnoc(rows, key, r);
    }
  }

  /** Record `i` of `rows` is the last one with its key tuple. */
  predicate LastOfKey(rows: seq<Row>, key: seq<string>, i: int) {
    0 <= i < |rows| && forall j :: i < j < |rows| ==> KeyOf(key, rows[j]) != KeyOf(key, rows[i])
  }

  /** Filling an empty `UniqueRecordBuffer` keeps one record per key
      tuple and stores exactly the key tuples added. */
  lemma {:induction false} UniqueAddAllKeys(key: seq<string>, rows: seq<Row>)
    ensures var b := AddAll(Unique(key, []), rows);
      && b.Unique? && b.key == key
      && UniqueKeys(b.rows, key)
      && KeySet(b.rows, key) == KeySet(rows, key)
    decreases |rows|
  {
    if |rows| > 0 {
      var init, r := rows[..|rows| - 1], rows[|rows| - 1];
      AddAllLast(Unique(key, []), rows);
      UniqueAddAllKeys(key, init);
      UniqueAddSpec(key, AddAll(Unique(key, []), init).rows, r);
      KeySetLast(rows, key);
    }
  }

  /** A slot after an add holds the new record or what it held before,
      which then has another key. */
  lemma UniqueAddSlot(key: seq<string>, rows: seq<Row>, r: Row, p: nat)
    requires UniqueKeys(rows, key)
    requires p < |Add(Unique(key, rows), r).rows|
    ensures var out := Add(Unique(key, rows), r).rows;
      out[p] == r || (p < |rows| && out[p] == rows[p] && KeyOf(key, rows[p]) != KeyOf(key, r))
  {
  }

  /** The last row of its key among all but the last row stays the last one
      when the last row has another key. */
  lemma LastOfKeyExtend(rows: seq<Row>, key: seq<string>, i: nat)
    requires |rows| > 0 && LastOfKey(rows[..|rows| - 1], key, i)
    requires KeyOf(key, rows[|rows| - 1]) != KeyOf(key, rows[i])
    ensures LastOfKey(rows, key, i)
  {
    assert rows[..|rows| - 1][i] == rows[i];
    forall j | i < j < |rows| - 1
      ensures KeyOf(key, rows[j]) != KeyOf(key, rows[i])
    {
      assert rows[..|rows| - 1][j] == rows[j];
    }
  }

  /** Every record of a filled `UniqueRecordBuffer` is the most recently
      added record with its key tuple: `i` is where it was added. */
  lemma {:induction false} UniqueAddAllLatest(key: seq<string>, rows: seq<Row>, p: nat) returns (i: nat)
    requires p < |AddAll(Unique(key, []), rows).rows|
    ensures LastOfKey(rows, key, i) && rows[i] == AddAll(Unique(key, []), rows).rows[p]
    decreases |rows|
  {
    var init, r := rows[..|rows| - 1], rows[|rows| - 1];
    var prev := AddAll(Unique(key, []), init);
    AddAllLast(Unique(key, []), rows);
    UniqueAddAllKeys(key, init);
    UniqueAddSlot(key, prev.rows, r, p);
    if Add(prev, r).rows[p] == r {
      i := |rows| - 1;
    } else {
      i := UniqueAddAllLatest(key, init, p);
      LastOfKeyExtend(rows, key, i);
    }
  }

  /** A record that is the last with its key tuple is among the values of
      the filled `UniqueRecordBuffer`. */
  lemma LatestInValues(key: seq<string>, rows: seq<Row>, i: nat)
    requires LastOfKey(rows, key, i)
    ensures rows[i] in Values(AddAll(Unique(key, []), rows))
  {
    var b := AddAll(Unique(key, []), rows);
    UniqueAddAllKeys(key, rows);
    assert KeyOf(key, rows[i]) in KeySet(rows, key);
    var p :| 0 <= p < |b.rows| && KeyOf(key, b.rows[p]) == KeyOf(key, rows[i]);
    var i' := UniqueAddAllLatest(key, rows, p);
  }

  /** The size of a filled `UniqueRecordBuffer` is the number of distinct
      key tuples added, and every record that is the last with its key is
      among its values. */
  lemma UniqueAddAllValues(key: seq<string>, rows: seq<Row>)
    ensures var b := AddAll(Unique(key, []), rows);
      && Size(b) == |KeySet(rows, key)|
      && (forall i :: LastOfKey(rows, key, i) ==> rows[i] in Values(b))
  {
    var b := AddAll(Unique(key, []), rows);
    UniqueAddAllKeys(key, rows);
    UniqueCount(b.rows, key);
    forall i | LastOfKey(rows, key, i)
      ensures rows[i] in Values(b)
    {
      LatestInValues(key, rows, i);
    }
  }
}
