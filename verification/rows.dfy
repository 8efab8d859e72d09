/** Flat rows: what a record becomes after flattening, what the buffers hold
    and what a table stores. */
module Rows {
  import opened Json

  /** One value of a flat row: a JSON value stored as it is, the text
      Python's `str()` gives for a nested object or array (identified here by
      the value it renders), or the load timestamp taken from the clock. */
  datatype Cell = Val(j: Json) | Repr(of: Json) | Stamp(t: int)

  /** Python's `None`. */
  const Null: Cell := Val(JNull)

  type Row = map<string, Cell>

  /** `row[col]`, with an absent column read as NULL, as a table does. */
  function Get(row: Row, col: string): (c: Cell)
    ensures col in row ==> c == row[col]
    ensures col !in row ==> c == Null
  {
    if col in row then row[col] else Null
  }

  /** The tuple of a row's values for the given columns, in the given order. */
  function KeyOf(cols: seq<string>, row: Row): (k: seq<Cell>)
    ensures |k| == |cols|
    ensures forall i :: 0 <= i < |cols| ==> k[i] == Get(row, cols[i])
  {
    seq(|cols|, i requires 0 <= i < |cols| => Get(row, cols[i]))
  }

  /** Two rows agree on the given columns exactly when their keys are equal. */
  lemma KeyOfAgrees(cols: seq<string>, a: Row, b: Row)
    ensures KeyOf(cols, a) == KeyOf(cols, b) <==> forall i :: 0 <= i < |cols| ==> Get(a, cols[i]) == Get(b, cols[i])
  {
    if forall i :: 0 <= i < |cols| ==> Get(a, cols[i]) == Get(b, cols[i]) {
      assert KeyOf(cols, a) == KeyOf(cols, b);
    }
  }

  /** No two rows share a key. */
  predicate UniqueKeys(rows: seq<Row>, key: seq<string>) {
    forall i, j :: 0 <= i < j < |rows| ==> KeyOf(key, rows[i]) != KeyOf(key, rows[j])
  }

  /** The keys held by `rows`. */
  function KeySet(rows: seq<Row>, key: seq<string>): set<seq<Cell>> {
    set i | 0 <= i < |rows| :: KeyOf(key, rows[i])
  }

  /** The keys of `rows` that hold no NULL: the ones NOT NULL key columns
      accept. */
  function StorableKeys(rows: seq<Row>, key: seq<string>): set<seq<Cell>> {
    set k | k in KeySet(rows, key) && Null !in k
  }

  /** The storable keys of a non-empty sequence: those of all but its last
      row, and the last row's unless it holds a NULL. */
  lemma StorableKeysLast(rows: seq<Row>, key: seq<string>)
    requires |rows| > 0
    ensures var k := KeyOf(key, rows[|rows| - 1]);
      StorableKeys(rows, key) == StorableKeys(rows[..|rows| - 1], key) + (if Null in k then {} else {k})
  {
    KeySetLast(rows, key);
  }

  lemma KeySetSnoc(rows: seq<Row>, key: seq<string>, x: Row)
    ensures KeySet(rows + [x], key) == KeySet(rows, key) + {KeyOf(key, x)}
  {
    var s := rows + [x];
    forall y | y in KeySet(s, key)
      ensures y in KeySet(rows, key) + {KeyOf(key, x)}
    {
      var i :| 0 <= i < |s| && KeyOf(key, s[i]) == y;
      if i < |rows| {
        assert s[i] == rows[i];
      }
    }
    forall y | y in KeySet(rows, key)
      ensures y in KeySet(s, key)
    {
      var i :| 0 <= i < |rows| && KeyOf(key, rows[i]) == y;
      assert s[i] == rows[i];
    }
    assert KeyOf(key, s[|rows|]) == KeyOf(key, x);
  }

  /** The keys of a non-empty sequence: those of all but its last row, and
      the last row's. */
  lemma KeySetLast(rows: seq<Row>, key: seq<string>)
    requires |rows| > 0
    ensures KeySet(rows, key) == KeySet(rows[..|rows| - 1], key) + {KeyOf(key, rows[|rows| - 1])}
  {
    assert rows == rows[..|rows| - 1] + [rows[|rows| - 1]];
    KeySetSnoc(rows[..|rows| - 1], key, rows[|rows| - 1]);
  }

  /** Rows with the same keys position by position hold the same keys. */
  lemma KeySetSameKeys(a: seq<Row>, b: seq<Row>, key: seq<string>)
    requires |a| == |b| && forall i :: 0 <= i < |a| ==> KeyOf(key, a[i]) == KeyOf(key, b[i])
    ensures KeySet(a, key) == KeySet(b, key)
    ensures UniqueKeys(a, key) <==> UniqueKeys(b, key)
  {
    forall y | y in KeySet(a, key)
      ensures y in KeySet(b, key)
    {
      var i :| 0 <= i < |a| && KeyOf(key, a[i]) == y;
      assert KeyOf(key, b[i]) == y;
    }
    forall y | y in KeySet(b, key)
      ensures y in KeySet(a, key)
    {
      var i :| 0 <= i < |b| && KeyOf(key, b[i]) == y;
      assert KeyOf(key, a[i]) == y;
    }
  }

  /** Rows with pairwise distinct keys are as many as their keys. */
  lemma {:induction false} UniqueCount(rows: seq<Row>, key: seq<string>)
    requires UniqueKeys(rows, key)
    ensures |KeySet(rows, key)| == |rows|
    decreases |rows|
  {
    if |rows| > 0 {
      var init, x := rows[..|rows| - 1], rows[|rows| - 1];
      assert rows == init + [x];
      UniqueCount(init, key);
      KeySetSnoc(init, key, x);
    }
  }
}
