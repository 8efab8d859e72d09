/** `SQLiteLoader` over an abstract database: a table is its declared columns,
    its primary-key constraint (fixed when the table is created) and its rows.
    Inserting a row whose key is already stored is what SQLite reports as an
    IntegrityError. */
module Loader {
  import opened Json
  import opened Rows
  import opened TableDefinition

  /** A column as the database reports it: a name and a declared type. */
  datatype DbColumn = DbColumn(name: string, typeName: string)

  /** A stored table. `key` lists the primary-key columns; when it is empty the
      table has no uniqueness constraint. */
  datatype DbTable = DbTable(columns: seq<DbColumn>, key: seq<string>, rows: seq<Row>)

  /** The database: tables by name. */
  type Db = map<string, DbTable>

  function DbColumnNames(cols: seq<DbColumn>): (r: seq<string>)
    ensures |r| == |cols|
    ensures forall i :: 0 <= i < |cols| ==> r[i] == cols[i].name
  {
    seq(|cols|, i requires 0 <= i < |cols| => cols[i].name)
  }

  // ---------------------------------------------------------------------
  // The template row

  /** `attribute_names`: the definition's column names in table order. */
  function AttributeNames(def: TableDef): (r: seq<string>)
    ensures |r| == |def.columns|
    ensures forall i :: 0 <= i < |r| ==> r[i] == def.columns[i].name
  {
    seq(|def.columns|, i requires 0 <= i < |def.columns| => def.columns[i].name)
  }

  /** `empty_record`: every column of the definition bound to None. */
  function EmptyRecord(def: TableDef): (r: Row)
    ensures forall c :: c in r <==> c in AttributeNames(def)
    ensures forall c :: c in r ==> r[c] == Null
  {
    map c | c in AttributeNames(def) :: Null
  }

  // ---------------------------------------------------------------------
  // Schema changes

  /** `table.create()`: the definition's columns with the types SQLAlchemy
      declares, its primary key, and no rows. */
  function CreateTable(def: TableDef): (t: DbTable)
    ensures DbColumnNames(t.columns) == AttributeNames(def)
    ensures forall i :: 0 <= i < |t.columns| ==> t.columns[i].typeName == DdlName(def.columns[i].ctype)
    ensures t.key == PrimaryKey(def.columns) && t.rows == []
  {
    DbTable(seq(|def.columns|, i requires 0 <= i < |def.columns| =>
      DbColumn(def.columns[i].name, DdlName(def.columns[i].ctype))), PrimaryKey(def.columns), [])
  }

  /** The columns `schema_update` adds: those of `cols` whose names the
      existing table lacks, in definition order, typed through the SQLite
      type map. */
  function MissingColumns(existing: seq<DbColumn>, cols: seq<ColumnDef>): (r: seq<DbColumn>)
    ensures |r| <= |cols|
  {
    if |cols| == 0 then []
    else
      (if cols[0].name in DbColumnNames(existing) then []
       else [DbColumn(cols[0].name, SqliteType(cols[0].ctype))])
      + MissingColumns(existing, cols[1..])
  }

  /** `schema_update`: `ALTER TABLE ... ADD COLUMN` for each missing column.
      Existing columns, the key and the rows are kept. */
  function SchemaUpdate(t: DbTable, def: TableDef): DbTable {
    t.(columns := t.columns + MissingColumns(t.columns, def.columns))
  }

  /** `schema_apply`: create the table when its name is unknown, otherwise
      update it. */
  function SchemaApply(db: Db, def: TableDef): (r: Db)
    ensures r.Keys == db.Keys + {def.name}
    ensures forall n :: n in db && n != def.name ==> r[n] == db[n]
  {
    if def.name !in db then db[def.name := CreateTable(def)]
    else db[def.name := SchemaUpdate(db[def.name], def)]
  }

  /** Every column of a definition with its SQLite type, in order. */
  function Typed(cols: seq<ColumnDef>): (r: seq<DbColumn>)
    ensures |r| == |cols|
    ensures forall i :: 0 <= i < |cols| ==> r[i] == DbColumn(cols[i].name, SqliteType(cols[i].ctype))
  {
    seq(|cols|, i requires 0 <= i < |cols| => DbColumn(cols[i].name, SqliteType(cols[i].ctype)))
  }

  /** A column is added exactly when the definition has it and the existing
      table does not, and it gets the mapped SQLite type. */
  lemma {:induction false} MissingColumnsSpec(existing: seq<DbColumn>, cols: seq<ColumnDef>)
    ensures forall a :: (a in MissingColumns(existing, cols)
      <==> a in Typed(cols) && a.name !in DbColumnNames(existing))
  {
    if |cols| > 0 {
      MissingColumnsSpec(existing, cols[1..]);
      assert Typed(cols) == [Typed(cols)[0]] + Typed(cols[1..]);
    }
  }

  /** When every column of the definition already exists, nothing is added. */
  lemma {:induction false} NothingMissing(existing: seq<DbColumn>, cols: seq<ColumnDef>)
    requires forall i :: 0 <= i < |cols| ==> cols[i].name in DbColumnNames(existing)
    ensures MissingColumns(existing, cols) == []
  {
    if |cols| > 0 {
      NothingMissing(existing, cols[1..]);
    }
  }

  /** After `schema_apply` every column of the definition exists, the prior
      columns are kept as a prefix with their types, and neither the key
      nor the rows change. */
  lemma SchemaApplySpec(db: Db, def: TableDef)
    ensures var t := SchemaApply(db, def)[def.name];
      && (forall c :: c in AttributeNames(def) ==> c in DbColumnNames(t.columns))
      && (def.name in db ==>
            && db[def.name].columns <= t.columns
            && t.key == db[def.name].key && t.rows == db[def.name].rows)
  {
    var t := SchemaApply(db, def)[def.name];
    if def.name in db {
      var prior := db[def.name];
      var added := MissingColumns(prior.columns, def.columns);
      MissingColumnsSpec(prior.columns, def.columns);
      forall c | c in AttributeNames(def)
        ensures c in DbColumnNames(t.columns)
      {
        var i :| 0 <= i < |def.columns| && def.columns[i].name == c;
        if c !in DbColumnNames(prior.columns) {
          var a := Typed(def.columns)[i];
          assert a in added;
          var k :| 0 <= k < |added| && added[k] == a;
          assert t.columns[|prior.columns| + k] == a;
        } else {
          var k :| 0 <= k < |prior.columns| && prior.columns[k].name == c;
          assert t.columns[k] == prior.columns[k];
        }
      }
    }
  }

  /** Applying the same definition twice adds nothing the second time. */
  lemma SchemaApplyIdempotent(db: Db, def: TableDef)
    ensures SchemaApply(SchemaApply(db, def), def) == SchemaApply(db, def)
  {
    var once := SchemaApply(db, def);
    var t := once[def.name];
    SchemaApplySpec(db, def);
    forall i | 0 <= i < |def.columns|
      ensures def.columns[i].name in DbColumnNames(t.columns)
    {
      assert def.columns[i].name in AttributeNames(def);
    }
    NothingMissing(t.columns, def.columns);
    assert t.columns + [] == t.columns;
  }

  // ---------------------------------------------------------------------
  // Loading rows

  /** The row the table stores for `r`: its values for the definition's
      columns. */
  function Restrict(r: Row, names: seq<string>): Row {
    map c | c in r && c in names :: r[c]
  }

  /** Inserting `ins` violates the key constraint of a table holding `rows`:
      key columns are created NOT NULL, so a NULL in the key fails as a
      repeated key does. */
  predicate Clash(rows: seq<Row>, key: seq<string>, ins: Row) {
    |key| > 0 && (Null in KeyOf(key, ins) || exists i :: 0 <= i < |rows| && KeyOf(key, rows[i]) == KeyOf(key, ins))
  }

  /** One turn of the upsert loop: insert the row, or, when the key constraint
      rejects it, update every stored row whose primary-key columns (`pk`, as
      the definition declares them) equal the row's. */
  function UpsertRow(rows: seq<Row>, key: seq<string>, pk: seq<string>, names: seq<string>, r: Row): seq<Row> {
    var ins := Restrict(r, names);
    if Clash(rows, key, ins) then
      seq(|rows|, i requires 0 <= i < |rows| =>
        if KeyOf(pk, rows[i]) == KeyOf(pk, r) then rows[i] + ins else rows[i])
    else rows + [ins]
  }

  /** The upsert loop over `data`, in order. */
  function UpsertAll(rows: seq<Row>, key: seq<string>, pk: seq<string>, names: seq<string>, data: seq<Row>): seq<Row>
    decreases |data|
  {
    if |data| == 0 then rows
    else UpsertRow(UpsertAll(rows, key, pk, names, data[..|data| - 1]), key, pk, names, data[|data| - 1])
  }

  /** One multi-row insert: a row that violates the key constraint aborts the
      whole statement. */
  function InsertAll(rows: seq<Row>, key: seq<string>, names: seq<string>, data: seq<Row>): Result<seq<Row>>
    decreases |data|
  {
    if |data| == 0 then Ok(rows)
    else
      var prev :- InsertAll(rows, key, names, data[..|data| - 1]);
      var ins := Restrict(data[|data| - 1], names);
      if Clash(prev, key, ins) then Err(IntegrityViolation) else Ok(prev + [ins])
  }

  /** `load(data)` for the table `def` describes. */
  function Load(db: Db, def: TableDef, data: seq<Row>): (r: Result<Db>)
    ensures r.Ok? ==> r.value.Keys == db.Keys
    ensures r.Ok? ==> forall n :: n in db && n != def.name ==> r.value[n] == db[n]
  {
    if |data| == 0 then Ok(db)
    else if def.name !in db then Err(NoSuchTable(def.name))
    else
      var t := db[def.name];
      var names := AttributeNames(def);
      var pk := PrimaryKey(def.columns);
      if |pk| > 0 then
        Ok(db[def.name := t.(rows := UpsertAll(t.rows, t.key, pk, names, data))])
      else
        var rows :- InsertAll(t.rows, t.key, names, data);
        Ok(db[def.name := t.(rows := rows)])
  }

  /** Loading nothing changes nothing. */
  lemma LoadEmpty(db: Db, def: TableDef)
    ensures Load(db, def, []) == Ok(db)
  {
  }

  // ---------------------------------------------------------------------
  // Append

  /** The rows an insert of `data` stores, in order. */
  function Inserted(data: seq<Row>, names: seq<string>): (r: seq<Row>)
    ensures |r| == |data|
    ensures forall i :: 0 <= i < |data| ==> r[i] == Restrict(data[i], names)
  {
    seq(|data|, i requires 0 <= i < |data| => Restrict(data[i], names))
  }

  /** A multi-row insert that succeeds appends every row in order; without a
      key constraint it always succeeds. */
  lemma {:induction false} InsertAllAppends(rows: seq<Row>, key: seq<string>, names: seq<string>, data: seq<Row>)
    ensures InsertAll(rows, key, names, data).Ok? ==> InsertAll(rows, key, names, data).value == rows + Inserted(data, names)
    ensures |key| == 0 ==> InsertAll(rows, key, names, data).Ok?
    decreases |data|
  {
    if |data| > 0 {
      var init := data[..|data| - 1];
      InsertAllAppends(rows, key, names, init);
      assert Inserted(data, names) == Inserted(init, names) + [Restrict(data[|data| - 1], names)];
    }
  }

  /** Without a primary key on either side, `load` appends every row: the
      table grows by `len(data)`. */
  lemma LoadAppends(db: Db, def: TableDef, data: seq<Row>)
    requires def.name in db && |PrimaryKey(def.columns)| == 0 && |db[def.name].key| == 0
    ensures Load(db, def, data).Ok?
    ensures var t := Load(db, def, data).value[def.name];
      && t.rows == db[def.name].rows + Inserted(data, AttributeNames(def))
      && |t.rows| == |db[def.name].rows| + |data|
  {
    InsertAllAppends(db[def.name].rows, db[def.name].key, AttributeNames(def), data);
  }

  // ---------------------------------------------------------------------
  // Upsert

  /** Every key column is one of `names`. */
  predicate KeysIn(key: seq<string>, names: seq<string>) {
    forall i :: 0 <= i < |key| ==> key[i] in names
  }

  /** The primary key of a definition names some of its columns. */
  lemma PrimaryKeyIsColumns(def: TableDef)
    ensures KeysIn(PrimaryKey(def.columns), AttributeNames(def))
  {
    forall i | 0 <= i < |PrimaryKey(def.columns)|
      ensures PrimaryKey(def.columns)[i] in AttributeNames(def)
    {
      var c := PrimaryKey(def.columns)[i];
      assert c in PrimaryKey(def.columns);
      var k :| 0 <= k < |def.columns| && def.columns[k].primaryKey && def.columns[k].name == c;
      assert AttributeNames(def)[k] == c;
    }
  }

  /** The stored form of a row keeps its key. */
  lemma KeyOfRestrict(key: seq<string>, names: seq<string>, r: Row)
    requires KeysIn(key, names)
    ensures KeyOf(key, Restrict(r, names)) == KeyOf(key, r)
  {
  }

  /** Updating a row with the stored form of a row of the same key keeps the
      key. */
  lemma KeyOfUpdate(key: seq<string>, names: seq<string>, prior: Row, r: Row)
    requires KeysIn(key, names) && KeyOf(key, prior) == KeyOf(key, r)
    ensures KeyOf(key, prior + Restrict(r, names)) == KeyOf(key, r)
  {
    forall i | 0 <= i < |key|
      ensures Get(prior + Restrict(r, names), key[i]) == Get(r, key[i])
    {
      assert Get(prior, key[i]) == KeyOf(key, prior)[i];
    }
  }

  /** One upsert on a table whose stored key is the definition's primary
      key: a row whose key holds no NULL has it stored afterwards in exactly
      one row; a stored row with that key is updated in place, otherwise the
      row is appended; a row whose key holds a NULL is never appended; every
      other row is left as it was. */
  lemma UpsertRowSpec(rows: seq<Row>, key: seq<string>, names: seq<string>, r: Row)
    requires |key| > 0 && KeysIn(key, names) && UniqueKeys(rows, key)
    ensures var out, k := UpsertRow(rows, key, key, names, r), KeyOf(key, r);
      && UniqueKeys(out, key)
      && KeySet(out, key) == KeySet(rows, key) + (if Null in k then {} else {k})
      && |out| == (if k in KeySet(rows, key) || Null in k then |rows| else |rows| + 1)
      && (forall i :: 0 <= i < |rows| ==> KeyOf(key, out[i]) == KeyOf(key, rows[i]))
      && (forall i :: 0 <= i < |rows| ==>
            out[i] == if KeyOf(key, rows[i]) == k then rows[i] + Restrict(r, names) else rows[i])
      && (|out| > |rows| ==> out[|rows|] == Restrict(r, names))
  {
    var out, k := UpsertRow(rows, key, key, names, r), KeyOf(key, r);
    var ins := Restrict(r, names);
    KeyOfRestrict(key, names, r);
    if k in KeySet(rows, key) || Null in k {
      assert Clash(rows, key, ins);
      forall i | 0 <= i < |rows|
        ensures KeyOf(key, out[i]) == KeyOf(key, rows[i])
      {
        if KeyOf(key, rows[i]) == k {
          KeyOfUpdate(key, names, rows[i], r);
        }
      }
      KeySetSameKeys(out, rows, key);
    } else {
      assert !Clash(rows, key, ins);
      KeySetSnoc(rows, key, ins);
    }
  }

  /** Upserting a non-empty batch upserts all but its last row, then the
      last one. */
  lemma UpsertAllLast(rows: seq<Row>, key: seq<string>, names: seq<string>, data: seq<Row>)
    requires |data| > 0
    ensures UpsertAll(rows, key, key, names, data)
      == UpsertRow(UpsertAll(rows, key, key, names, data[..|data| - 1]), key, key, names, data[|data| - 1])
  {
  }

  /** The upsert loop on a table whose stored key is the definition's
      primary key keeps the keys unique, stores the union of the old keys and
      the data's keys that hold no NULL, and keeps every old row in place
      with its key. */
  lemma {:induction false} UpsertAllKeys(rows: seq<Row>, key: seq<string>, names: seq<string>, data: seq<Row>)
    requires |key| > 0 && KeysIn(key, names) && UniqueKeys(rows, key)
    ensures var out := UpsertAll(rows, key, key, names, data);
      && UniqueKeys(out, key)
      && KeySet(out, key) == KeySet(rows, key) + StorableKeys(data, key)
      && |out| >= |rows|
      && (forall i :: 0 <= i < |rows| ==> KeyOf(key, out[i]) == KeyOf(key, rows[i]))
    decreases |data|
  {
    if |data| > 0 {
      var init, r := data[..|data| - 1], data[|data| - 1];
      UpsertAllLast(rows, key, names, data);
      UpsertAllKeys(rows, key, names, init);
      UpsertRowSpec(UpsertAll(rows, key, key, names, init), key, names, r);
      StorableKeysLast(data, key);
    }
  }

  /** The upsert loop leaves untouched every old row whose key the data does
      not mention. */
  lemma {:induction false} UpsertAllUntouched(rows: seq<Row>, key: seq<string>, names: seq<string>, data: seq<Row>, i: nat)
    requires |key| > 0 && KeysIn(key, names) && UniqueKeys(rows, key)
    requires i < |rows| && KeyOf(key, rows[i]) !in KeySet(data, key)
    ensures i < |UpsertAll(rows, key, key, names, data)|
    ensures UpsertAll(rows, key, key, names, data)[i] == rows[i]
    decreases |data|
  {
    if |data| > 0 {
      var init, r := data[..|data| - 1], data[|data| - 1];
      UpsertAllLast(rows, key, names, data);
      KeySetLast(data, key);
      UpsertAllUntouched(rows, key, names, init, i);
      UpsertAllKeys(rows, key, names, init);
      UpsertRowSpec(UpsertAll(rows, key, key, names, init), key, names, r);
    }
  }

  /** The last row the data holds for a key wins: afterwards the stored row
      with that key has that data row's value in each of the table's columns
      the data row sets. */
  lemma {:induction false} UpsertLastWins(rows: seq<Row>, key: seq<string>, names: seq<string>, data: seq<Row>, i: nat, p: nat, c: string)
    requires |key| > 0 && KeysIn(key, names) && UniqueKeys(rows, key)
    requires i < |data| && forall j :: i < j < |data| ==> KeyOf(key, data[j]) != KeyOf(key, data[i])
    requires p < |UpsertAll(rows, key, key, names, data)|
    requires KeyOf(key, UpsertAll(rows, key, key, names, data)[p]) == KeyOf(key, data[i])
    requires c in names && c in data[i]
    ensures c in UpsertAll(rows, key, key, names, data)[p]
    ensures UpsertAll(rows, key, key, names, data)[p][c] == data[i][c]
    decreases |data|
  {
    var init, r := data[..|data| - 1], data[|data| - 1];
    var prev := UpsertAll(rows, key, key, names, init);
    UpsertAllKeys(rows, key, names, init);
    UpsertRowSpec(prev, key, names, r);
    if i < |data| - 1 {
      KeyOfRestrict(key, names, r);
      UpsertLastWins(rows, key, names, init, i, p, c);
    }
  }

  /** With a primary key, `load` never raises and keeps the table's
      columns and key. The upsert loop never removes a row and adds at most
      one per data row. A table stored without a key constraint gets every
      row appended. One whose stored key is the definition's primary key
      ends with one row per key in the union of the old keys and the data's
      keys that hold no NULL. */
  lemma LoadUpserts(db: Db, def: TableDef, data: seq<Row>)
    requires |data| > 0 && def.name in db && |PrimaryKey(def.columns)| > 0
    ensures Load(db, def, data).Ok?
    ensures var prior, t := db[def.name], Load(db, def, data).value[def.name];
      && t.key == prior.key && t.columns == prior.columns
      && |prior.rows| <= |t.rows| <= |prior.rows| + |data|
      && (|prior.key| == 0 ==> t.rows == prior.rows + Inserted(data, AttributeNames(def)))
      && (prior.key == PrimaryKey(def.columns) && UniqueKeys(prior.rows, prior.key) ==>
            && UniqueKeys(t.rows, t.key)
            && |t.rows| == |KeySet(prior.rows, prior.key) + StorableKeys(data, prior.key)|)
  {
    var prior, pk, names := db[def.name], PrimaryKey(def.columns), AttributeNames(def);
    UpsertAllBounds(prior.rows, prior.key, pk, names, data);
    if prior.key == pk && UniqueKeys(prior.rows, prior.key) {
      PrimaryKeyIsColumns(def);
      UpsertAllKeys(prior.rows, prior.key, names, data);
      UniqueCount(UpsertAll(prior.rows, prior.key, prior.key, names, data), prior.key);
    }
  }

  /** Whatever the stored key, the upsert loop never removes a row and adds
      at most one per data row; without a key constraint it appends every
      row. */
  lemma {:induction false} UpsertAllBounds(rows: seq<Row>, key: seq<string>, pk: seq<string>, names: seq<string>, data: seq<Row>)
    ensures var out := UpsertAll(rows, key, pk, names, data);
      && |rows| <= |out| <= |rows| + |data|
      && (|key| == 0 ==> out == rows + Inserted(data, names))
    decreases |data|
  {
    if |data| > 0 {
      var init := data[..|data| - 1];
      UpsertAllBounds(rows, key, pk, names, init);
      assert Inserted(data, names) == Inserted(init, names) + [Restrict(data[|data| - 1], names)];
    }
  }

  // ---------------------------------------------------------------------
  // A stored key that is not the definition's primary key

  /** The insert fails on the stored key, but the update that follows
      matches rows on the definition's primary key: when no stored row
      agrees with the data row on those columns, nothing is updated and the
      row is dropped without an error. */
  lemma UpsertRowLost(rows: seq<Row>, key: seq<string>, pk: seq<string>, names: seq<string>, r: Row)
    requires Clash(rows, key, Restrict(r, names))
    requires forall i :: 0 <= i < |rows| ==> KeyOf(pk, rows[i]) != KeyOf(pk, r)
    ensures UpsertRow(rows, key, pk, names, r) == rows
  {
  }

  /** A table created when only `id` was the primary key, then loaded with
      a definition whose primary key is `id, region`: the row with the same
      `id` and a new `region` leaves the table as it was, and `load`
      succeeds. */
  lemma KeyChangeLosesRow()
    ensures var def := TableDef("t", [ColumnDef("id", BigInteger, true), ColumnDef("region", String, true)]);
      var stored := map["id" := Val(JInt(1)), "region" := Val(JStr("a"))];
      var row := map["id" := Val(JInt(1)), "region" := Val(JStr("b"))];
      var db := map["t" := DbTable([], ["id"], [stored])];
      Load(db, def, [row]) == Ok(db)
  {
    var def := TableDef("t", [ColumnDef("id", BigInteger, true), ColumnDef("region", String, true)]);
    var stored := map["id" := Val(JInt(1)), "region" := Val(JStr("a"))];
    var row := map["id" := Val(JInt(1)), "region" := Val(JStr("b"))];
    var names := AttributeNames(def);
    assert names == ["id", "region"];
    assert PrimaryKey(def.columns) == ["id", "region"];
    var ins := Restrict(row, names);
    assert "id" in ins && ins["id"] == Val(JInt(1));
    assert KeyOf(["id"], [stored][0]) == KeyOf(["id"], ins);
    assert KeyOf(["id", "region"], stored)[1] != KeyOf(["id", "region"], row)[1];
    UpsertRowLost([stored], ["id"], ["id", "region"], names, row);
    assert [row][..0] == [];
    assert UpsertAll([stored], ["id"], ["id", "region"], names, [row]) == [stored];
    var db := map["t" := DbTable([], ["id"], [stored])];
    assert db["t"].(rows := [stored]) == db["t"];
    assert db["t" := db["t"]] == db;
  }

  /** A record whose primary key is null: the insert fails on the NOT NULL
      key column, the update that follows matches no stored row, and `load`
      succeeds with the table as it was. */
  lemma NullKeyLosesRow()
    ensures var def := TableDef("t", [ColumnDef("id", BigInteger, true)]);
      var db := map["t" := CreateTable(def)];
      Load(db, def, [map["id" := Null]]) == Ok(db)
  {
    var def := TableDef("t", [ColumnDef("id", BigInteger, true)]);
    var row: Row := map["id" := Null];
    var names := AttributeNames(def);
    assert names == ["id"];
    assert PrimaryKey(def.columns) == ["id"];
    var t := CreateTable(def);
    assert t.rows == [] && t.key == ["id"];
    assert Null in KeyOf(["id"], Restrict(row, names));
    assert [row][..0] == [];
    assert UpsertAll([], ["id"], ["id"], names, [row]) == [];
    var db := map["t" := t];
    assert db["t"].(rows := []) == db["t"];
    assert db["t" := db["t"]] == db;
  }

  /** A table created while `id` was the primary key, loaded under a
      definition without one: a row whose key is null fails the NOT NULL
      key column, and the whole multi-row insert fails. */
  lemma NullKeyAbortsInsert()
    ensures var def := TableDef("t", [ColumnDef("id", BigInteger, false)]);
      var db := map["t" := CreateTable(TableDef("t", [ColumnDef("id", BigInteger, true)]))];
      Load(db, def, [map["id" := Null]]) == Err(IntegrityViolation)
  {
    var def := TableDef("t", [ColumnDef("id", BigInteger, false)]);
    var created := CreateTable(TableDef("t", [ColumnDef("id", BigInteger, true)]));
    assert PrimaryKey([ColumnDef("id", BigInteger, true)]) == ["id"];
    assert created.key == ["id"] && created.rows == [];
    var row: Row := map["id" := Null];
    var names := AttributeNames(def);
    assert names == ["id"];
    assert PrimaryKey(def.columns) == [];
    assert Null in KeyOf(["id"], Restrict(row, names));
    assert [row][..0] == [];
    assert InsertAll([], ["id"], names, [row]) == Err(IntegrityViolation);
  }
}
