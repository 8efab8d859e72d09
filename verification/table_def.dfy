/** `sqlalchemy_column_type` and `generate_sqlalchemy_table`: from a SCHEMA
    message to the definition of the stream's table, and the SQLite type
    names a column definition maps to. */
module TableDefinition {
  import opened Json
  import opened Text
  import opened Inflection
  import opened SchemaFlattening

  /** The SQLAlchemy column types the target uses. */
  datatype ColumnType = BigInteger | Float | String | Boolean | Timestamp

  /** The name SQLAlchemy renders for a column type (`f"{column.type}"`). */
  function DdlName(t: ColumnType): string {
    match t
    case BigInteger => "BIGINT"
    case Float => "FLOAT"
    case String => "VARCHAR"
    case Boolean => "BOOLEAN"
    case Timestamp => "TIMESTAMP"
  }

  /** `MAP_SQLALCHEMY_TO_SQLITE_TYPE`. */
  const SqliteTypes: map<string, string> := map[
    "BIGINT" := "INTEGER",
    "FLOAT" := "REAL",
    "VARCHAR" := "TEXT",
    "BOOLEAN" := "INTEGER",
    "TIMESTAMP" := "TEXT"
  ]

  /** The SQLite storage type of each column type: the table above covers
      every type the target produces, so the lookup when a column is added
      never fails. */
  function SqliteType(t: ColumnType): (r: string)
    ensures DdlName(t) in SqliteTypes && r == SqliteTypes[DdlName(t)]
  {
    match t
    case BigInteger => "INTEGER"
    case Float => "REAL"
    case String => "TEXT"
    case Boolean => "INTEGER"
    case Timestamp => "TEXT"
  }

  // ---------------------------------------------------------------------
  // Column types

  /** The `type` keyword of a property definition, when it is there. */
  function TypeOf(def: Json): Option<Json> {
    if def.JObj? then Lookup(def.fields, "type") else None
  }

  /** A definition `sqlalchemy_column_type` accepts: an object whose `type`
      is a string, a list or an object. Any other definition makes the
      source raise (a missing key, or `in` on a value that is no container). */
  predicate HasTypeKeyword(def: Json) {
    TypeOf(def).Some? && IsContainer(TypeOf(def).value)
  }

  /** `format == "date-time"`. */
  predicate IsDateTime(def: Json) {
    def.JObj? && Lookup(def.fields, "format") == Some(JStr("date-time"))
  }

  /** `sqlalchemy_column_type`: a decision list over the type names the
      `type` keyword mentions. The audit-timestamp type is never chosen for a
      schema property. */
  function ColumnTypeOf(def: Json): (r: Result<ColumnType>)
    ensures r.Ok? <==> HasTypeKeyword(def)
    ensures r.Ok? ==> r.value != Timestamp
  {
    match TypeOf(def)
    case None => Err(MalformedSchema)
    case Some(t) =>
      if !IsContainer(t) then Err(MalformedSchema)
      else if Mentions(t, "object") then Ok(String)
      else if Mentions(t, "array") then Ok(String)
      else if IsDateTime(def) then Ok(String)
      else if Mentions(t, "number") then Ok(Float)
      else if Mentions(t, "integer") && Mentions(t, "string") then Ok(String)
      else if Mentions(t, "integer") then Ok(BigInteger)
      else if Mentions(t, "boolean") then Ok(Boolean)
      else Ok(String)
  }

  /** The priority of the decision list, stated per result: objects, arrays
      and date-times are text whatever else the type names; a number is a
      float unless one of those applies; an integer is a big integer unless
      it may also be a string or a number; a boolean only when nothing above
      applies. */
  lemma ColumnTypePriority(def: Json)
    requires HasTypeKeyword(def)
    ensures var t, r := TypeOf(def).value, ColumnTypeOf(def).value;
      var text := Mentions(t, "object") || Mentions(t, "array") || IsDateTime(def);
      && (text ==> r == String)
      && (r == Float <==> !text && Mentions(t, "number"))
      && (r == BigInteger <==> !text && !Mentions(t, "number") && Mentions(t, "integer") && !Mentions(t, "string"))
      && (r == Boolean <==> !text && !Mentions(t, "number") && !Mentions(t, "integer") && Mentions(t, "boolean"))
  {
  }

  /** `fields` with `key` rebound keeps every other lookup, and reads the new
      value under `key` when `key` was bound. */
  lemma SetFieldLookup(fields: seq<(string, Json)>, key: string, value: Json, other: string)
    ensures Lookup(SetField(fields, key, value), other)
      == if other == key && HasKey(fields, key) then Some(value) else Lookup(fields, other)
  {
    var g := SetField(fields, key, value);
    assert forall i :: 0 <= i < |fields| ==> g[i].0 == fields[i].0;
    assert HasKey(g, other) <==> HasKey(fields, other);
    var a, b := FindKey(fields, other), FindKey(g, other);
    assert a == b;
  }

  /** Adding `"null"` in front of a list of type names (making a property
      nullable) does not change its column type. */
  lemma NullableSameType(fields: seq<(string, Json)>, names: seq<Json>)
    requires Lookup(fields, "type") == Some(JArr(names))
    ensures ColumnTypeOf(JObj(SetField(fields, "type", JArr([JStr("null")] + names))))
      == ColumnTypeOf(JObj(fields))
  {
    var g := SetField(fields, "type", JArr([JStr("null")] + names));
    SetFieldLookup(fields, "type", JArr([JStr("null")] + names), "type");
    SetFieldLookup(fields, "type", JArr([JStr("null")] + names), "format");
    forall name | name != "null"
      ensures Mentions(JArr([JStr("null")] + names), name) == Mentions(JArr(names), name)
    {
      assert JStr(name) in [JStr("null")] + names <==> JStr(name) in names;
    }
  }

  /** The nullable leaf `flatten_schema` makes of an untyped string or array
      property is a text column. */
  lemma UntypedLeafIsText(key: string, v: seq<(string, Json)>)
    requires |v| > 0 && UntypedLeaf(key, v).Ok? && UntypedLeaf(key, v).value.Some?
    ensures ColumnTypeOf(UntypedLeaf(key, v).value.value.1) == Ok(String)
  {
    var property := Lookup(v, v[0].0).value.items[0].fields;
    var t := Lookup(property, "type").value;
    var alt := if t == JStr("string") then "string" else "array";
    var typed := JArr([JStr("null"), JStr(alt)]);
    SetFieldLookup(property, "type", typed, "type");
    assert !Mentions(typed, "object") && !Mentions(typed, "number") && !Mentions(typed, "integer");
  }

  /** Every column of a schema that flattens has a definition the column
      typing accepts, so typing the columns never fails after flattening. */
  lemma LeafHasTypeKeyword(d: Json, parent: seq<string>, e: Leaf)
    requires FlattenSchema(d, parent).Ok? && e in FlattenSchema(d, parent).value
    ensures HasTypeKeyword(e.1)
    decreases d
  {
    if !HasKey(d.fields, "properties") {
      NoPropertiesNoColumns(d, parent);
    } else {
      var props := PropertiesOf(d).value;
      assert props == d.fields[FindKey(d.fields, "properties")].1;
      var keys := PropertyKeys(props, parent);
      FlattenSchemaLeaves(d, parent);
      var j :| 0 <= j < |props.fields| && Contributes(props, keys, j, parent, e);
      var k, v := props.fields[j].0, props.fields[j].1;
      match Classify(keys[j], v)
      case Nested =>
        LeafHasTypeKeyword(v, parent + [k], e);
      case Single(leaf) =>
        if Lookup(v.fields, "type").None? {
          var property := Lookup(v.fields, v.fields[0].0).value.items[0].fields;
          var t := Lookup(property, "type").value;
          var alt := if t == JStr("string") then "string" else "array";
          SetFieldLookup(property, "type", JArr([JStr("null"), JStr(alt)]), "type");
        }
      case _ =>
    }
  }

  // ---------------------------------------------------------------------
  // Table definitions

  /** One `Column(name, type, primary_key=...)`. */
  datatype ColumnDef = ColumnDef(name: string, ctype: ColumnType, primaryKey: bool)

  /** An SQLAlchemy `Table`: a name and its columns in order. */
  datatype TableDef = TableDef(name: string, columns: seq<ColumnDef>)

  /** `table.primary_key`: the names of the key columns, in table order. */
  function PrimaryKey(cols: seq<ColumnDef>): (r: seq<string>)
    ensures forall c :: c in r <==> exists i :: 0 <= i < |cols| && cols[i].primaryKey && cols[i].name == c
  {
    if |cols| == 0 then []
    else (if cols[0].primaryKey then [cols[0].name] else []) + PrimaryKey(cols[1..])
  }

  /** The table name: every run of characters outside `[0-9a-zA-Z_]` becomes
      one underscore, then `inflection.underscore`. */
  function TableName(stream: string): string {
    Underscore(CollapseSpecials(stream))
  }

  /** A table name is made of `[0-9a-z_]` and keeps the stream name's letters
      and digits, lower-cased and in order. */
  lemma TableNameSpec(stream: string)
    ensures AllSnakeChars(TableName(stream))
    ensures Alnums(TableName(stream)) == Lower(Alnums(stream))
  {
    CollapseSpecialsKeepsAlnums(stream);
    UnderscoreSpec(CollapseSpecials(stream));
  }

  /** One column per flattened property, in the flat schema's order, keyed
      exactly when its name is one of the key properties. */
  function SchemaColumns(flat: seq<Leaf>, keys: seq<string>): (r: Result<seq<ColumnDef>>)
    ensures r.Ok? <==> forall i :: 0 <= i < |flat| ==> HasTypeKeyword(flat[i].1)
    ensures r.Ok? ==> |r.value| == |flat| && forall i :: 0 <= i < |flat| ==>
      r.value[i] == ColumnDef(flat[i].0, ColumnTypeOf(flat[i].1).value, flat[i].0 in keys)
  {
    if |flat| == 0 then Ok([])
    else
      var t :- ColumnTypeOf(flat[0].1);
      var rest :- SchemaColumns(flat[1..], keys);
      Ok([ColumnDef(flat[0].0, t, flat[0].0 in keys)] + rest)
  }

  /** `generate_sqlalchemy_table(stream, key_properties, schema, ts)`; an
      empty `ts` stands for a falsy timestamp column setting. */
  function GenerateTable(stream: string, keys: seq<string>, schema: Json, ts: string): (r: Result<TableDef>)
    ensures r.Ok? ==> r.value.name == TableName(stream)
  {
    var flat :- FlattenSchema(schema, []);
    var cols :- SchemaColumns(flat, keys);
    if |ts| > 0 && !HasName(flat, ts) then
      Ok(TableDef(TableName(stream), cols + [ColumnDef(ts, Timestamp, false)]))
    else
      Ok(TableDef(TableName(stream), cols))
  }

  /** Generating the table fails exactly when flattening the schema does. */
  lemma GenerateTableOk(stream: string, keys: seq<string>, schema: Json, ts: string)
    ensures GenerateTable(stream, keys, schema, ts).Ok? <==> FlattenSchema(schema, []).Ok?
  {
    if FlattenSchema(schema, []).Ok? {
      var flat := FlattenSchema(schema, []).value;
      forall i | 0 <= i < |flat|
        ensures HasTypeKeyword(flat[i].1)
      {
        LeafHasTypeKeyword(schema, [], flat[i]);
      }
    }
  }

  /** The generated columns: one per flattened property, in sorted name
      order, primary exactly when named in the key properties, then the
      audit-timestamp column exactly when the setting is non-empty and no
      property already has that name. */
  lemma GenerateTableSpec(stream: string, keys: seq<string>, schema: Json, ts: string)
    requires GenerateTable(stream, keys, schema, ts).Ok?
    ensures var flat, cols := FlattenSchema(schema, []).value, GenerateTable(stream, keys, schema, ts).value.columns;
      && StrictlySortedByName(flat)
      && (|cols| == |flat| + 1 <==> |ts| > 0 && !HasName(flat, ts))
      && (|cols| == |flat| || |cols| == |flat| + 1)
      && (forall i :: 0 <= i < |flat| ==>
            cols[i] == ColumnDef(flat[i].0, ColumnTypeOf(flat[i].1).value, flat[i].0 in keys))
      && (|cols| == |flat| + 1 ==> cols[|flat|] == ColumnDef(ts, Timestamp, false))
  {
  }

  /** No two generated columns share a name, and the timestamp type belongs
      to the audit column alone. */
  lemma GenerateTableDistinct(stream: string, keys: seq<string>, schema: Json, ts: string)
    requires GenerateTable(stream, keys, schema, ts).Ok?
    ensures var cols := GenerateTable(stream, keys, schema, ts).value.columns;
      && (forall i, j :: 0 <= i < j < |cols| ==> cols[i].name != cols[j].name)
      && (forall i :: 0 <= i < |cols| && cols[i].ctype == Timestamp ==> cols[i].name == ts && !cols[i].primaryKey)
  {
    var flat := FlattenSchema(schema, []).value;
    var cols := GenerateTable(stream, keys, schema, ts).value.columns;
    GenerateTableSpec(stream, keys, schema, ts);
    forall i, j | 0 <= i < j < |cols|
      ensures cols[i].name != cols[j].name
    {
      if j == |flat| {
        assert !HasName(flat, ts);
      }
    }
  }
}
