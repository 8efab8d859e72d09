# target-sqlite in Dafny

A model of the core of `target-sqlite`. It is a Singer target that reads
SCHEMA, RECORD and STATE messages, flattens nested records into rows, caches
them per stream, and loads them into SQLite in batches. It writes a STATE
payload to standard output only once every record that arrived before it has
been loaded.

The model has three parts, matching the program's three files.

- **Column names and flattening** (`target_sqlite/utils/singer_target_utils.py`).
  - Modules `Text`, `Inflection`, `Naming`, `RecordFlattening`, `SchemaFlattening` and `TableDefinition`.
  - `inflect_column_name` and the regex passes of `inflection.underscore` and `camelize` that it relies on.
  - `flatten_key` with its 63-character abbreviation loop.
  - `flatten_record`, `flatten_schema` with its sort and duplicate check, `sqlalchemy_column_type` and `generate_sqlalchemy_table`.
- **The loader over an abstract database** (`target_sqlite/sqlite_loader.py`, module `Loader`).
  - A database is a map from table names to tables.
  - A table is its columns, its primary key and its rows.
  - Modelled: `attribute_names`, `empty_record`, `schema_apply`/`schema_update` with the SQLite type map, and `load`.
  - `load` inserts row by row and updates the stored row on a key clash when the table has a primary key, and does one multi-row insert otherwise.
- **The target's state machine** (`target_sqlite/target_sqlite.py`, modules `Rows`, `Buffers`, `Ledger` and `TargetSqlite`).
  - The two record caches (`RecordBuffer`, `UniqueRecordBuffer`) and the STATE ledger (`StateBuffer`).
  - `process_line` as a pure `Step` over already-parsed messages, a `Run` over a sequence of them, and `flush_all_cached_records` at the end of the input.
  - A raised exception is an `Abort` outcome carrying the state reached so far.

`target_sqlite/bak/target_sqlite.py` is line for line the same as the live
target. `target_sqlite/bak/sqlite_loader.py` is the live loader shifted by
five lines; it uses `connect()` where the live one uses `begin()`. One model
covers both copies.

The main results:

- Every cache stays below `max(batch_size, 1)` records after each message (`TargetSqlite.Inv`, kept by `TargetSqlite.RunInv`); a `batch_size` of zero or less flushes every record at once.
- Every stored STATE waits only for streams whose caches are non-empty.
- A flush writes only the newest STATE that became ready.
- A STATE payload is written only once every record that arrived before it has been loaded, and payloads are written in the order their STATE messages arrived (`TargetSqlite.RunToEndAcked`). The entries that wait for nothing always form a prefix of the ledger (`Ledger.ReadyPrefix`).
- At the end of the input every cache is empty and the ledger is empty (`TargetSqlite.RunToEndSettles`).
- A `UniqueRecordBuffer` holds exactly the latest record per key tuple.
- `load` upserts with the last row per key winning, or appends. When a table's stored key differs from the current definition's primary key, a clashing row can be dropped without an error (`Loader.KeyChangeLosesRow`). A row whose primary key is null is dropped the same way: the key columns are created NOT NULL, and the update that follows matches nothing (`Loader.NullKeyLosesRow`).
- `schema_update` only adds missing columns, and applying the same definition twice changes nothing.
- Column names are made of `[0-9a-z_]` and keep the raw name's letters and digits in order, unless `flatten_key` abbreviates them (a joined key of 63 characters or more), which drops letters.
- Record flattening stores each field the way its four cases say.
- `flatten_schema` fails exactly when a property definition is malformed or two leaves share a name, and otherwise returns the leaves strictly sorted by name.

`flatten_key`'s loop aims for names under 63 characters
(`target_sqlite/utils/singer_target_utils.py:60`), but it stops once every
segment has been abbreviated, whatever the length. The model follows the code.
`Naming.FlattenKeySpec` states what the loop really ensures.
`Naming.LongDigitKeyKeepsLength` shows a name of 63 or more digits that comes
out unshortened.

To state when a STATE may be written, the target carries bookkeeping that the
program does not keep. It has no effect on what the target does.

- `arrived` counts, per stream, the records cached so far.
- `loaded` holds that count as of the stream's last load.
- `received` counts the STATE messages.
- Each ledger entry (`Pending`) records the `arrived` counts and the STATE's arrival number (`seen`, `order`) as of its arrival.
- `acks` pairs every payload written with the `loaded` counts at the moment it was written.

## Model

| member | source | states |
|---|---|---|
| `Json.Lookup` | target_sqlite/target_sqlite.py:151-153 | reading a key of a parsed message yields a value exactly when the message has that key; a missing key is the `KeyError` branch |
| `Json.FindKey` | target_sqlite/target_sqlite.py:151-153 | when a JSON object repeats a key, the binding read is the last one with that key, as `json.loads` keeps it |
| `Inflection.CollapseSpecials` | target_sqlite/utils/singer_target_utils.py:52 | after replacing runs of characters outside `[0-9a-zA-Z_]` with `_`, only characters of that class remain, and the name is no longer |
| `Inflection.CollapseSpecialsKeepsAlnums` | target_sqlite/utils/singer_target_utils.py:52 | the collapse keeps every letter and digit of the name, in order |
| `Inflection.CollapseSpecialsIdentity` | target_sqlite/utils/singer_target_utils.py:52 | a name already made of `[0-9a-zA-Z_]` is left unchanged |
| `Inflection.DoubleAfterAcronymInsertsOnlyUnderscores` | target_sqlite/utils/singer_target_utils.py:49 | the `ABC_Def` → `ABC__Def` pass only inserts underscores: removing all underscores gives the same text before and after |
| `Inflection.DoubleBeforeCapitalInsertsOnlyUnderscores` | target_sqlite/utils/singer_target_utils.py:50 | the `a_B` → `a__B` pass only inserts underscores |
| `Inflection.SplitAcronymInsertsOnlyUnderscores` | target_sqlite/utils/singer_target_utils.py:53 | the acronym-splitting pass of `inflection.underscore` only inserts underscores |
| `Inflection.SplitCamelInsertsOnlyUnderscores` | target_sqlite/utils/singer_target_utils.py:53 | the camel-case-splitting pass of `inflection.underscore` only inserts underscores |
| `Inflection.UnderscoreSpec` | target_sqlite/utils/singer_target_utils.py:53 | `inflection.underscore` keeps the letters and digits lower-cased and in order, and turns a `[0-9a-zA-Z_]` word into a `[0-9a-z_]` word |
| `Inflection.CamelizeWordChars` | target_sqlite/utils/singer_target_utils.py:62 | `camelize` turns a `[0-9a-zA-Z_]` word into another such word |
| `Inflection.DigitsFixedByPasses` | target_sqlite/utils/singer_target_utils.py:49-53 | a run of digits is left alone by every regex pass of the column-name normalisation |
| `Naming.InflectColumnNameSpec` | target_sqlite/utils/singer_target_utils.py:48-53 | an inflected column name is made of `[0-9a-z_]`, and its letters and digits are those of the raw name, lower-cased and in order |
| `Naming.Abbreviate` | target_sqlite/utils/singer_target_utils.py:61-66 | an abbreviated segment is never longer than the segment, is empty only when the segment is, and is made of `[0-9a-z_]` when the segment is a word |
| `Naming.ReduceFromAbbreviatesPrefix` | target_sqlite/utils/singer_target_utils.py:59-67 | the loop abbreviates a prefix of the path, outermost segment first, and stops at the first prefix whose join is under 63 characters, or after the last segment |
| `Naming.ReduceFromStep` | target_sqlite/utils/singer_target_utils.py:60-67 | while the join is 63 characters or more and a segment is left, one turn abbreviates exactly the next segment |
| `Naming.ReduceFromStop` | target_sqlite/utils/singer_target_utils.py:60 | the loop leaves the path as it is once the join is short enough or every segment is done |
| `Naming.FlattenKeySpec` | target_sqlite/utils/singer_target_utils.py:56-69 | `flatten_key` is the join of the inflected path with its first `n` segments abbreviated, where `n` is the smallest count giving a join under 63 characters, or the whole path if no count does |
| `Naming.FlattenKeyShort` | target_sqlite/utils/singer_target_utils.py:56-69 | a path whose inflected join is under 63 characters is not abbreviated: the key is exactly that join |
| `Naming.FlattenKeyNoLonger` | target_sqlite/utils/singer_target_utils.py:56-69 | abbreviation never makes the key longer than the plain inflected join |
| `Naming.FlattenKeySnake` | target_sqlite/utils/singer_target_utils.py:56-69 | every flattened key is made of `[0-9a-z_]` when the separator is |
| `Naming.LongDigitKeyKeepsLength` | target_sqlite/utils/singer_target_utils.py:59-67 | the 63-character bound is not guaranteed: a top-level key of 63 or more digits comes out unchanged |
| `Rows.KeyOf` | target_sqlite/target_sqlite.py:138-139 | `extract_keys` gives a tuple as long as the key properties, holding the record's value for each in key-property order; an absent key cannot reach it, because `validate_record` rejects such records first (`TargetSqlite.NormalizedRow`) |
| `Rows.KeyOfAgrees` | target_sqlite/target_sqlite.py:138-139 | two records share a key tuple exactly when they agree on every key column |
| `RecordFlattening.FlattenRecord` | target_sqlite/utils/singer_target_utils.py:72-89 | every value of a flattened record is a scalar or the `str()` text of an object or array; no nested structure survives |
| `RecordFlattening.OverlayLastWins` | target_sqlite/utils/singer_target_utils.py:89 | in `dict(items)` a name holds the value of the last item that has it |
| `RecordFlattening.LastFieldWins` | target_sqlite/utils/singer_target_utils.py:73-89 | a name written by field `i` and by no later field is in the flattened record and holds what field `i` wrote |
| `RecordFlattening.FlattenRecordField` | target_sqlite/utils/singer_target_utils.py:72-89 | the four cases per field: a declared column is stored without descent (as `str()` text when it is an object or array); an undeclared array is stored as text; an undeclared scalar is stored unchanged; an undeclared object adds its own flattening under the extended path |
| `SchemaFlattening.SortByName` | target_sqlite/utils/singer_target_utils.py:123-124 | `sorted(items, key=name)` is a permutation of the items, ordered by name |
| `SchemaFlattening.SortKeepsDuplicates` | target_sqlite/utils/singer_target_utils.py:123-127 | the sorted items repeat a name exactly when the unsorted ones do |
| `SchemaFlattening.FirstRepeat` | target_sqlite/utils/singer_target_utils.py:125-127 | the `groupby` scan finds the first position whose name repeats the previous one, and no repeat comes before it |
| `SchemaFlattening.SortAndCheck` | target_sqlite/utils/singer_target_utils.py:123-129 | the final step succeeds exactly when no two leaves share a name; it then returns the same leaves strictly sorted by name, and otherwise raises, naming a leaf's name |
| `SchemaFlattening.Classify` | target_sqlite/utils/singer_target_utils.py:98-121 | an empty definition is skipped; only an object with `properties` is descended into; a typed leaf is kept with its own definition |
| `SchemaFlattening.FlattenSchema` | target_sqlite/utils/singer_target_utils.py:92-129 | a flattened schema is strictly sorted by name and has no duplicate names |
| `SchemaFlattening.FlattenSchemaSpec` | target_sqlite/utils/singer_target_utils.py:92-129 | flattening succeeds exactly when the leaves can be collected and no two share a name, and then returns exactly those leaves |
| `SchemaFlattening.NoPropertiesNoColumns` | target_sqlite/utils/singer_target_utils.py:92-94 | a schema node without `properties` flattens to no columns |
| `SchemaFlattening.ContributionSpec` | target_sqlite/utils/singer_target_utils.py:95-121 | per property: an empty definition adds nothing; a non-object definition raises; a property typed `object` that has `properties` adds its own flattening; any other typed property adds one leaf under its flattened key; a `type` that `in` cannot search raises |
| `SchemaFlattening.PropertyLeavesStep` | target_sqlite/utils/singer_target_utils.py:95-121 | one turn of the loop over `properties` appends the property's leaves, or propagates the first error |
| `SchemaFlattening.PropertyLeavesExact` | target_sqlite/utils/singer_target_utils.py:95-121 | the loop succeeds exactly when every property it passes does, and then holds exactly the leaves those properties contribute |
| `SchemaFlattening.FlattenSchemaLeaves` | target_sqlite/utils/singer_target_utils.py:92-129 | the columns of a schema that flattens are exactly the leaves its properties contribute |
| `SchemaFlattening.TypedContributes` | target_sqlite/utils/singer_target_utils.py:102-113 | an accepted typed property that is not both typed `object` and given `properties` contributes its own definition under its key |
| `SchemaFlattening.TypedPropertyIsColumn` | target_sqlite/utils/singer_target_utils.py:102-113 | every such property of a schema that flattens is a column named `flatten_key(k, parent)` that holds its definition |
| `TableDefinition.SqliteType` | target_sqlite/sqlite_loader.py:15-21 | the SQLite type map has an entry for the name of every column type the target produces |
| `TableDefinition.ColumnTypeOf` | target_sqlite/utils/singer_target_utils.py:132-151 | typing succeeds exactly when the definition has a `type` that `in` can search, and never yields the timestamp type |
| `TableDefinition.ColumnTypePriority` | target_sqlite/utils/singer_target_utils.py:132-151 | the decision list: object, array or date-time gives String; otherwise number gives Float; then integer without string gives BigInteger; then boolean gives Boolean; anything else gives String |
| `TableDefinition.NullableSameType` | target_sqlite/utils/singer_target_utils.py:116-121 | prefixing `"null"` to a list of type names does not change the column type |
| `TableDefinition.UntypedLeafIsText` | target_sqlite/utils/singer_target_utils.py:114-121 | the nullable leaf made from an untyped property is always a text column |
| `TableDefinition.LeafHasTypeKeyword` | target_sqlite/utils/singer_target_utils.py:31-33 | every column of a schema that flattens has a definition that the column typing accepts |
| `TableDefinition.PrimaryKey` | target_sqlite/sqlite_loader.py:139-142 | `table.primary_key` names exactly the columns flagged as primary |
| `TableDefinition.TableNameSpec` | target_sqlite/utils/singer_target_utils.py:40-42 | a table name is made of `[0-9a-z_]` and keeps the stream name's letters and digits, lower-cased and in order |
| `TableDefinition.SchemaColumns` | target_sqlite/utils/singer_target_utils.py:30-34 | one column per flat-schema entry, in order, typed by its definition, with the primary-key flag set exactly when the name is a key property |
| `TableDefinition.GenerateTable` | target_sqlite/utils/singer_target_utils.py:40-43 | a generated table is named after its stream by the table-name rule |
| `TableDefinition.GenerateTableOk` | target_sqlite/utils/singer_target_utils.py:23-45 | generating the table fails exactly when flattening the schema does |
| `TableDefinition.GenerateTableSpec` | target_sqlite/utils/singer_target_utils.py:30-38 | the columns are the sorted flat-schema entries with their types and key flags; after them comes the timestamp column, exactly when the setting is non-empty and no property already has that name |
| `TableDefinition.GenerateTableDistinct` | target_sqlite/utils/singer_target_utils.py:24-38 | no two generated columns share a name, and only the audit column has the timestamp type, without a key flag |
| `Loader.AttributeNames` | target_sqlite/sqlite_loader.py:37-41 | the attribute names are the table's column names, in table order |
| `Loader.EmptyRecord` | target_sqlite/sqlite_loader.py:43-58 | the template record has exactly the table's columns, each bound to None |
| `Loader.CreateTable` | target_sqlite/sqlite_loader.py:67-69 | a created table has exactly the definition's columns with their declared types, the definition's primary key, and no rows |
| `Loader.SchemaApply` | target_sqlite/sqlite_loader.py:60-72 | applying a schema adds the definition's table to the database and leaves every other table as it was |
| `Loader.MissingColumnsSpec` | target_sqlite/sqlite_loader.py:97-102 | a column is added exactly when the definition has it and the existing table lacks its name, and it gets the mapped SQLite type |
| `Loader.NothingMissing` | target_sqlite/sqlite_loader.py:97-106 | when every column already exists, `schema_update` adds nothing |
| `Loader.SchemaApplySpec` | target_sqlite/sqlite_loader.py:60-106 | afterwards every column of the definition exists; on an existing table the old columns are kept as a prefix with their types, and the key and rows do not change |
| `Loader.SchemaApplyIdempotent` | target_sqlite/sqlite_loader.py:60-106 | applying the same definition a second time changes nothing |
| `Loader.Load` | target_sqlite/sqlite_loader.py:120-148 | a load touches only its own table: the set of tables and every other table stay the same |
| `Loader.LoadEmpty` | target_sqlite/sqlite_loader.py:124-125 | loading no data changes nothing |
| `Loader.InsertAllAppends` | target_sqlite/sqlite_loader.py:145-148 | a multi-row insert that succeeds appends every row, in order; without a key constraint it always succeeds |
| `Loader.LoadAppends` | target_sqlite/sqlite_loader.py:145-148 | without a primary key `load` appends every row: the table grows by `len(data)` |
| `Loader.UpsertRowSpec` | target_sqlite/sqlite_loader.py:134-144 | one insert-or-update stores the row's key in exactly one row when the key holds no NULL; a stored row with that key is updated in place, otherwise the row is appended; a row whose key holds a NULL is never appended; every other row stays as it was |
| `Loader.UpsertAllKeys` | target_sqlite/sqlite_loader.py:133-144 | the upsert loop keeps keys unique, stores the union of the old keys and the data's keys that hold no NULL, and keeps each old row in place with its key |
| `Loader.UpsertAllUntouched` | target_sqlite/sqlite_loader.py:133-144 | an old row whose key the data does not mention is unchanged |
| `Loader.UpsertLastWins` | target_sqlite/sqlite_loader.py:133-144 | the last data row for a key wins: the stored row with that key has that data row's value in every table column the data row sets |
| `Loader.LoadUpserts` | target_sqlite/sqlite_loader.py:128-144 | with a primary key, `load` never raises and keeps the columns and the stored key. It never removes a row and adds at most one per data row. Without a stored key constraint it appends every row. When the stored key is the definition's, it ends with one row per key in the union of the old keys and the data's keys that hold no NULL |
| `Loader.UpsertAllBounds` | target_sqlite/sqlite_loader.py:133-144 | whatever the stored key, the upsert loop never removes a row and adds at most one per data row; without a key constraint every insert succeeds and the rows are appended in order |
| `Loader.UpsertRowLost` | target_sqlite/sqlite_loader.py:134-144 | when the insert clashes on the stored key but no stored row agrees with the data row on the definition's primary-key columns, the update matches nothing and the row is dropped without an error |
| `Loader.KeyChangeLosesRow` | target_sqlite/sqlite_loader.py:128-144 | a table created with key `id` and loaded under a definition keyed on `id, region`: a row with a known `id` and a new `region` leaves the table unchanged, and `load` succeeds |
| `Loader.NullKeyLosesRow` | target_sqlite/sqlite_loader.py:128-144 | a row whose primary key `id` is null, loaded into a freshly created table keyed on `id`: the insert fails on the NOT NULL key column, the update matches nothing, and `load` succeeds with the table unchanged |
| `Loader.NullKeyAbortsInsert` | target_sqlite/sqlite_loader.py:145-148 | a table created by the target with key `id`, loaded under a definition without a primary key: a row whose `id` is null makes the whole multi-row insert fail with an integrity error |
| `Buffers.Clear` | target_sqlite/target_sqlite.py:336 | clearing a cache empties it and keeps its kind and key |
| `Buffers.Add` | target_sqlite/target_sqlite.py:20-40 | adding a record never shrinks a cache and grows it by at most one, and keeps its kind |
| `Buffers.AppendKeepsAll` | target_sqlite/target_sqlite.py:20-25 | a `RecordBuffer` holds every record added, in arrival order |
| `Buffers.UniqueAddSpec` | target_sqlite/target_sqlite.py:32-33 | one add to a `UniqueRecordBuffer` replaces the record in the slot for its key tuple, or appends a new slot; every other slot is unchanged |
| `Buffers.UniqueAddAllKeys` | target_sqlite/target_sqlite.py:28-40 | a filled `UniqueRecordBuffer` holds one record per key tuple, and exactly the key tuples added |
| `Buffers.UniqueAddAllLatest` | target_sqlite/target_sqlite.py:28-40 | every record in a `UniqueRecordBuffer` is the most recently added record with its key tuple |
| `Buffers.LatestInValues` | target_sqlite/target_sqlite.py:35-36 | each record that is the last with its key tuple is among `values()` |
| `Buffers.UniqueAddAllValues` | target_sqlite/target_sqlite.py:28-40 | a `UniqueRecordBuffer` has as many records as distinct key tuples added, and `values()` holds the latest record of each |
| `Ledger.Without` | target_sqlite/target_sqlite.py:75 | removing a stream from a list keeps exactly the other names |
| `Ledger.FlushStream` | target_sqlite/target_sqlite.py:73-75 | `flush_stream(s)` removes only `s` from every entry and keeps the payloads and the order of entries |
| `Ledger.PopReady` | target_sqlite/target_sqlite.py:77-80 | popping splits the ledger in two, and every entry kept still waits for some stream |
| `Ledger.PopReadyPrefix` | target_sqlite/target_sqlite.py:77-80 | popping a prefix of the ledger gives prefixes of both outputs |
| `Ledger.PopReadyInterleaves` | target_sqlite/target_sqlite.py:77-80 | the two outputs partition the ledger in order: each entry is the next ready payload if it waits for nothing, and the next kept entry otherwise |
| `Ledger.PopReadyWaitingTail` | target_sqlite/target_sqlite.py:77-80 | entries that still wait add no ready payload |
| `Ledger.NewestReady` | target_sqlite/target_sqlite.py:341-345 | the last ready payload, which is the one written, is that of the newest entry that waits for nothing |
| `Ledger.FlushStreamNests` | target_sqlite/target_sqlite.py:73-75 | dropping a stream from every entry keeps the ledger nested: each stream an older entry waits for is one every newer entry waits for |
| `Ledger.ReadyPrefix` | target_sqlite/target_sqlite.py:77-80 | on a nested ledger the entries that wait for nothing form a prefix: popping returns their payloads in ledger order and keeps exactly the entries after them |
| `Ledger.NothingReady` | target_sqlite/target_sqlite.py:77-80 | when every entry still waits, popping releases nothing and keeps the ledger |
| `TargetSqlite.Unflushed` | target_sqlite/target_sqlite.py:359-368 | the streams with unflushed records are exactly the registered streams whose caches are non-empty |
| `TargetSqlite.MissingKeysOf` | target_sqlite/target_sqlite.py:305 | the missing keys are exactly the key properties absent from the flat record |
| `TargetSqlite.NormalizedRow` | target_sqlite/target_sqlite.py:169-180 | an invalid record raises; otherwise the row exists exactly when every key column is in the flat record, and a missing key raises with exactly the missing keys; the row has the template's columns plus the flat record's and the timestamp column, the record's values win, the clock stamp is added only when the record lacks the timestamp column, and the other template values stay None |
| `TargetSqlite.EmitSpec` | target_sqlite/target_sqlite.py:347-357 | `emit_state(None)` does nothing; any other payload is written and becomes `last_emitted_state`; nothing else changes |
| `TargetSqlite.ConfigOf` | target_sqlite/target_sqlite.py:92-93 | an absent `batch_size` is 50 and an absent `timestamp_column` is `__loaded_at`; a present setting is kept |
| `TargetSqlite.InitInv` | target_sqlite/target_sqlite.py:88-136 | the freshly initialised target satisfies the invariant |
| `TargetSqlite.DrainedLedger` | target_sqlite/target_sqlite.py:336-345 | once every cache is empty, no STATE is left waiting |
| `TargetSqlite.FlushFrame` | target_sqlite/target_sqlite.py:324-345 | a successful flush clears the stream's cache and leaves every other stream as it was; the ledger becomes the entries that still wait once the stream is dropped; the newest ready payload is written, if there is one |
| `TargetSqlite.WaitingAfterFlush` | target_sqlite/target_sqlite.py:338-341 | after dropping the stream and popping, every remaining entry waits, not for the flushed stream, and only for streams with cached records |
| `TargetSqlite.FlushInv` | target_sqlite/target_sqlite.py:324-345 | a flush restores the invariant, empties the stream's cache, leaves the other streams alone, and no stored STATE waits for the stream afterwards |
| `TargetSqlite.FlushEmitsNewest` | target_sqlite/target_sqlite.py:341-345 | when the flush frees entry `i` and every later entry still waits, only entry `i`'s payload is written (nothing for a null payload), and older ready ones are dropped |
| `TargetSqlite.FlushWithoutReady` | target_sqlite/target_sqlite.py:338-345 | when no entry becomes ready, a flush writes nothing and only drops the stream from the ledger |
| `TargetSqlite.FlushFromDrains` | target_sqlite/target_sqlite.py:319-322 | the flush-all loop from any point where the earlier caches are empty leaves every cache and the ledger empty |
| `TargetSqlite.FlushSkip` | target_sqlite/target_sqlite.py:319-322 | the flush-all loop passes over a stream whose cache is empty |
| `TargetSqlite.FlushNext` | target_sqlite/target_sqlite.py:319-322 | one turn of the flush-all loop on a stream with cached records empties that cache and keeps the invariant |
| `TargetSqlite.FlushAllDrains` | target_sqlite/target_sqlite.py:314-322 | after `flush_all_cached_records`, every cache and the ledger are empty |
| `TargetSqlite.CacheRecord` | target_sqlite/target_sqlite.py:183 | caching a record keeps every part of the invariant except the size bound for that stream, and the whole invariant holds while the cache stays below the batch size |
| `TargetSqlite.RecordInv` | target_sqlite/target_sqlite.py:155-187 | a RECORD that does not raise keeps the invariant, including every cache below the batch size |
| `TargetSqlite.StateInv` | target_sqlite/target_sqlite.py:188-198 | a STATE keeps the invariant |
| `TargetSqlite.RegisterInv` | target_sqlite/target_sqlite.py:265-285 | registering a stream with a fresh empty cache restores the invariant |
| `TargetSqlite.FinishSchemaInv` | target_sqlite/target_sqlite.py:236-285 | the rest of a SCHEMA, when it does not raise, ends in a state satisfying the invariant |
| `TargetSqlite.NewStreamReady` | target_sqlite/target_sqlite.py:224-227 | a new stream joins the end of the registration order, and no STATE waits for it |
| `TargetSqlite.SchemaInv` | target_sqlite/target_sqlite.py:199-285 | a SCHEMA that does not raise keeps the invariant |
| `TargetSqlite.StepInv` | target_sqlite/target_sqlite.py:141-290 | every message that does not raise keeps the invariant |
| `TargetSqlite.RunInv` | target_sqlite/target_sqlite.py:141-290 | a run of messages that does not raise keeps the invariant |
| `TargetSqlite.RunToEndSettles` | target_sqlite/target_sqlite.py:314-322 | a run that reaches the end of its input leaves every cache and the ledger empty |
| `TargetSqlite.StateStep` | target_sqlite/target_sqlite.py:188-198 | a STATE is written at once when no stream has cached records; otherwise it is appended to the ledger, waiting for exactly the streams that have some |
| `TargetSqlite.RecordStep` | target_sqlite/target_sqlite.py:182-187 | a RECORD is added to its stream's cache, and nothing else changes until the cache reaches the batch size; then the cache, holding exactly `max(batch_size, 1)` records, is loaded and emptied |
| `TargetSqlite.RecordNeedsSchema` | target_sqlite/target_sqlite.py:156-167 | a RECORD without a stream, or for a stream without a schema, raises and changes nothing |
| `TargetSqlite.SchemaNeedsStream` | target_sqlite/target_sqlite.py:200-216 | a SCHEMA that does not raise names its stream as a string and has a schema that `in` can search and that mentions `properties` |
| `TargetSqlite.SchemaOutcome` | target_sqlite/target_sqlite.py:218-285 | a successful SCHEMA flushes a known stream or appends a new one, flattens the key properties, generates the table, and registers the stream |
| `TargetSqlite.SchemaRegisters` | target_sqlite/target_sqlite.py:218-285 | after a SCHEMA the stream joins the registration order the first time only; its cache is empty and is a `UniqueRecordBuffer` exactly when it has key properties; its table exists in the database |
| `TargetSqlite.SchemaFlushesFirst` | target_sqlite/target_sqlite.py:218-223 | a SCHEMA for a registered stream first loads its cache; afterwards no stored STATE waits for the stream |
| `TargetSqlite.SchemaKeepsOthers` | target_sqlite/target_sqlite.py:199-285 | a SCHEMA leaves every other stream as it was |
| `TargetSqlite.SchemaRejected` | target_sqlite/target_sqlite.py:207-237 | a schema `in` cannot search, or one without `properties`, raises before any change; a first SCHEMA without `key_properties` raises after the stream has joined the registration order |
| `TargetSqlite.InitSafe` | target_sqlite/target_sqlite.py:88-100 | the freshly initialised target satisfies the write-safety invariant: nothing cached, loaded, stored or written |
| `TargetSqlite.CacheSafe` | target_sqlite/target_sqlite.py:182-183 | caching a record counts it for its stream only and keeps the write-safety invariant |
| `TargetSqlite.FlushedLedgerGated` | target_sqlite/target_sqlite.py:333-339 | once a stream's cache is loaded and the stream is dropped from the ledger, every entry that no longer waits for a stream has seen no more of that stream's records than have been loaded |
| `TargetSqlite.FlushShape` | target_sqlite/target_sqlite.py:324-345 | a successful flush loads the cache, clears it, keeps the entries that still wait, and writes the newest freed payload, if any |
| `TargetSqlite.FlushedSafe` | target_sqlite/target_sqlite.py:324-340 | the state after loading, clearing and popping, before anything is written, keeps the write-safety invariant |
| `TargetSqlite.FlushWriteSafe` | target_sqlite/target_sqlite.py:341-345 | the payload a flush writes is due: every stream has loaded the records that arrived before its STATE, it arrived after every payload already written, and before every entry still waiting |
| `TargetSqlite.FlushAborts` | target_sqlite/target_sqlite.py:324-333 | a flush whose load raises leaves the target exactly as it was: the cache, the ledger and what was written |
| `TargetSqlite.FlushSafe` | target_sqlite/target_sqlite.py:324-345 | a flush keeps the write-safety invariant, whether the load succeeds or raises |
| `TargetSqlite.CachedSafe` | target_sqlite/target_sqlite.py:182-187 | caching a record and then, once the cache reaches the batch size, flushing it keeps the write-safety invariant, whether or not the load raises |
| `TargetSqlite.RecordSafe` | target_sqlite/target_sqlite.py:155-187 | a RECORD keeps the write-safety invariant, whether or not it raises |
| `TargetSqlite.StoreStateSafe` | target_sqlite/target_sqlite.py:188-194 | a STATE stored behind the streams with cached records keeps the ledger nested and in arrival order, and waits for every stream that has records it has not loaded |
| `TargetSqlite.WriteStateSafe` | target_sqlite/target_sqlite.py:195-198 | a STATE written at once, when no cache holds records, is due: every record that arrived before it has been loaded |
| `TargetSqlite.StateSafe` | target_sqlite/target_sqlite.py:188-198 | a STATE keeps the write-safety invariant, whether or not it raises |
| `TargetSqlite.SchemaSafe` | target_sqlite/target_sqlite.py:199-285 | a SCHEMA keeps the write-safety invariant, whether or not it raises |
| `TargetSqlite.StepSafe` | target_sqlite/target_sqlite.py:141-290 | every message keeps the write-safety invariant, whether or not it raises |
| `TargetSqlite.RunSafe` | target_sqlite/target_sqlite.py:141-290 | a run of messages keeps the write-safety invariant, also in the state it reached when it raised |
| `TargetSqlite.RunLastSafe` | target_sqlite/target_sqlite.py:141-290 | the last line of a run keeps the write-safety invariant whenever the lines before it did, whether or not any of them raised |
| `TargetSqlite.FlushFromSafe` | target_sqlite/target_sqlite.py:319-322 | the flush-all loop keeps the write-safety invariant, whether or not a load raises |
| `TargetSqlite.RunToEndAcked` | target_sqlite/target_sqlite.py:48-63 | after a whole run and the final flush, or in the state reached when the target raised, each line written is a payload whose STATE's records, for every stream, had all been loaded when it was written; the lines come in the order the STATE messages arrived |
| `TargetSqlite.OtherMessagesIgnored` | target_sqlite/target_sqlite.py:286-290 | ACTIVATE_VERSION and unknown message types change nothing, and a line without a type raises |

## Left out

- Parsing input lines and printing payloads. Messages arrive as parsed JSON objects, and written payloads are kept as values rather than as `json.dumps` text.
- The command-line wrapper and reading the config file. `TargetSqlite.ConfigOf` applies the defaults. A `batch_size` is taken as an integer after `int()`. An explicit falsy `timestamp_column` is the empty string.
- The `singer_sqlite` package: thin subclasses of a library that is not part of this model.
- The SQLAlchemy engine and SQL text. This covers the WAL pragma, the `ALTER TABLE` statement, `begin()` versus `connect()` and transactions. The database is an abstract value, and a key clash stands for `IntegrityError`.
- SQLite value semantics: type affinity and conversion of stored values, and case-insensitive identifiers.
- Row entries that are not table columns: the stored row keeps only the table's columns.
- The JSON-Schema validator: a parameter `valid(record, schema)`. The clock `datetime.utcnow()`: a timestamp parameter per message.
- `inflection.underscore` and `camelize` are modelled from their regular-expression passes on ASCII text. Unicode digits matched by `\d` and non-ASCII case mapping are not modelled.
- Python's `str()` text of an object or array: stood for by the value it renders (`Repr`).
- Floating-point values: kept as their text. `0.0` counts as truthy here, whereas Python treats it as falsy.
- Duplicate keys inside one JSON object. Lookups read the last binding, as Python does. However, `flatten_record` and `flatten_schema` here visit every binding in document order, while Python's dict has one entry at the first key's position.
- Python hash equality of key tuples: `1`, `True` and `1.0` share a dict slot in Python, but key tuples are compared structurally here.
- The unused `schema_dict` set in `generate_sqlalchemy_table`.
- The mutation of the caller's schema in the untyped branch of `flatten_schema`. The model returns the changed leaf but leaves the input schema untouched.
- `SchemaUpdateError` and incompatible column types: the loader never raises them.
- The state after an exception. The model returns the state reached so far, but the program stops, so nothing is proved about later messages.
- A `key_properties` value that is not a list of strings is treated as malformed. Python would iterate a string's characters, iterate a JSON object's keys and accept them as the key columns, or raise.
- A non-string stream name in a SCHEMA is treated as malformed. Python raises once it builds the table name.
- Which exception class is raised: errors are labels (`Error`), and messages and logging are left out.
- `streams_with_unflushed_records` iterates the `rows` dict; here it follows the registration order. The two orders agree in every run that has not raised.
- Loader.UpsertRowSpec: proved only for a table whose stored key is the definition's primary key. For any other stored key, `Loader.UpsertRowLost` and `Loader.KeyChangeLosesRow` show that a clashing row can be lost.
- Loader.UpsertAllKeys: proved only when the stored key is the definition's primary key. With another stored key, the keys need not stay unique or form the union; `Loader.UpsertAllBounds` gives the length bounds that do hold.
- Loader.UpsertAllUntouched: proved only when the stored key is the definition's primary key. With another stored key, the model's update, matched on the definition's key, can rewrite an old row the data does not name by the stored key. SQLite would reject that update with `IntegrityError` (next line).
- Loader.UpsertLastWins: proved only when the stored key is the definition's primary key. With another stored key, a data row can be dropped (`Loader.KeyChangeLosesRow`), so it need not win.
- A null in a primary-key column is modelled as a NOT NULL violation (`Loader.Clash`). SQLite's conversion of a NULL inserted into a single INTEGER PRIMARY KEY column into a fresh rowid is not modelled. Apart from that, stored cells are compared by equality, so an update matches NULL with NULL (SQLAlchemy writes `== None` as `IS NULL`).
- An update that breaks the stored key constraint raises `IntegrityError` inside the `except` block. The model applies such an update anyway, so this error is not modelled.
- Loader.MissingColumnsSpec: states which columns are added and with which types, but not that they come in definition order.
- The test-suite's concrete column names and emitted-line counts: these depend on stream fixture files that are not part of this model.
