/** `TargetSQLite`: the state machine that routes Singer messages, caches
    records per stream, loads them in batches and releases STATE payloads
    once every stream they wait for has been flushed. */
module TargetSqlite {
  import opened Json
  import opened Rows
  import opened Naming
  import opened RecordFlattening
  import opened SchemaFlattening
  import opened TableDefinition
  import opened Loader
  import opened Buffers
  import opened Ledger

  /** `batch_size` and `timestamp_column` once the defaults are applied; an
      empty timestamp column stands for a falsy setting. */
  datatype Config = Config(batchSize: int, timestampColumn: string)

  const DefaultBatchSize: int := 50
  const DefaultTimestampColumn: string := "__loaded_at"

  /** The configuration read with `config.get` and its defaults: an absent
      setting takes the default, a present one is kept. */
  function ConfigOf(batchSize: Option<int>, timestampColumn: Option<string>): (c: Config)
    ensures batchSize.None? ==> c.batchSize == 50
    ensures timestampColumn.None? ==> c.timestampColumn == "__loaded_at"
    ensures batchSize.Some? ==> c.batchSize == batchSize.value
    ensures timestampColumn.Some? ==> c.timestampColumn == timestampColumn.value
  {
    Config(if batchSize.Some? then batchSize.value else DefaultBatchSize,
           if timestampColumn.Some? then timestampColumn.value else DefaultTimestampColumn)
  }

  /** What the target keeps per registered stream: the validator's schema,
      the flattened key properties, the loader's table, the template row, the
      table's attribute names and the record cache. */
  datatype StreamEntry = StreamEntry(
    schema: Json,
    keys: seq<string>,
    table: TableDef,
    template: Row,
    attrs: seq<string>,
    buffer: Buffer)

  /** A payload written to standard output, as it arrived, with the
      per-stream record counts that had been loaded when it was written. */
  datatype Ack = Ack(state: Pending, loaded: map<string, nat>)

  /** The target: the streams with a schema, in arrival order, their
      entries, the STATE ledger, the database, and the payloads written to
      standard output so far together with `last_emitted_state`.
      The last four fields are bookkeeping the program does not keep, used
      only to state when payloads may be written: per stream, the number of
      records cached so far (`arrived`) and that number as of the stream's
      last load (`loaded`); the number of STATE messages received; and each
      written payload with the counts loaded when it was written. */
  datatype Target = Target(
    config: Config,
    schemas: seq<string>,
    streams: map<string, StreamEntry>,
    ledger: seq<Entry>,
    db: Db,
    emitted: seq<Json>,
    lastEmitted: Option<Json>,
    arrived: map<string, nat>,
    loaded: map<string, nat>,
    received: nat,
    acks: seq<Ack>)

  /** A parsed input line. */
  type Message = seq<(string, Json)>

  /** The state after a message, and whether it raised. */
  datatype Outcome = Done(state: Target) | Abort(state: Target, error: Error)

  function Init(config: Config, db: Db): Target {
    Target(config, [], map[], [], db, [], None, map[], map[], 0, [])
  }

  /** A per-stream count, zero for a stream never counted. */
  function Count(m: map<string, nat>, s: string): nat {
    if s in m then m[s] else 0
  }

  /** `emit_state`: a None payload writes nothing. */
  function Emit(t: Target, p: Pending): Target {
    if p.payload == JNull then t
    else t.(emitted := t.emitted + [p.payload], lastEmitted := Some(p.payload),
            acks := t.acks + [Ack(p, t.loaded)])
  }

  /** `streams_with_unflushed_records`, in registration order. */
  function Unflushed(schemas: seq<string>, streams: map<string, StreamEntry>): (r: seq<string>)
    ensures forall s :: s in r <==> s in schemas && s in streams && Size(streams[s].buffer) > 0
  {
    if |schemas| == 0 then []
    else
      var s := schemas[0];
      (if s in streams && Size(streams[s].buffer) > 0 then [s] else []) + Unflushed(schemas[1..], streams)
  }

  /** `flush_records(s)`: load the cache, clear it, drop `s` from the
      ledger, and emit the most recent payload that no longer waits for
      anything (older ones are discarded). A failing load raises. */
  function Flush(t: Target, s: string): (r: Outcome)
    requires s in t.streams
    ensures r.state.schemas == t.schemas && r.state.streams.Keys == t.streams.Keys && r.state.config == t.config
  {
    var e := t.streams[s];
    match Load(t.db, e.table, Values(e.buffer))
    case Err(err) => Abort(t, err)
    case Ok(db) =>
      var popped := PopReady(FlushStream(t.ledger, s));
      var t1 := t.(db := db, streams := t.streams[s := e.(buffer := Clear(e.buffer))], ledger := popped.1,
                   loaded := t.loaded[s := Count(t.arrived, s)]);
      Done(if |popped.0| > 0 then Emit(t1, popped.0[|popped.0| - 1]) else t1)
  }

  /** The loop of `flush_all_cached_records` from position `i` of the
      registration order. */
  function FlushFrom(t: Target, i: nat): (r: Outcome)
    ensures r.state.schemas == t.schemas && r.state.streams.Keys == t.streams.Keys && r.state.config == t.config
    decreases |t.schemas| - i
  {
    if i >= |t.schemas| then Done(t)
    else
      var s := t.schemas[i];
      if s in t.streams && Size(t.streams[s].buffer) > 0 then
        match Flush(t, s)
        case Abort(t1, err) => Abort(t1, err)
        case Done(t1) => FlushFrom(t1, i + 1)
      else FlushFrom(t, i + 1)
  }

  /** `flush_all_cached_records`. */
  function FlushAll(t: Target): (r: Outcome)
    ensures r.state.schemas == t.schemas && r.state.streams.Keys == t.streams.Keys
  {
    FlushFrom(t, 0)
  }

  // ---------------------------------------------------------------------
  // RECORD

  /** `[key for key in keys if key not in flat]`. */
  function MissingKeysOf(keys: seq<string>, flat: Row): (r: seq<string>)
    ensures forall k :: k in r <==> k in keys && k !in flat
  {
    if |keys| == 0 then []
    else (if keys[0] !in flat then [keys[0]] else []) + MissingKeysOf(keys[1..], flat)
  }

  /** `validate_record` followed by the normalisation of the RECORD branch:
      the flattened record with every key column present, stamped with
      `now` unless it already has the timestamp column, laid over the
      template row. `valid` is the JSON-Schema validator. */
  function NormalizedRow(e: StreamEntry, record: Json, ts: string, now: int, valid: (Json, Json) -> bool): (r: Result<Row>)
    ensures !valid(record, e.schema) ==> r == Err(InvalidRecord)
    ensures r.Ok? <==> (valid(record, e.schema) && record.JObj? &&
      forall k :: k in e.keys ==> k in FlattenRecord(record.fields, e.attrs, []))
    ensures r.Err? && r.error.MissingKeys? ==> (record.JObj? &&
      forall k :: k in r.error.keys <==> k in e.keys && k !in FlattenRecord(record.fields, e.attrs, []))
    ensures r.Ok? ==> var flat := FlattenRecord(record.fields, e.attrs, []);
      && r.value.Keys == e.template.Keys + flat.Keys + {ts}
      && (forall c :: c in flat ==> r.value[c] == flat[c])
      && (ts !in flat ==> r.value[ts] == Stamp(now))
      && (forall c :: c in e.template && c !in flat && c != ts ==> r.value[c] == e.template[c])
  {
    if !valid(record, e.schema) then Err(InvalidRecord)
    else if !record.JObj? then Err(MalformedMessage)
    else
      var flat := FlattenRecord(record.fields, e.attrs, []);
      var missing := MissingKeysOf(e.keys, flat);
      if |missing| > 0 then
        assert missing[0] in missing;
        Err(MissingKeys(missing))
      else
        var stamped := if ts in flat then flat else flat[ts := Stamp(now)];
        Ok(e.template + stamped)
  }

  /** `add_record` on the stream's cache. */
  function Cache(t: Target, s: string, row: Row): Target
    requires s in t.streams
  {
    var e := t.streams[s];
    t.(streams := t.streams[s := e.(buffer := Add(e.buffer, row))],
       arrived := t.arrived[s := Count(t.arrived, s) + 1])
  }

  /** The RECORD branch: cache the normalised record and flush the stream
      once its cache reaches `batch_size`. */
  function ProcessRecord(t: Target, msg: Message, now: int, valid: (Json, Json) -> bool): Outcome {
    match Lookup(msg, "stream")
    case None => Abort(t, MissingStream)
    case Some(sv) =>
      if !sv.JStr? || sv.s !in t.schemas || sv.s !in t.streams then Abort(t, RecordBeforeSchema(sv))
      else
        var s := sv.s;
        var e := t.streams[s];
        match Lookup(msg, "record")
        case None => Abort(t, MalformedMessage)
        case Some(record) =>
          match NormalizedRow(e, record, t.config.timestampColumn, now, valid)
          case Err(err) => Abort(t, err)
          case Ok(row) =>
            var t1 := Cache(t, s, row);
            if Size(t1.streams[s].buffer) >= t.config.batchSize then Flush(t1, s) else Done(t1)
  }

  // ---------------------------------------------------------------------
  // STATE

  /** The STATE branch: emit at once when no stream has cached records,
      otherwise wait for the streams that do. */
  function ProcessState(t: Target, msg: Message): Outcome {
    match Lookup(msg, "value")
    case None => Abort(t, MalformedMessage)
    case Some(payload) =>
      var pending := Unflushed(t.schemas, t.streams);
      var p := Pending(payload, t.arrived, t.received);
      var t1 := t.(received := t.received + 1);
      if |pending| > 0 then Done(t1.(ledger := t.ledger + [(p, pending)]))
      else Done(Emit(t1, p))
  }

  // ---------------------------------------------------------------------
  // SCHEMA

  /** The names in a `key_properties` list of strings. */
  function KeyNames(j: Json): (r: Option<seq<string>>)
    ensures r.Some? ==> j.JArr? && |r.value| == |j.items|
  {
    if !j.JArr? then None
    else if forall i :: 0 <= i < |j.items| ==> j.items[i].JStr? then
      Some(seq(|j.items|, i requires 0 <= i < |j.items| && j.items[i].JStr? => j.items[i].s))
    else None
  }

  /** `flatten_key(prop, [], "")` for each key property. */
  function FlattenKeys(names: seq<string>): (r: seq<string>)
    ensures |r| == |names|
  {
    seq(|names|, i requires 0 <= i < |names| => FlattenKey(names[i], [], ""))
  }

  /** The registration that ends the SCHEMA branch, once the table has been
      generated: apply it to the database and start an empty cache, keyed
      exactly when there are key properties. */
  function Register(t: Target, s: string, schema: Json, keys: seq<string>, def: TableDef): Target {
    var buffer := if |keys| > 0 then Unique(keys, []) else Append([]);
    var entry := StreamEntry(schema, keys, def, EmptyRecord(def), AttributeNames(def), buffer);
    t.(db := SchemaApply(t.db, def), streams := t.streams[s := entry])
  }

  /** The rest of the SCHEMA branch after the stream's old cache has been
      flushed (or the new stream recorded). */
  function FinishSchema(t: Target, s: string, schema: Json, msg: Message): Outcome {
    match Lookup(msg, "key_properties")
    case None => Abort(t, MissingKeyProperties)
    case Some(kp) =>
      match KeyNames(kp)
      case None => Abort(t, MalformedMessage)
      case Some(names) =>
        var keys := FlattenKeys(names);
        match GenerateTable(s, keys, schema, t.config.timestampColumn)
        case Err(err) => Abort(t, err)
        case Ok(def) => Done(Register(t, s, schema, keys, def))
  }

  /** The SCHEMA branch. */
  function ProcessSchema(t: Target, msg: Message): Outcome {
    match Lookup(msg, "stream")
    case None => Abort(t, MissingStream)
    case Some(sv) =>
      match Lookup(msg, "schema")
      case None => Abort(t, MalformedMessage)
      case Some(schema) =>
        if !IsContainer(schema) then Abort(t, MalformedSchema)
        else if !Mentions(schema, "properties") then Abort(t, SchemaWithoutProperties)
        else if !sv.JStr? then Abort(t, MalformedMessage)
        else
          var s := sv.s;
          if s in t.schemas && s in t.streams then
            match Flush(t, s)
            case Abort(t1, err) => Abort(t1, err)
            case Done(t1) => FinishSchema(t1, s, schema, msg)
          else if s in t.schemas then FinishSchema(t, s, schema, msg)
          else FinishSchema(t.(schemas := t.schemas + [s]), s, schema, msg)
  }

  // ---------------------------------------------------------------------
  // The driver

  /** `process_line` on a parsed line; `now` is the clock reading for a
      RECORD. ACTIVATE_VERSION and unknown types change nothing. */
  function Step(t: Target, msg: Message, now: int, valid: (Json, Json) -> bool): Outcome {
    match Lookup(msg, "type")
    case None => Abort(t, MissingType)
    case Some(ty) =>
      if ty == JStr("RECORD") then ProcessRecord(t, msg, now, valid)
      else if ty == JStr("STATE") then ProcessState(t, msg)
      else if ty == JStr("SCHEMA") then ProcessSchema(t, msg)
      else Done(t)
  }

  /** The lines of the input in order, stopping at the first that raises;
      `clock[i]` is the time at which line `i` is read. */
  function Run(t: Target, msgs: seq<Message>, clock: seq<int>, valid: (Json, Json) -> bool): Outcome
    requires |clock| == |msgs|
    decreases |msgs|
  {
    if |msgs| == 0 then Done(t)
    else
      match Run(t, msgs[..|msgs| - 1], clock[..|msgs| - 1], valid)
      case Abort(t1, err) => Abort(t1, err)
      case Done(t1) => Step(t1, msgs[|msgs| - 1], clock[|msgs| - 1], valid)
  }

  /** A whole run: every line, then the final flush of every cache. */
  function RunToEnd(config: Config, db: Db, msgs: seq<Message>, clock: seq<int>, valid: (Json, Json) -> bool): Outcome
    requires |clock| == |msgs|
  {
    match Run(Init(config, db), msgs, clock, valid)
    case Abort(t1, err) => Abort(t1, err)
    case Done(t1) => FlushAll(t1)
  }

  // ---------------------------------------------------------------------
  // What every run keeps true

  /** No cache holds `batch_size` records once a message has been handled;
      a batch size below one flushes every record at once. */
  function CacheLimit(c: Config): (n: nat)
    ensures n >= 1 && n >= c.batchSize
  {
    if c.batchSize < 1 then 1 else c.batchSize
  }

  /** `schemas` and the per-stream dicts name the same streams, each once. */
  ghost predicate Registry(t: Target) {
    && (forall s :: s in t.schemas <==> s in t.streams)
    && (forall i, j :: 0 <= i < j < |t.schemas| ==> t.schemas[i] != t.schemas[j])
  }

  /** A cache is a `UniqueRecordBuffer` on the stream's keys exactly when the
      stream has key properties, and then holds one record per key tuple. */
  ghost predicate Shaped(e: StreamEntry) {
    && (e.buffer.Unique? <==> |e.keys| > 0)
    && (e.buffer.Unique? ==> e.buffer.key == e.keys)
    && WellFormed(e.buffer)
  }

  ghost predicate Shapes(t: Target) {
    forall s :: s in t.streams ==> Shaped(t.streams[s])
  }

  ghost predicate Bounded(t: Target) {
    forall s :: s in t.streams ==> Size(t.streams[s].buffer) < CacheLimit(t.config)
  }

  /** Every stored STATE waits for at least one stream, and only for
      registered streams that still have cached records. */
  ghost predicate Waiting(t: Target) {
    forall i :: 0 <= i < |t.ledger| ==>
      && |t.ledger[i].1| > 0
      && (forall x :: x in t.ledger[i].1 ==> x in t.streams && Size(t.streams[x].buffer) > 0)
  }

  /** `last_emitted_state` is the last payload written, and no None payload
      is ever written. */
  ghost predicate EmittedOk(t: Target) {
    && t.lastEmitted == (if |t.emitted| == 0 then None else Some(t.emitted[|t.emitted| - 1]))
    && JNull !in t.emitted
  }

  ghost predicate Inv(t: Target) {
    Registry(t) && Shapes(t) && Bounded(t) && Waiting(t) && EmittedOk(t)
  }

  /** The invariant, except that the cache of `s` may have reached the
      batch size: the state in which a RECORD triggers a flush. */
  ghost predicate InvBut(t: Target, s: string) {
    && s in t.streams
    && Registry(t) && Shapes(t) && Waiting(t) && EmittedOk(t)
    && (forall x :: x in t.streams && x != s ==> Size(t.streams[x].buffer) < CacheLimit(t.config))
  }

  /** Writing a payload appends it to the output and makes it the last one
      written; a None payload writes nothing. Nothing else changes. */
  lemma EmitSpec(t: Target, p: Pending)
    requires EmittedOk(t)
    ensures var r := Emit(t, p);
      && EmittedOk(r)
      && r.schemas == t.schemas && r.streams == t.streams && r.ledger == t.ledger && r.db == t.db
      && (p.payload == JNull ==> r == t)
      && (p.payload != JNull ==> r.emitted == t.emitted + [p.payload] && r.lastEmitted == Some(p.payload))
  {
  }

  lemma InitInv(config: Config, db: Db)
    ensures Inv(Init(config, db))
  {
  }

  /** After every cache has been emptied no STATE is left waiting. */
  lemma DrainedLedger(t: Target)
    requires Waiting(t)
    requires forall s :: s in t.streams ==> Size(t.streams[s].buffer) == 0
    ensures t.ledger == []
  {
    if |t.ledger| > 0 {
      HeadIsMember(t.ledger[0].1);
      assert false;
    }
  }

  // ---------------------------------------------------------------------
  // Flushing

  /** The state a successful flush leaves before it writes anything. */
  function Flushed(t: Target, s: string, db: Db): Target
    requires s in t.streams
  {
    var e := t.streams[s];
    t.(db := db, streams := t.streams[s := e.(buffer := Clear(e.buffer))],
       ledger := PopReady(FlushStream(t.ledger, s)).1,
       loaded := t.loaded[s := Count(t.arrived, s)])
  }

  /** A successful flush is the state `Flushed` describes, with the newest
      entry it frees written. */
  lemma FlushShape(t: Target, s: string)
    requires s in t.streams && Flush(t, s).Done?
    ensures Load(t.db, t.streams[s].table, Values(t.streams[s].buffer)).Ok?
    ensures var db := Load(t.db, t.streams[s].table, Values(t.streams[s].buffer)).value;
      var ready, r := PopReady(FlushStream(t.ledger, s)).0, Flushed(t, s, db);
      Flush(t, s).state == if |ready| > 0 then Emit(r, ready[|ready| - 1]) else r
  {
  }

  /** The state a successful flush leaves: only the stream's cache, the
      ledger, the database and the output change. */
  lemma FlushFrame(t: Target, s: string)
    requires s in t.streams && Flush(t, s).Done?
    ensures var r, e := Flush(t, s).state, t.streams[s];
      && r.streams == t.streams[s := e.(buffer := Clear(e.buffer))]
      && r.ledger == PopReady(FlushStream(t.ledger, s)).1
      && (EmittedOk(t) ==> EmittedOk(r))
      && (var ready := PopReady(FlushStream(t.ledger, s)).0;
          r.emitted == if |ready| > 0 then Emit(t, ready[|ready| - 1]).emitted else t.emitted)
  {
    var db := Load(t.db, t.streams[s].table, Values(t.streams[s].buffer)).value;
    FlushShape(t, s);
    FlushedFrame(t, s, db);
  }

  /** The frame of a flush whose load gave `db`. */
  lemma FlushedFrame(t: Target, s: string, db: Db)
    requires s in t.streams
    ensures var ready, f, e := PopReady(FlushStream(t.ledger, s)).0, Flushed(t, s, db), t.streams[s];
      var r := if |ready| > 0 then Emit(f, ready[|ready| - 1]) else f;
      && r.streams == t.streams[s := e.(buffer := Clear(e.buffer))]
      && r.ledger == PopReady(FlushStream(t.ledger, s)).1
      && (EmittedOk(t) ==> EmittedOk(r))
      && r.emitted == if |ready| > 0 then Emit(t, ready[|ready| - 1]).emitted else t.emitted
  {
  }

  /** Dropping a stream from the ledger and popping the ready entries keeps
      every remaining entry waiting on cached streams other than `s`. */
  lemma WaitingAfterFlush(ledger: seq<Entry>, streams: map<string, StreamEntry>, s: string, e: StreamEntry)
    requires forall i :: 0 <= i < |ledger| ==>
      forall x :: x in ledger[i].1 ==> x in streams && Size(streams[x].buffer) > 0
    ensures var rest, after := PopReady(FlushStream(ledger, s)).1, streams[s := e];
      forall i :: 0 <= i < |rest| ==>
        && |rest[i].1| > 0 && s !in rest[i].1
        && (forall x :: x in rest[i].1 ==> x in after && Size(after[x].buffer) > 0)
  {
    var fs := FlushStream(ledger, s);
    var rest := PopReady(fs).1;
    forall i | 0 <= i < |rest|
      ensures |rest[i].1| > 0 && s !in rest[i].1
      ensures forall x :: x in rest[i].1 ==> x in streams[s := e] && Size(streams[s := e][x].buffer) > 0
    {
      assert rest[i] in rest;
      var j :| 0 <= j < |fs| && fs[j] == rest[i];
      forall x | x in rest[i].1
        ensures x in streams[s := e] && Size(streams[s := e][x].buffer) > 0
      {
        assert x in ledger[j].1 && x != s;
      }
    }
  }

  /** A successful flush keeps the invariant (the flushed stream's cache may
      be over the limit beforehand), empties the stream's cache, leaves the
      other streams alone, and no stored STATE waits for the stream any more. */
  lemma FlushInv(t: Target, s: string)
    requires InvBut(t, s) && Flush(t, s).Done?
    ensures var r := Flush(t, s).state;
      && Inv(r)
      && Size(r.streams[s].buffer) == 0
      && (forall x :: x in t.streams && x != s ==> r.streams[x] == t.streams[x])
      && (forall i :: 0 <= i < |r.ledger| ==> s !in r.ledger[i].1)
  {
    var e := t.streams[s];
    var e' := e.(buffer := Clear(e.buffer));
    FlushFrame(t, s);
    WaitingAfterFlush(t.ledger, t.streams, s, e');
    assert Shaped(e');
  }

  /** When the flush frees the entry at position `i` and every later entry
      still waits for another stream, exactly the payload of entry `i` is
      written: the newest STATE that became ready wins, older ones are
      dropped. */
  lemma FlushEmitsNewest(t: Target, s: string, i: nat)
    requires s in t.streams && Flush(t, s).Done?
    requires i < |t.ledger| && forall x :: x in t.ledger[i].1 ==> x == s
    requires forall j :: i < j < |t.ledger| ==> exists x :: x in t.ledger[j].1 && x != s
    ensures var r := Flush(t, s).state;
      && r.emitted == (if t.ledger[i].0.payload == JNull then t.emitted else t.emitted + [t.ledger[i].0.payload])
  {
    var fs := FlushStream(t.ledger, s);
    if |fs[i].1| > 0 {
      HeadIsMember(fs[i].1);
      assert false;
    }
    forall j | i + 1 <= j < |fs|
      ensures |fs[j].1| > 0
    {
      var x :| x in t.ledger[j].1 && x != s;
      assert x in fs[j].1;
    }
    NewestReady(fs, i);
    FlushFrame(t, s);
  }

  /** When every stored STATE still waits for another stream, a flush writes
      nothing and only drops the stream from the ledger. */
  lemma FlushWithoutReady(t: Target, s: string)
    requires s in t.streams && Flush(t, s).Done?
    requires forall j :: 0 <= j < |t.ledger| ==> exists x :: x in t.ledger[j].1 && x != s
    ensures var r := Flush(t, s).state;
      && r.emitted == t.emitted
      && r.ledger == FlushStream(t.ledger, s)
  {
    var fs := FlushStream(t.ledger, s);
    forall j | 0 <= j < |fs|
      ensures |fs[j].1| > 0
    {
      var x :| x in t.ledger[j].1 && x != s;
      assert x in fs[j].1;
    }
    NothingReady(fs);
  }

  /** The invariant, with the caches of the streams before position `i`
      of the registration order empty. */
  ghost predicate DrainedBefore(t: Target, i: nat) {
    && Inv(t) && i <= |t.schemas|
    && (forall j :: 0 <= j < i ==> Size(t.streams[t.schemas[j]].buffer) == 0)
  }

  /** `flush_all_cached_records` from position `i`, when the streams before
      `i` are already empty, empties every cache and releases the whole
      ledger. */
  lemma {:induction false} FlushFromDrains(t: Target, i: nat)
    requires DrainedBefore(t, i) && FlushFrom(t, i).Done?
    ensures Settled(FlushFrom(t, i).state)
    decreases |t.schemas| - i
  {
    if i >= |t.schemas| {
      FlushEnd(t, i);
    } else if Size(t.streams[t.schemas[i]].buffer) > 0 {
      var t1 := FlushNext(t, i);
      FlushFromDrains(t1, i + 1);
    } else {
      FlushSkip(t, i);
      FlushFromDrains(t, i + 1);
    }
  }

  /** The flush-all loop stops after the last registered stream, where
      nothing is cached and no STATE is left waiting. */
  lemma FlushEnd(t: Target, i: nat)
    requires DrainedBefore(t, i) && i >= |t.schemas|
    ensures FlushFrom(t, i) == Done(t) && Settled(t)
  {
    forall s | s in t.streams
      ensures Size(t.streams[s].buffer) == 0
    {
      var j :| 0 <= j < |t.schemas| && t.schemas[j] == s;
    }
    DrainedLedger(t);
  }

  /** The flush-all loop passes over a stream without cached records. */
  lemma FlushSkip(t: Target, i: nat)
    requires DrainedBefore(t, i) && i < |t.schemas|
    requires Size(t.streams[t.schemas[i]].buffer) == 0
    ensures FlushFrom(t, i) == FlushFrom(t, i + 1) && DrainedBefore(t, i + 1)
  {
    var s := t.schemas[i];
    assert !(s in t.streams && Size(t.streams[s].buffer) > 0);
  }

  /** One turn of the flush-all loop on a stream with cached records. */
  lemma FlushNext(t: Target, i: nat) returns (t1: Target)
    requires DrainedBefore(t, i) && i < |t.schemas|
    requires Size(t.streams[t.schemas[i]].buffer) > 0
    requires FlushFrom(t, i).Done?
    ensures FlushFrom(t, i) == FlushFrom(t1, i + 1) && t1.schemas == t.schemas
    ensures DrainedBefore(t1, i + 1)
  {
    var s := t.schemas[i];
    t1 := Flush(t, s).state;
    FlushInv(t, s);
  }

  /** Nothing cached and no STATE waiting. */
  ghost predicate Settled(t: Target) {
    && Inv(t)
    && (forall s :: s in t.streams ==> Size(t.streams[s].buffer) == 0)
    && t.ledger == []
  }

  /** At the end of the input every cache has been loaded and no STATE is
      left waiting. */
  lemma FlushAllDrains(t: Target)
    requires Inv(t) && FlushAll(t).Done?
    ensures Settled(FlushAll(t).state)
  {
    FlushFromDrains(t, 0);
  }

  // ---------------------------------------------------------------------
  // Each message keeps the invariant

  /** Caching a record keeps the cache's shape and never shrinks it, so
      every STATE waiting for the stream still waits on cached records. */
  lemma CacheRecord(t: Target, s: string, row: Row)
    requires Inv(t) && s in t.streams
    ensures var t1 := Cache(t, s, row);
      && InvBut(t1, s)
      && (Size(t1.streams[s].buffer) < CacheLimit(t.config) ==> Inv(t1))
  {
    var e := t.streams[s];
    if e.buffer.Unique? {
      UniqueAddSpec(e.buffer.key, e.buffer.rows, row);
    }
    var e2 := e.(buffer := Add(e.buffer, row));
    assert Shaped(e2);
    GrowEntry(t, Cache(t, s, row), s, e2);
  }

  /** Replacing a stream's entry by a well-shaped one whose cache is no
      smaller keeps the registry, the shapes and the waiting STATEs. */
  lemma GrowEntry(t: Target, t1: Target, s: string, e2: StreamEntry)
    requires Registry(t) && Shapes(t) && Waiting(t) && EmittedOk(t) && s in t.streams
    requires Shaped(e2) && Size(t.streams[s].buffer) <= Size(e2.buffer)
    requires t1.streams == t.streams[s := e2] && t1.schemas == t.schemas && t1.ledger == t.ledger
    requires t1.emitted == t.emitted && t1.lastEmitted == t.lastEmitted
    ensures Registry(t1) && Shapes(t1) && Waiting(t1) && EmittedOk(t1)
  {
  }

  lemma RecordInv(t: Target, msg: Message, now: int, valid: (Json, Json) -> bool)
    requires Inv(t) && ProcessRecord(t, msg, now, valid).Done?
    ensures Inv(ProcessRecord(t, msg, now, valid).state)
  {
    var s := Lookup(msg, "stream").value.s;
    var e := t.streams[s];
    var row := NormalizedRow(e, Lookup(msg, "record").value, t.config.timestampColumn, now, valid).value;
    var t1 := Cache(t, s, row);
    CacheRecord(t, s, row);
    if Size(t1.streams[s].buffer) >= t.config.batchSize {
      FlushInv(t1, s);
    }
  }

  lemma StateInv(t: Target, msg: Message)
    requires Inv(t) && ProcessState(t, msg).Done?
    ensures Inv(ProcessState(t, msg).state)
  {
    var payload := Lookup(msg, "value").value;
    var pending := Unflushed(t.schemas, t.streams);
    var p := Pending(payload, t.arrived, t.received);
    var t1 := t.(received := t.received + 1);
    if |pending| > 0 {
      var r := t1.(ledger := t.ledger + [(p, pending)]);
      assert Waiting(r) by {
        forall i | 0 <= i < |r.ledger|
          ensures |r.ledger[i].1| > 0
          ensures forall x :: x in r.ledger[i].1 ==> x in r.streams && Size(r.streams[x].buffer) > 0
        {
          if i < |t.ledger| {
            assert r.ledger[i] == t.ledger[i];
          }
        }
      }
    } else {
      EmitSpec(t1, p);
    }
  }

  /** A state in which `s` is about to be (re)registered: `s` is in the
      registration order, and no STATE waits for it. */
  ghost predicate ReadyToRegister(t: Target, s: string) {
    && s in t.schemas
    && (forall x :: x in t.schemas <==> x in t.streams || x == s)
    && (forall i, j :: 0 <= i < j < |t.schemas| ==> t.schemas[i] != t.schemas[j])
    && Shapes(t) && Bounded(t) && Waiting(t) && EmittedOk(t)
    && (forall i :: 0 <= i < |t.ledger| ==> s !in t.ledger[i].1)
  }

  lemma RegisterInv(t: Target, s: string, schema: Json, keys: seq<string>, def: TableDef)
    requires ReadyToRegister(t, s)
    ensures Inv(Register(t, s, schema, keys, def))
  {
    var r := Register(t, s, schema, keys, def);
    assert Shaped(r.streams[s]);
    forall i | 0 <= i < |r.ledger|
      ensures forall x :: x in r.ledger[i].1 ==> x in r.streams && Size(r.streams[x].buffer) > 0
    {
      assert s !in t.ledger[i].1;
    }
  }

  lemma FinishSchemaInv(t: Target, s: string, schema: Json, msg: Message)
    requires ReadyToRegister(t, s) && FinishSchema(t, s, schema, msg).Done?
    ensures Inv(FinishSchema(t, s, schema, msg).state)
  {
    var kp := Lookup(msg, "key_properties").value;
    var keys := FlattenKeys(KeyNames(kp).value);
    var def := GenerateTable(s, keys, schema, t.config.timestampColumn).value;
    RegisterInv(t, s, schema, keys, def);
  }

  /** A new stream joins the end of the registration order. */
  lemma NewStreamReady(t: Target, s: string)
    requires Inv(t) && s !in t.schemas
    ensures ReadyToRegister(t.(schemas := t.schemas + [s]), s)
  {
    var t0 := t.(schemas := t.schemas + [s]);
    forall i, j | 0 <= i < j < |t0.schemas|
      ensures t0.schemas[i] != t0.schemas[j]
    {
      if j == |t.schemas| {
        assert t0.schemas[i] == t.schemas[i];
      }
    }
  }

  lemma SchemaInv(t: Target, msg: Message)
    requires Inv(t) && ProcessSchema(t, msg).Done?
    ensures Inv(ProcessSchema(t, msg).state)
  {
    var s := Lookup(msg, "stream").value.s;
    var schema := Lookup(msg, "schema").value;
    if s in t.schemas {
      var t1 := Flush(t, s).state;
      FlushInv(t, s);
      FinishSchemaInv(t1, s, schema, msg);
    } else {
      NewStreamReady(t, s);
      FinishSchemaInv(t.(schemas := t.schemas + [s]), s, schema, msg);
    }
  }

  /** Every message that does not raise keeps the invariant. */
  lemma StepInv(t: Target, msg: Message, now: int, valid: (Json, Json) -> bool)
    requires Inv(t) && Step(t, msg, now, valid).Done?
    ensures Inv(Step(t, msg, now, valid).state)
  {
    var ty := Lookup(msg, "type").value;
    if ty == JStr("RECORD") {
      RecordInv(t, msg, now, valid);
    } else if ty == JStr("STATE") {
      StateInv(t, msg);
    } else if ty == JStr("SCHEMA") {
      SchemaInv(t, msg);
    }
  }

  lemma {:induction false} RunInv(t: Target, msgs: seq<Message>, clock: seq<int>, valid: (Json, Json) -> bool)
    requires |clock| == |msgs| && Inv(t) && Run(t, msgs, clock, valid).Done?
    ensures Inv(Run(t, msgs, clock, valid).state)
    decreases |msgs|
  {
    if |msgs| > 0 {
      var n := |msgs| - 1;
      RunInv(t, msgs[..n], clock[..n], valid);
      StepInv(Run(t, msgs[..n], clock[..n], valid).state, msgs[n], clock[n], valid);
    }
  }

  /** A run that reaches the end of its input leaves nothing cached and no
      STATE unwritten: every payload received was written or superseded by
      a newer one. */
  lemma RunToEndSettles(config: Config, db: Db, msgs: seq<Message>, clock: seq<int>, valid: (Json, Json) -> bool)
    requires |clock| == |msgs| && RunToEnd(config, db, msgs, clock, valid).Done?
    ensures Settled(RunToEnd(config, db, msgs, clock, valid).state)
  {
    RunInv(Init(config, db), msgs, clock, valid);
    FlushAllDrains(Run(Init(config, db), msgs, clock, valid).state);
  }

  // ---------------------------------------------------------------------
  // When a STATE may be written

  /** The record counts: no stream has loaded more records than it cached,
      a stream never registered has cached none, and a stream whose cache is
      empty has loaded every record it cached. */
  ghost predicate Counted(t: Target) {
    && (forall s :: Count(t.loaded, s) <= Count(t.arrived, s))
    && (forall s :: s !in t.streams ==> Count(t.arrived, s) == 0)
    && (forall s :: s in t.streams && Size(t.streams[s].buffer) == 0 ==> Count(t.loaded, s) == Count(t.arrived, s))
  }

  /** The stored STATEs, given the counts cached (`arrived`) and loaded,
      the number of STATE messages received and what has been written: none
      counts more records than have arrived; for every stream an entry no
      longer waits for, every record of that stream that arrived before the
      entry's STATE has been loaded; the entries are nested, in arrival
      order, and newer than every payload written. */
  ghost predicate GateHolds(ledger: seq<Entry>, arrived: map<string, nat>, loaded: map<string, nat>, received: nat, acks: seq<Ack>) {
    && Nests(ledger) && Ordered(ledger)
    && (forall i, s :: 0 <= i < |ledger| ==> Count(ledger[i].0.seen, s) <= Count(arrived, s))
    && (forall i, s :: 0 <= i < |ledger| && s !in ledger[i].1 ==> Count(ledger[i].0.seen, s) <= Count(loaded, s))
    && (forall i :: 0 <= i < |ledger| ==> ledger[i].0.order < received)
    && (forall i, k :: 0 <= i < |ledger| && 0 <= k < |acks| ==> acks[k].state.order < ledger[i].0.order)
  }

  ghost predicate Gated(t: Target) {
    GateHolds(t.ledger, t.arrived, t.loaded, t.received, t.acks)
  }

  /** What has been written: one acknowledgement per output line; when each
      payload was written, every record of every stream that had arrived
      before its STATE message had been loaded; and payloads were written in
      the order their STATE messages arrived. */
  ghost predicate AckHolds(acks: seq<Ack>, emitted: seq<Json>, received: nat) {
    && |acks| == |emitted|
    && (forall k :: 0 <= k < |acks| ==> acks[k].state.payload == emitted[k])
    && (forall k, s :: 0 <= k < |acks| ==> Count(acks[k].state.seen, s) <= Count(acks[k].loaded, s))
    && (forall k, l :: 0 <= k < l < |acks| ==> acks[k].state.order < acks[l].state.order)
    && (forall k :: 0 <= k < |acks| ==> acks[k].state.order < received)
  }

  ghost predicate Acked(t: Target) {
    AckHolds(t.acks, t.emitted, t.received)
  }

  ghost predicate Safe(t: Target) {
    Counted(t) && Gated(t) && Acked(t)
  }

  lemma InitSafe(config: Config, db: Db)
    ensures Safe(Init(config, db))
  {
  }

  /** Writing a payload whose STATE's counts are all loaded, which arrived
      after every payload written so far, keeps the acknowledgements. */
  lemma {:induction false} AckAppend(acks: seq<Ack>, emitted: seq<Json>, received: nat, p: Pending, loaded: map<string, nat>)
    requires AckHolds(acks, emitted, received) && p.order < received
    requires forall s :: Count(p.seen, s) <= Count(loaded, s)
    requires forall k :: 0 <= k < |acks| ==> acks[k].state.order < p.order
    ensures AckHolds(acks + [Ack(p, loaded)], emitted + [p.payload], received)
  {
    var a, w := acks + [Ack(p, loaded)], emitted + [p.payload];
    assert forall k :: 0 <= k < |acks| ==> a[k] == acks[k] && w[k] == emitted[k];
  }

  /** The entries that wait after the ready ones have been popped keep the
      gate. */
  lemma {:induction false} GateSuffix(ledger: seq<Entry>, n: nat, arrived: map<string, nat>, loaded: map<string, nat>, received: nat, acks: seq<Ack>)
    requires GateHolds(ledger, arrived, loaded, received, acks) && n <= |ledger|
    ensures GateHolds(ledger[n..], arrived, loaded, received, acks)
  {
    var r := ledger[n..];
    assert forall i :: 0 <= i < |r| ==> r[i] == ledger[n + i];
    assert Nests(r) by {
      forall i, j, x | 0 <= i < j < |r| && x in r[i].1
        ensures x in r[j].1
      {
        assert x in ledger[n + i].1;
      }
    }
  }

  /** The ledger after loading stream `s`, with `s` dropped from every
      entry, keeps the gate under the new loaded counts. */
  lemma FlushedLedgerGated(t: Target, s: string)
    requires Safe(t) && s in t.streams
    ensures GateHolds(FlushStream(t.ledger, s), t.arrived, t.loaded[s := Count(t.arrived, s)], t.received, t.acks)
  {
    var fs, lo := FlushStream(t.ledger, s), t.loaded[s := Count(t.arrived, s)];
    FlushStreamNests(t.ledger, s);
    assert forall i :: 0 <= i < |fs| ==> fs[i].0 == t.ledger[i].0;
    assert forall x :: x != s ==> Count(lo, x) == Count(t.loaded, x);
    assert Count(lo, s) == Count(t.arrived, s);
    forall i, x | 0 <= i < |fs| && x !in fs[i].1
      ensures Count(fs[i].0.seen, x) <= Count(lo, x)
    {
      if x != s {
        assert x !in t.ledger[i].1;
      }
    }
  }

  lemma FlushedCounted(t: Target, s: string, db: Db)
    requires Counted(t) && s in t.streams
    ensures Counted(Flushed(t, s, db))
  {
    var lo := t.loaded[s := Count(t.arrived, s)];
    assert forall x :: x != s ==> Count(lo, x) == Count(t.loaded, x);
  }

  lemma FlushedSafe(t: Target, s: string, db: Db)
    requires Safe(t) && s in t.streams
    ensures Safe(Flushed(t, s, db))
  {
    var fs, lo := FlushStream(t.ledger, s), t.loaded[s := Count(t.arrived, s)];
    FlushedLedgerGated(t, s);
    ReadyPrefix(fs);
    var n := |PopReady(fs).0|;
    GateSuffix(fs, n, t.arrived, lo, t.received, t.acks);
    var r := Flushed(t, s, db);
    assert r.ledger == fs[n..] && r.loaded == lo && r.arrived == t.arrived;
    assert r.acks == t.acks && r.emitted == t.emitted && r.received == t.received;
    FlushedCounted(t, s, db);
  }

  /** Writing the newest of the first `n` entries, which waits for nothing:
      its counts are all loaded, it is newer than every payload written,
      and the entries after it keep the gate with it acknowledged. */
  lemma {:induction false} GateAfterWrite(fs: seq<Entry>, n: nat, arrived: map<string, nat>, loaded: map<string, nat>, received: nat, acks: seq<Ack>)
    requires GateHolds(fs, arrived, loaded, received, acks) && 0 < n <= |fs| && |fs[n - 1].1| == 0
    ensures var p := fs[n - 1].0;
      && p.order < received
      && (forall x :: Count(p.seen, x) <= Count(loaded, x))
      && (forall k :: 0 <= k < |acks| ==> acks[k].state.order < p.order)
      && GateHolds(fs[n..], arrived, loaded, received, acks + [Ack(p, loaded)])
  {
    var p := fs[n - 1].0;
    forall x
      ensures Count(p.seen, x) <= Count(loaded, x)
    {
      assert x !in fs[n - 1].1;
    }
    GateSuffix(fs, n, arrived, loaded, received, acks);
    var r, a := fs[n..], acks + [Ack(p, loaded)];
    forall i, k | 0 <= i < |r| && 0 <= k < |a|
      ensures a[k].state.order < r[i].0.order
    {
      assert r[i] == fs[n + i];
      assert p.order < fs[n + i].0.order;
    }
  }

  /** Writing a payload that is due keeps the gate. */
  lemma EmitSafe(r: Target, p: Pending)
    requires Counted(r) && Acked(r) && p.order < r.received
    requires forall x :: Count(p.seen, x) <= Count(r.loaded, x)
    requires forall k :: 0 <= k < |r.acks| ==> r.acks[k].state.order < p.order
    requires Gated(r) && GateHolds(r.ledger, r.arrived, r.loaded, r.received, r.acks + [Ack(p, r.loaded)])
    ensures Safe(Emit(r, p))
  {
    if p.payload != JNull {
      AckAppend(r.acks, r.emitted, r.received, p, r.loaded);
    }
  }

  /** The payload a flush writes is the newest entry it frees: every stream
      has loaded the records that entry counts, it arrived after every
      payload written so far, and before every entry still waiting. */
  lemma FlushWriteSafe(t: Target, s: string, db: Db)
    requires Safe(t) && s in t.streams
    ensures var ready, r := PopReady(FlushStream(t.ledger, s)).0, Flushed(t, s, db);
      |ready| > 0 ==> Safe(Emit(r, ready[|ready| - 1]))
  {
    var fs, lo := FlushStream(t.ledger, s), t.loaded[s := Count(t.arrived, s)];
    var ready := PopReady(fs).0;
    var r := Flushed(t, s, db);
    FlushedSafe(t, s, db);
    if |ready| > 0 {
      FlushedLedgerGated(t, s);
      ReadyPrefix(fs);
      var n := |ready|;
      assert ready[n - 1] == fs[n - 1].0 && |fs[n - 1].1| == 0;
      GateAfterWrite(fs, n, t.arrived, lo, t.received, t.acks);
      assert r.ledger == fs[n..] && r.loaded == lo && r.acks == t.acks;
      EmitSafe(r, ready[n - 1]);
    }
  }

  lemma SafeSame(a: Target, b: Target)
    requires Safe(a) && a == b
    ensures Safe(b)
  {
  }

  /** A load that raises leaves the target as it was. */
  lemma FlushAborts(t: Target, s: string)
    requires s in t.streams && Flush(t, s).Abort?
    ensures Flush(t, s).state == t
  {
  }

  /** A flush keeps the gate, and what a successful one writes was due. */
  lemma FlushSafe(t: Target, s: string)
    requires Safe(t) && s in t.streams
    ensures Safe(Flush(t, s).state)
  {
    if Flush(t, s).Abort? {
      FlushAborts(t, s);
      return;
    }
    var db := Load(t.db, t.streams[s].table, Values(t.streams[s].buffer)).value;
    var ready, r := PopReady(FlushStream(t.ledger, s)).0, Flushed(t, s, db);
    FlushShape(t, s);
    if |ready| > 0 {
      FlushWriteSafe(t, s, db);
      SafeSame(Emit(r, ready[|ready| - 1]), Flush(t, s).state);
    } else {
      FlushedSafe(t, s, db);
      SafeSame(r, Flush(t, s).state);
    }
  }

  /** Caching a record counts it and keeps the gate: a stored STATE's count
      of the stream stays within the new total. */
  lemma CacheSafe(t: Target, s: string, row: Row)
    requires Safe(t) && s in t.streams
    ensures var r := Cache(t, s, row);
      && Safe(r)
      && Count(r.arrived, s) == Count(t.arrived, s) + 1
      && (forall x :: x != s ==> Count(r.arrived, x) == Count(t.arrived, x))
  {
    var r := Cache(t, s, row);
    assert forall x :: Count(t.arrived, x) <= Count(r.arrived, x);
  }

  lemma RecordSafe(t: Target, msg: Message, now: int, valid: (Json, Json) -> bool)
    requires Inv(t) && Safe(t)
    ensures Safe(ProcessRecord(t, msg, now, valid).state)
  {
    var r := ProcessRecord(t, msg, now, valid);
    var sv, rv := Lookup(msg, "stream"), Lookup(msg, "record");
    if sv.None? || !sv.value.JStr? || sv.value.s !in t.schemas || sv.value.s !in t.streams || rv.None? {
      SafeSame(t, r.state);
    } else {
      var s := sv.value.s;
      var row := NormalizedRow(t.streams[s], rv.value, t.config.timestampColumn, now, valid);
      if row.Err? {
        SafeSame(t, r.state);
      } else {
        CachedSafe(t, s, row.value);
        assert r == (var t1 := Cache(t, s, row.value);
          if Size(t1.streams[s].buffer) >= t.config.batchSize then Flush(t1, s) else Done(t1));
      }
    }
  }

  /** Caching a record, then flushing when the cache is full, keeps the
      gate whether or not the load raises. */
  lemma CachedSafe(t: Target, s: string, row: Row)
    requires Safe(t) && s in t.streams
    ensures var t1 := Cache(t, s, row);
      Safe((if Size(t1.streams[s].buffer) >= t.config.batchSize then Flush(t1, s) else Done(t1)).state)
  {
    var t1 := Cache(t, s, row);
    CacheSafe(t, s, row);
    if Size(t1.streams[s].buffer) >= t.config.batchSize {
      FlushSafe(t1, s);
    }
  }

  /** A STATE stored behind the cached streams keeps the gate: it waits for
      every stream any older entry waits for, and every stream it does not
      wait for has loaded all it cached. */
  lemma StoreStateSafe(t: Target, p: Pending, pending: seq<string>)
    requires Waiting(t) && Safe(t) && p.seen == t.arrived && p.order == t.received
    requires forall x :: x in t.streams && Size(t.streams[x].buffer) > 0 ==> x in pending
    ensures Safe(t.(received := t.received + 1, ledger := t.ledger + [(p, pending)]))
  {
    var l := t.ledger + [(p, pending)];
    assert forall i :: 0 <= i < |t.ledger| ==> l[i] == t.ledger[i];
    assert Nests(l) by {
      forall i, j, x | 0 <= i < j < |l| && x in l[i].1
        ensures x in l[j].1
      {
        if j == |t.ledger| {
          assert x in t.ledger[i].1;
        }
      }
    }
  }

  /** A STATE written at once, when nothing is cached, was due: every
      stream has loaded all it cached. */
  lemma WriteStateSafe(t: Target, p: Pending)
    requires Safe(t) && p.seen == t.arrived && p.order == t.received && t.ledger == []
    requires forall x :: x in t.streams ==> Size(t.streams[x].buffer) == 0
    ensures Safe(Emit(t.(received := t.received + 1), p))
  {
    var t1 := t.(received := t.received + 1);
    if p.payload != JNull {
      AckAppend(t.acks, t.emitted, t1.received, p, t.loaded);
    }
  }

  lemma StateSafe(t: Target, msg: Message)
    requires Inv(t) && Safe(t)
    ensures Safe(ProcessState(t, msg).state)
  {
    if Lookup(msg, "value").None? {
      SafeSame(t, ProcessState(t, msg).state);
      return;
    }
    var payload := Lookup(msg, "value").value;
    var pending := Unflushed(t.schemas, t.streams);
    var p := Pending(payload, t.arrived, t.received);
    assert forall x :: x in t.streams && Size(t.streams[x].buffer) > 0 ==> x in pending by {
      assert forall x :: x in t.streams ==> x in t.schemas;
    }
    var t1 := t.(received := t.received + 1);
    if |pending| > 0 {
      assert ProcessState(t, msg).state == t1.(ledger := t.ledger + [(p, pending)]);
      StoreStateSafe(t, p, pending);
    } else {
      assert ProcessState(t, msg).state == Emit(t1, p);
      assert forall x :: x in t.streams ==> Size(t.streams[x].buffer) == 0;
      DrainedLedger(t);
      WriteStateSafe(t, p);
    }
  }

  /** The rest of a SCHEMA, on a stream whose cache is empty or which has
      none yet, keeps the gate whether or not it raises. */
  lemma FinishSchemaSafe(t: Target, s: string, schema: Json, msg: Message)
    requires Safe(t) && (s in t.streams ==> Size(t.streams[s].buffer) == 0)
    ensures Safe(FinishSchema(t, s, schema, msg).state)
  {
  }

  lemma SchemaSafe(t: Target, msg: Message)
    requires Inv(t) && Safe(t)
    ensures Safe(ProcessSchema(t, msg).state)
  {
    var r := ProcessSchema(t, msg);
    var sv, sc := Lookup(msg, "stream"), Lookup(msg, "schema");
    if sv.Some? && sc.Some? && IsContainer(sc.value) && Mentions(sc.value, "properties") && sv.value.JStr? {
      var s, schema := sv.value.s, sc.value;
      if s in t.schemas && s in t.streams {
        FlushSafe(t, s);
        if Flush(t, s).Done? {
          var t1 := Flush(t, s).state;
          FlushInv(t, s);
          FinishSchemaSafe(t1, s, schema, msg);
          SafeSame(FinishSchema(t1, s, schema, msg).state, r.state);
        } else {
          SafeSame(Flush(t, s).state, r.state);
        }
      } else if s in t.schemas {
        FinishSchemaSafe(t, s, schema, msg);
        SafeSame(FinishSchema(t, s, schema, msg).state, r.state);
      } else {
        var t1 := t.(schemas := t.schemas + [s]);
        assert s !in t.streams;
        FinishSchemaSafe(t1, s, schema, msg);
        SafeSame(FinishSchema(t1, s, schema, msg).state, r.state);
      }
    } else {
      SafeSame(t, r.state);
    }
  }

  /** Every message keeps the gate, whether or not it raises. */
  lemma StepSafe(t: Target, msg: Message, now: int, valid: (Json, Json) -> bool)
    requires Inv(t) && Safe(t)
    ensures Safe(Step(t, msg, now, valid).state)
  {
    var ty := Lookup(msg, "type");
    if ty.None? {
      SafeSame(t, Step(t, msg, now, valid).state);
    } else if ty.value == JStr("RECORD") {
      RecordSafe(t, msg, now, valid);
    } else if ty.value == JStr("STATE") {
      StateSafe(t, msg);
    } else if ty.value == JStr("SCHEMA") {
      SchemaSafe(t, msg);
    } else {
      SafeSame(t, Step(t, msg, now, valid).state);
    }
  }

  /** A run keeps the gate, also in the state it reached when it raised. */
  lemma {:induction false} RunSafe(t: Target, msgs: seq<Message>, clock: seq<int>, valid: (Json, Json) -> bool)
    requires |clock| == |msgs| && Inv(t) && Safe(t)
    ensures Safe(Run(t, msgs, clock, valid).state)
    decreases |msgs|
  {
    if |msgs| > 0 {
      var n := |msgs| - 1;
      var prev := Run(t, msgs[..n], clock[..n], valid);
      RunSafe(t, msgs[..n], clock[..n], valid);
      if prev.Done? {
        RunInv(t, msgs[..n], clock[..n], valid);
      }
      RunLastSafe(t, msgs, clock, valid);
    }
  }

  /** The last line of a run keeps the gate its prefix kept. */
  lemma RunLastSafe(t: Target, msgs: seq<Message>, clock: seq<int>, valid: (Json, Json) -> bool)
    requires |clock| == |msgs| > 0
    requires Safe(Run(t, msgs[..|msgs| - 1], clock[..|msgs| - 1], valid).state)
    requires Run(t, msgs[..|msgs| - 1], clock[..|msgs| - 1], valid).Done? ==> Inv(Run(t, msgs[..|msgs| - 1], clock[..|msgs| - 1], valid).state)
    ensures Safe(Run(t, msgs, clock, valid).state)
  {
    var n := |msgs| - 1;
    var prev := Run(t, msgs[..n], clock[..n], valid);
    if prev.Done? {
      StepSafe(prev.state, msgs[n], clock[n], valid);
      assert Run(t, msgs, clock, valid) == Step(prev.state, msgs[n], clock[n], valid);
    } else {
      assert Run(t, msgs, clock, valid).state == prev.state;
    }
  }

  lemma {:induction false} FlushFromSafe(t: Target, i: nat)
    requires Safe(t)
    ensures Safe(FlushFrom(t, i).state)
    decreases |t.schemas| - i
  {
    if i < |t.schemas| {
      var s := t.schemas[i];
      if s in t.streams && Size(t.streams[s].buffer) > 0 {
        FlushSafe(t, s);
        if Flush(t, s).Done? {
          FlushFromSafe(Flush(t, s).state, i + 1);
        }
      } else {
        FlushFromSafe(t, i + 1);
      }
    }
  }

  /** A STATE payload is written only once every record that arrived
      before it has been loaded, and payloads are written in the order their
      STATE messages arrived: after a run and its final flush, or in the
      state reached when the target raised, each line written is
      acknowledged with the record counts loaded when it was written, and
      those cover the counts its STATE saw. */
  lemma RunToEndAcked(config: Config, db: Db, msgs: seq<Message>, clock: seq<int>, valid: (Json, Json) -> bool)
    requires |clock| == |msgs|
    ensures var r := RunToEnd(config, db, msgs, clock, valid).state;
      && |r.acks| == |r.emitted|
      && (forall k :: 0 <= k < |r.acks| ==> r.acks[k].state.payload == r.emitted[k])
      && (forall k, s :: 0 <= k < |r.acks| ==> Count(r.acks[k].state.seen, s) <= Count(r.acks[k].loaded, s))
      && (forall k, l :: 0 <= k < l < |r.acks| ==> r.acks[k].state.order < r.acks[l].state.order)
  {
    var t := Init(config, db);
    InitInv(config, db);
    InitSafe(config, db);
    RunSafe(t, msgs, clock, valid);
    if Run(t, msgs, clock, valid).Done? {
      FlushFromSafe(Run(t, msgs, clock, valid).state, 0);
    }
  }

  // ---------------------------------------------------------------------
  // What each kind of message does

  /** No stream has cached records. */
  ghost predicate NothingCached(t: Target) {
    forall x :: x in t.streams ==> Size(t.streams[x].buffer) == 0
  }

  /** A STATE is written at once when no stream has cached records, and
      otherwise stored, waiting for exactly the streams that have some. */
  lemma StateStep(t: Target, msg: Message, payload: Json)
    requires Inv(t) && Lookup(msg, "value") == Some(payload)
    ensures var r := ProcessState(t, msg);
      && r.Done?
      && (NothingCached(t) ==>
            && r.state.ledger == t.ledger
            && r.state.emitted == (if payload == JNull then t.emitted else t.emitted + [payload]))
      && (!NothingCached(t) ==>
            && r.state.emitted == t.emitted
            && |r.state.ledger| == |t.ledger| + 1
            && r.state.ledger[..|t.ledger|] == t.ledger
            && r.state.ledger[|t.ledger|].0.payload == payload
            && (forall x :: x in r.state.ledger[|t.ledger|].1 <==>
                  x in t.streams && Size(t.streams[x].buffer) > 0))
  {
    var pending := Unflushed(t.schemas, t.streams);
    if !NothingCached(t) {
      var x :| x in t.streams && Size(t.streams[x].buffer) != 0;
      assert x in pending;
    } else if |pending| > 0 {
      HeadIsMember(pending);
      assert false;
    }
  }

  /** A RECORD is cached until its stream's cache reaches the batch size;
      then the cache, holding exactly `max(batch_size, 1)` records, is loaded
      and emptied. Nothing else is written before that. */
  lemma RecordStep(t: Target, msg: Message, now: int, valid: (Json, Json) -> bool)
    requires Inv(t) && ProcessRecord(t, msg, now, valid).Done?
    ensures var sv := Lookup(msg, "stream");
      && sv.Some? && sv.value.JStr? && sv.value.s in t.schemas
      && var s, e := sv.value.s, t.streams[sv.value.s];
         var row := NormalizedRow(e, Lookup(msg, "record").value, t.config.timestampColumn, now, valid).value;
         var b, r := Add(e.buffer, row), ProcessRecord(t, msg, now, valid).state;
         && (Size(b) < CacheLimit(t.config) ==>
               r == Cache(t, s, row))
         && (Size(b) >= CacheLimit(t.config) ==>
               && Size(b) == CacheLimit(t.config)
               && Size(r.streams[s].buffer) == 0
               && Load(t.db, e.table, Values(b)) == Ok(r.db))
  {
    RecordShape(t, msg, now, valid);
    var s := Lookup(msg, "stream").value.s;
    var row := NormalizedRow(t.streams[s], Lookup(msg, "record").value, t.config.timestampColumn, now, valid).value;
    CachedStep(t, s, row);
  }

  /** Caching `row` for `s`, then flushing once the cache reaches the batch
      size: below the limit only the cache grows; at it, the cache holds
      exactly the limit, is loaded and emptied. */
  lemma CachedStep(t: Target, s: string, row: Row)
    requires Bounded(t) && s in t.streams
    requires var t1 := Cache(t, s, row);
      Size(t1.streams[s].buffer) >= t.config.batchSize ==> Flush(t1, s).Done?
    ensures var e, t1 := t.streams[s], Cache(t, s, row);
      var b := Add(e.buffer, row);
      var r := if Size(t1.streams[s].buffer) >= t.config.batchSize then Flush(t1, s).state else t1;
      && (Size(b) < CacheLimit(t.config) ==> r == t1)
      && (Size(b) >= CacheLimit(t.config) ==>
            && Size(b) == CacheLimit(t.config)
            && Size(r.streams[s].buffer) == 0
            && Load(t.db, e.table, Values(b)) == Ok(r.db))
  {
    var e, t1 := t.streams[s], Cache(t, s, row);
    assert t1.streams[s].buffer == Add(e.buffer, row);
    if Size(Add(e.buffer, row)) >= CacheLimit(t.config) {
      assert Size(e.buffer) < CacheLimit(t.config);
      FlushShape(t1, s);
      FlushFrame(t1, s);
    }
  }

  /** A RECORD that does not raise names a registered stream and carries a
      record that normalises; it is cached, and flushed once the cache
      reaches the batch size. */
  lemma RecordShape(t: Target, msg: Message, now: int, valid: (Json, Json) -> bool)
    requires ProcessRecord(t, msg, now, valid).Done?
    ensures var sv := Lookup(msg, "stream");
      && sv.Some? && sv.value.JStr? && sv.value.s in t.schemas && sv.value.s in t.streams
      && Lookup(msg, "record").Some?
      && var s := sv.value.s;
         var row := NormalizedRow(t.streams[s], Lookup(msg, "record").value, t.config.timestampColumn, now, valid);
         && row.Ok?
         && var t1 := Cache(t, s, row.value);
            ProcessRecord(t, msg, now, valid) == if Size(t1.streams[s].buffer) >= t.config.batchSize then Flush(t1, s) else Done(t1)
  {
  }

  /** A RECORD for a stream without a schema, or without a stream, raises
      and changes nothing. */
  lemma RecordNeedsSchema(t: Target, msg: Message, now: int, valid: (Json, Json) -> bool)
    requires Registry(t)
    ensures Lookup(msg, "stream").None? ==> ProcessRecord(t, msg, now, valid) == Abort(t, MissingStream)
    ensures var sv := Lookup(msg, "stream");
      sv.Some? && !(sv.value.JStr? && sv.value.s in t.schemas) ==>
        ProcessRecord(t, msg, now, valid) == Abort(t, RecordBeforeSchema(sv.value))
  {
  }

  /** A SCHEMA that does not raise names its stream by a string and has a
      schema that mentions "properties". */
  lemma SchemaNeedsStream(t: Target, msg: Message)
    requires ProcessSchema(t, msg).Done?
    ensures var sv, sc := Lookup(msg, "stream"), Lookup(msg, "schema");
      && sv.Some? && sv.value.JStr?
      && sc.Some? && IsContainer(sc.value) && Mentions(sc.value, "properties")
  {
  }

  /** A SCHEMA that does not raise ends with the registration of its
      stream, after the old cache has been flushed or the new stream
      recorded. */
  lemma SchemaOutcome(t: Target, msg: Message, s: string) returns (t1: Target, keys: seq<string>, def: TableDef)
    requires Inv(t) && Lookup(msg, "stream") == Some(JStr(s)) && ProcessSchema(t, msg).Done?
    ensures s in t.schemas ==> Flush(t, s).Done? && t1 == Flush(t, s).state
    ensures s !in t.schemas ==> t1 == t.(schemas := t.schemas + [s])
    ensures keys == FlattenKeys(KeyNames(Lookup(msg, "key_properties").value).value)
    ensures GenerateTable(s, keys, Lookup(msg, "schema").value, t.config.timestampColumn) == Ok(def)
    ensures ProcessSchema(t, msg) == Done(Register(t1, s, Lookup(msg, "schema").value, keys, def))
  {
    t1 := if s in t.schemas then Flush(t, s).state else t.(schemas := t.schemas + [s]);
    keys := FlattenKeys(KeyNames(Lookup(msg, "key_properties").value).value);
    def := GenerateTable(s, keys, Lookup(msg, "schema").value, t.config.timestampColumn).value;
  }

  /** A SCHEMA registers its stream afresh: the stream joins the end of the
      registration order the first time only, gets an empty cache that is a
      `UniqueRecordBuffer` exactly when it has key properties, and its table
      exists in the database. */
  lemma SchemaRegisters(t: Target, msg: Message, s: string)
    requires Inv(t) && Lookup(msg, "stream") == Some(JStr(s)) && ProcessSchema(t, msg).Done?
    ensures var r := ProcessSchema(t, msg).state;
      && r.schemas == (if s in t.schemas then t.schemas else t.schemas + [s])
      && s in r.streams
      && var e := r.streams[s];
         && Size(e.buffer) == 0
         && (e.buffer.Unique? <==> |e.keys| > 0)
         && e.table.name == TableName(s) && e.table.name in r.db
         && e.keys == FlattenKeys(KeyNames(Lookup(msg, "key_properties").value).value)
  {
    var t1, keys, def := SchemaOutcome(t, msg, s);
  }

  /** A SCHEMA for a registered stream first loads the stream's cache, and
      no stored STATE waits for the stream afterwards. */
  lemma SchemaFlushesFirst(t: Target, msg: Message, s: string)
    requires Inv(t) && Lookup(msg, "stream") == Some(JStr(s)) && ProcessSchema(t, msg).Done?
    ensures s in t.streams ==> Flush(t, s).Done?
    ensures var r := ProcessSchema(t, msg).state;
      forall i :: 0 <= i < |r.ledger| ==> s !in r.ledger[i].1
  {
    var t1, keys, def := SchemaOutcome(t, msg, s);
    if s in t.schemas {
      FlushInv(t, s);
    }
  }

  /** A SCHEMA leaves every other stream as it was. */
  lemma SchemaKeepsOthers(t: Target, msg: Message, s: string)
    requires Inv(t) && Lookup(msg, "stream") == Some(JStr(s)) && ProcessSchema(t, msg).Done?
    ensures var r := ProcessSchema(t, msg).state;
      forall x :: x in t.streams && x != s ==> x in r.streams && r.streams[x] == t.streams[x]
  {
    var t1, keys, def := SchemaOutcome(t, msg, s);
    if s in t.schemas {
      FlushFrame(t, s);
    }
  }

  /** The checks of the SCHEMA branch that come before any change: the
      schema must be something `in` applies to, and must mention
      "properties"; a first SCHEMA without `key_properties` raises after the
      stream has joined the registration order. */
  lemma SchemaRejected(t: Target, msg: Message, s: string, schema: Json)
    requires Lookup(msg, "stream") == Some(JStr(s)) && Lookup(msg, "schema") == Some(schema)
    ensures !IsContainer(schema) ==> ProcessSchema(t, msg) == Abort(t, MalformedSchema)
    ensures IsContainer(schema) && !Mentions(schema, "properties") ==>
      ProcessSchema(t, msg) == Abort(t, SchemaWithoutProperties)
    ensures (IsContainer(schema) && Mentions(schema, "properties") && s !in t.schemas &&
      Lookup(msg, "key_properties").None?) ==>
      ProcessSchema(t, msg) == Abort(t.(schemas := t.schemas + [s]), MissingKeyProperties)
  {
  }

  /** ACTIVATE_VERSION and unknown message types change nothing; a line
      without a type raises. */
  lemma OtherMessagesIgnored(t: Target, msg: Message, now: int, valid: (Json, Json) -> bool)
    ensures Lookup(msg, "type").None? ==> Step(t, msg, now, valid) == Abort(t, MissingType)
    ensures var ty := Lookup(msg, "type");
      ty.Some? && ty.value !in [JStr("RECORD"), JStr("STATE"), JStr("SCHEMA")] ==>
        Step(t, msg, now, valid) == Done(t)
  {
  }
}
