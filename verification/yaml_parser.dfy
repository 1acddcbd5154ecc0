/** internal/parser/yaml.go: from a configuration to a parser, and from a message to tables. */
module YamlParser {
  import opened Common
  import opened Tables
  import opened Explode
  import RowFilter

  // ------------------------------------------------------------ configuration

  /** What a pipeline step may change; steps themselves are opaque. A step can fail after
      having changed the state. */
  datatype Scratch = Scratch(data: seq<int>, fields: Fields)

  datatype StepResult = StepResult(state: Scratch, failed: bool)

  datatype Step = Step(name: string, structural: bool, run: Scratch -> StepResult)

  /** A step factory validates its configuration and returns the step. */
  type Factory = (string, YamlMap) -> Result<Scratch -> StepResult>

  datatype Config = Config(columns: seq<ColumnSchema>, transformations: seq<TransformSpec>, filters: RowFilter.Spec)

  const REGISTERED: set<string> := {
    "decompress", "parse_json", "parse_protobuf", "extract_index", "extract_timestamp", "extract_field",
    "extract_map_entry", "extract_subject", "extract_table", "compute_field", "safe_parse_number", "unpack"
  }

  predicate IsStructuralStep(name: string) {
    name == "decompress" || name == "parse_json" || name == "parse_protobuf" || name == "extract_map_entry" || name == "unpack"
  }

  function ColumnTypeOf(name: string): Option<ColumnType> {
    if name == "timestamp" then Some(Timestamp)
    else if name == "double" then Some(Double)
    else if name == "int64" then Some(Int64)
    else if name == "blob" then Some(Blob)
    else if name == "string" then Some(String)
    else if name == "symbol" then Some(Symbol)
    else None
  }

  /** stringToColumnType falls back to blob. */
  function StringToColumnType(name: string): ColumnType {
    if ColumnTypeOf(name).Some? then ColumnTypeOf(name).value else Blob
  }

  /** Columns exist, and their names are non-empty, unique and of a known type. */
  ghost predicate SchemaValid(columns: seq<ColumnSchema>) {
    && columns != []
    && (forall i :: 0 <= i < |columns| ==> columns[i].name != "" && ColumnTypeOf(columns[i].typeName).Some?)
    && (forall i, j :: 0 <= i < j < |columns| ==> columns[i].name != columns[j].name)
  }

  method ValidateSchema(columns: seq<ColumnSchema>) returns (ok: bool)
    ensures ok <==> SchemaValid(columns)
  {
    if |columns| == 0 {
      return false;
    }
    var seen: set<string> := {};
    for i := 0 to |columns|
      invariant forall k :: 0 <= k < i ==> columns[k].name != "" && ColumnTypeOf(columns[k].typeName).Some?
      invariant forall k, l :: 0 <= k < l < i ==> columns[k].name != columns[l].name
      invariant forall s :: s in seen <==> exists k :: 0 <= k < i && columns[k].name == s
    {
      var column := columns[i];
      if column.name == "" || column.name in seen || ColumnTypeOf(column.typeName).None? {
        return false;
      }
      seen := seen + {column.name};
    }
    return true;
  }

  function ColumnTypes(columns: seq<ColumnSchema>): (ts: seq<ColumnType>)
    ensures |ts| == |columns|
  {
    seq(|columns|, i requires 0 <= i < |columns| => StringToColumnType(columns[i].typeName))
  }

  function WriterColumns(columns: seq<ColumnSchema>): (ws: seq<WriterColumn>)
    ensures |ws| == |columns|
  {
    seq(|columns|, i requires 0 <= i < |columns| =>
      WriterColumn(Terminated(columns[i].name), StringToColumnType(columns[i].typeName).AsValueType()))
  }

  method CreateColumnMapping(columns: seq<ColumnSchema>) returns (writers: seq<WriterColumn>, types: seq<ColumnType>)
    ensures writers == WriterColumns(columns) && types == ColumnTypes(columns)
  {
    writers, types := [], [];
    for i := 0 to |columns|
      invariant writers == WriterColumns(columns)[..i] && types == ColumnTypes(columns)[..i]
    {
      var t := StringToColumnType(columns[i].typeName);
      writers := writers + [WriterColumn(Terminated(columns[i].name), t.AsValueType())];
      types := types + [t];
    }
  }

  /** The internal columns agree with the configured ones, in number, name and type. */
  method ValidateColumnSynchronization(columns: seq<ColumnSchema>, writers: seq<WriterColumn>, types: seq<ColumnType>)
    returns (ok: bool)
    ensures ok <==> writers == WriterColumns(columns) && types == ColumnTypes(columns)
  {
    if |columns| != |writers| || |columns| != |types| {
      return false;
    }
    for i := 0 to |columns|
      invariant writers[..i] == WriterColumns(columns)[..i] && types[..i] == ColumnTypes(columns)[..i]
    {
      var expected := StringToColumnType(columns[i].typeName);
      if Terminated(columns[i].name) != writers[i].name || expected != types[i]
         || expected.AsValueType() != writers[i].columnType {
        assert writers[i] != WriterColumns(columns)[i] || types[i] != ColumnTypes(columns)[i];
        return false;
      }
    }
    assert writers[..|columns|] == writers && types[..|columns|] == types;
    return true;
  }

  function CompileSteps(factory: Factory, specs: seq<TransformSpec>): Result<seq<Step>> {
    if specs == [] then Ok([])
    else
      var last := specs[|specs| - 1];
      var name := last.StepName();
      match CompileSteps(factory, specs[..|specs| - 1])
      case Err(e) => Err(e)
      case Ok(before) =>
        if name !in REGISTERED then Err("unknown transformation step")
        else match factory(name, last.Options())
             case Err(e) => Err(e)
             case Ok(run) => Ok(before + [Step(name, IsStructuralStep(name), run)])
  }

  function CompilePipeline(factory: Factory, specs: seq<TransformSpec>): Result<seq<Step>> {
    if specs == [] then Err("empty transformation pipeline")
    else if !HasStep(specs, "extract_table") then Err("must include an extract_table step")
    else CompileSteps(factory, specs)
  }

  datatype Parser = Parser(
    pipeline: seq<Step>, hasIndexStep: bool, explode: Option<ExplodeSpec>,
    columns: seq<WriterColumn>, columnTypes: seq<ColumnType>, rowFilter: Option<RowFilter.RowFilter>)

  /** The configurations that load, and the parser each one compiles to. */
  ghost function Compile(x: Library, factory: Factory, config: Config): Result<Parser> {
    if !SchemaValid(config.columns) then Err("invalid schema")
    else match SplitExplode(config.transformations)
      case Err(e) => Err(e)
      case Ok((steps, explodeConfig)) =>
        match CompilePipeline(factory, steps)
        case Err(e) => Err(e)
        case Ok(pipeline) =>
          match CompileExplode(x, explodeConfig, steps, config.columns, ColumnTypes(config.columns))
          case Err(e) => Err(e)
          case Ok(explode) =>
            if !ArrayBindingsOk(steps, explode, config.columns) then Err("array bound to no explode")
            else match RowFilter.New(config.filters, WriterColumns(config.columns), ExplodedColumnNames(explode))
              case Err(e) => Err(e)
              case Ok(rowFilter) =>
                Ok(Parser(pipeline, HasStep(steps, "extract_index"), explode,
                          WriterColumns(config.columns), ColumnTypes(config.columns), rowFilter))
  }

  method NewYAMLParserFromConfig(x: Library, factory: Factory, config: Config) returns (r: Result<Parser>)
    ensures r.Ok? <==> Compile(x, factory, config).Ok?
    ensures r.Ok? ==> r == Compile(x, factory, config)
  {
    var valid := ValidateSchema(config.columns);
    if !valid {
      return Err("invalid schema");
    }
    var split := SplitExplode(config.transformations);
    if split.Err? {
      return Err(split.error);
    }
    var (steps, explodeConfig) := split.value;
    var pipeline := CompilePipeline(factory, steps);
    if pipeline.Err? {
      return Err(pipeline.error);
    }
    var columns, types := CreateColumnMapping(config.columns);
    var synchronized := ValidateColumnSynchronization(config.columns, columns, types);
    if !synchronized {
      assert false;
    }
    var explode := CompileExplode(x, explodeConfig, steps, config.columns, types);
    if explode.Err? {
      return Err(explode.error);
    }
    if !ArrayBindingsOk(steps, explode.value, config.columns) {
      return Err("array bound to no explode");
    }
    var rowFilter := RowFilter.NewFilter(config.filters, columns, ExplodedColumnNames(explode.value));
    if rowFilter.Err? {
      return Err(rowFilter.error);
    }
    r := Ok(Parser(pipeline.value, HasStep(steps, "extract_index"), explode.value, columns, types, rowFilter.value));
  }

  // ------------------------------------------------------------ one message

  datatype Outcome = OutcomeOK | OutcomePartial | OutcomeUnusable

  /** errors is the number of step errors. */
  datatype ParseResult = ParseResult(outcome: Outcome, tables: seq<Table>, errors: nat)

  datatype PipelineResult = PipelineResult(state: Scratch, errors: nat, usable: bool)

  /** The steps in order, counting errors and stopping at a failed structural step. */
  function RunSteps(pipeline: seq<Step>, k: nat, state: Scratch, errors: nat): PipelineResult
    requires k <= |pipeline|
    decreases |pipeline| - k
  {
    if k == |pipeline| then PipelineResult(state, errors, true)
    else
      var r := pipeline[k].run(state);
      if !r.failed then RunSteps(pipeline, k + 1, r.state, errors)
      else if pipeline[k].structural then PipelineResult(r.state, errors + 1, false)
      else RunSteps(pipeline, k + 1, r.state, errors + 1)
  }

  predicate ValidTableName(name: string) {
    name != "" && ('a' <= name[0] <= 'z' || 'A' <= name[0] <= 'Z' || '0' <= name[0] <= '9')
  }

  function FieldOf(fields: Fields, name: string): Value {
    if name in fields then fields[name] else Nil
  }

  /** The terminated table name, or None when the message cannot anchor a row. */
  function StructuralFloor(p: Parser, fields: Fields): Option<string> {
    if p.hasIndexStep && !FieldOf(fields, "$timestamp").VTime? then None
    else if !FieldOf(fields, "$table").VString? then None
    else
      var name := TrimTerminator(FieldOf(fields, "$table").s);
      if ValidTableName(name) then Some(Terminated(name)) else None
  }

  const INT64_UNDEFINED: int := -TWO63
  /** The client's minimum timespec, its null timestamp. */
  const MIN_TIMESPEC: int := -TWO63

  function Repeat<T>(v: T, n: nat): (s: seq<T>)
    ensures |s| == n && forall i :: 0 <= i < n ==> s[i] == v
  {
    seq(n, _ => v)
  }

  /** The loop of the broadcast functions, one for every value type. */
  method Broadcast<T(0)>(v: T, n: nat) returns (out: seq<T>)
    ensures out == Repeat(v, n)
  {
    var copies := new T[n];
    for i := 0 to n
      invariant forall k :: 0 <= k < i ==> copies[k] == v
    {
      copies[i] := v;
    }
    out := copies[..];
  }

  /** n copies of a field's value, or of the type's null sentinel when it is missing or mistyped. */
  function Fill(t: ColumnType, v: Value, n: nat): (c: ColumnData)
    ensures c.Type() == t.AsValueType() && c.Length() == n && RowFilter.Constant(c)
  {
    match t
    case Double => Doubles(Repeat(if v.VFloat? then v.f else NaN, n))
    case Int64 => Ints(Repeat(if v.VInt? then v.i else INT64_UNDEFINED, n))
    case Timestamp => Times(Repeat(if v.VTime? then v.t else MIN_TIMESPEC, n))
    case String => Strings(Repeat(if v.VString? then v.s else "", n))
    case Symbol => Strings(Repeat(if v.VString? then v.s else "", n))
    case Blob => Blobs(Repeat(if v.VBytes? then v.bytes else [], n))
  }

  lemma RepeatOnce(v: Value, t: ColumnType)
    ensures Fill(t, v, 1) ==
              match t
              case Double => Doubles([if v.VFloat? then v.f else NaN])
              case Int64 => Ints([if v.VInt? then v.i else INT64_UNDEFINED])
              case Timestamp => Times([if v.VTime? then v.t else MIN_TIMESPEC])
              case String => Strings([if v.VString? then v.s else ""])
              case Symbol => Strings([if v.VString? then v.s else ""])
              case Blob => Blobs([if v.VBytes? then v.bytes else []])
  {
    match t
    case Double => assert Fill(t, v, 1).doubles == [if v.VFloat? then v.f else NaN];
    case Int64 => assert Fill(t, v, 1).ints == [if v.VInt? then v.i else INT64_UNDEFINED];
    case Timestamp => assert Fill(t, v, 1).times == [if v.VTime? then v.t else MIN_TIMESPEC];
    case String => assert Fill(t, v, 1).strings == [if v.VString? then v.s else ""];
    case Symbol => assert Fill(t, v, 1).strings == [if v.VString? then v.s else ""];
    case Blob => assert Fill(t, v, 1).blobs == [if v.VBytes? then v.bytes else []];
  }

  /** Two slices per column, matching in number and client-side type. */
  ghost predicate Consistent(p: Parser) {
    && |p.columnTypes| == |p.columns|
    && (forall i :: 0 <= i < |p.columns| ==> p.columns[i].columnType == p.columnTypes[i].AsValueType())
    && (p.explode.Some? ==>
          && !p.hasIndexStep
          && p.explode.value.targetCol < |p.columns|
          && p.columnTypes[p.explode.value.targetCol] == p.explode.value.targetType
          && (p.explode.value.targetType == Double || p.explode.value.targetType == Int64)
          && (p.explode.value.ordinalCol >= 0 ==>
                p.explode.value.ordinalCol < |p.columns| && p.columnTypes[p.explode.value.ordinalCol] == Int64)
          && IntervalAccepted(p.explode.value.mode))
  }

  function ColumnField(p: Parser, fields: Fields, i: nat): Value
    requires i < |p.columns|
  {
    FieldOf(fields, TrimTerminator(p.columns[i].name))
  }

  /** One row: the parsed timestamp, or now; one value or sentinel in every column. */
  function ScalarTable(p: Parser, fields: Fields, name: string, now: int): Table
    requires |p.columnTypes| == |p.columns|
  {
    var ts := FieldOf(fields, "$timestamp");
    Table(name, p.columns, [if ts.VTime? then ts.t else now],
          seq(|p.columns|, i requires 0 <= i < |p.columns| => Fill(p.columnTypes[i], ColumnField(p, fields, i), 1)))
  }

  function Ordinals(n: nat): seq<int> {
    seq(n, j => j)
  }

  /** Column i of an exploded table: the samples, the ordinals, or n copies. */
  function ExplodedColumn(p: Parser, e: ExplodeSpec, fields: Fields, inputs: ExplodeInputs, i: nat): ColumnData
    requires |p.columnTypes| == |p.columns| && i < |p.columns|
  {
    if i == e.targetCol then inputs.samples.Data()
    else if i == e.ordinalCol then Ints(Ordinals(inputs.n))
    else Fill(p.columnTypes[i], ColumnField(p, fields, i), inputs.n)
  }

  function ExplodedTable(p: Parser, e: ExplodeSpec, fields: Fields, name: string, inputs: ExplodeInputs): Table
    requires |p.columnTypes| == |p.columns|
  {
    Table(name, p.columns, ExplodedIndex(inputs.start, inputs.interval, inputs.n),
          seq(|p.columns|, i requires 0 <= i < |p.columns| => ExplodedColumn(p, e, fields, inputs, i)))
  }

  /** Classification and tables of one message. */
  ghost function Parsed(x: Library, p: Parser, data: seq<int>, now: int): ParseResult
    requires Consistent(p)
  {
    if data == [] then ParseResult(OutcomeUnusable, [], 1)
    else
      var run := RunSteps(p.pipeline, 0, Scratch(data, map[]), 0);
      var fields, errors := run.state.fields, run.errors;
      var outcome := if errors > 0 then OutcomePartial else OutcomeOK;
      var name := StructuralFloor(p, fields);
      if !run.usable then ParseResult(OutcomeUnusable, [], errors)
      else if name.None? then ParseResult(OutcomeUnusable, [], errors + 1)
      else if p.explode.None? then ParseResult(outcome, [ScalarTable(p, fields, name.value, now)], errors)
      else
        var e := p.explode.value;
        match ResolveInputs(x, e, fields)
        case Err(_) => ParseResult(OutcomeUnusable, [], errors + 1)
        case Ok(inputs) =>
          ParseResult(outcome, if inputs.n == 0 then [] else [ExplodedTable(p, e, fields, name.value, inputs)], errors)
  }

  /** The state of one Parse call: what the steps change, and one buffer per value type with
      a slot for every column. */
  class ParseState {
    var scratch: Scratch
    var errors: nat
    const indexBuf: array<int>
    const doubleVals: array<Float>
    const int64Vals: array<int>
    const timestampVals: array<int>
    const stringVals: array<string>
    const blobVals: array<seq<int>>

    constructor (columns: nat, data: seq<int>)
      ensures scratch == Scratch(data, map[]) && errors == 0 && Sized(columns)
      ensures fresh(indexBuf) && fresh(doubleVals) && fresh(int64Vals) && fresh(timestampVals)
      ensures fresh(stringVals) && fresh(blobVals)
    {
      scratch, errors := Scratch(data, map[]), 0;
      indexBuf := new int[1](_ => 0);
      doubleVals := new Float[columns](_ => Finite(0, 0));
      int64Vals := new int[columns](_ => 0);
      timestampVals := new int[columns](_ => 0);
      stringVals := new string[columns](_ => "");
      blobVals := new seq<int>[columns](_ => []);
    }

    predicate Sized(columns: nat) {
      && indexBuf.Length == 1
      && doubleVals.Length == int64Vals.Length == timestampVals.Length == columns
      && stringVals.Length == blobVals.Length == columns
    }

    method RunPipeline(p: Parser) returns (usable: bool)
      modifies this`scratch, this`errors
      ensures PipelineResult(scratch, errors, usable) == RunSteps(p.pipeline, 0, old(scratch), old(errors))
    {
      for k := 0 to |p.pipeline|
        invariant RunSteps(p.pipeline, k, scratch, errors) == RunSteps(p.pipeline, 0, old(scratch), old(errors))
      {
        var r := p.pipeline[k].run(scratch);
        scratch := r.state;
        if r.failed {
          errors := errors + 1;
          if p.pipeline[k].structural {
            return false;
          }
        }
      }
      return true;
    }

    /** The one-value column i, stored in the slot of its type on the way. Err is the
        buffer-overflow report of the original. */
    method ScalarColumn(p: Parser, i: nat) returns (r: Result<ColumnData>)
      requires Consistent(p) && i < |p.columns| && Sized(|p.columns|)
      modifies doubleVals, int64Vals, timestampVals, stringVals, blobVals
      ensures r == Ok(Fill(p.columnTypes[i], ColumnField(p, scratch.fields, i), 1))
    {
      var value := ColumnField(p, scratch.fields, i);
      RepeatOnce(value, p.columnTypes[i]);
      match p.columnTypes[i] {
        case Double =>
          if i >= doubleVals.Length { return Err("buffer overflow"); }
          doubleVals[i] := if value.VFloat? then value.f else NaN;
          r := Ok(Doubles([doubleVals[i]]));
        case Int64 =>
          if i >= int64Vals.Length { return Err("buffer overflow"); }
          int64Vals[i] := if value.VInt? then value.i else INT64_UNDEFINED;
          r := Ok(Ints([int64Vals[i]]));
        case Timestamp =>
          if i >= timestampVals.Length { return Err("buffer overflow"); }
          timestampVals[i] := if value.VTime? then value.t else MIN_TIMESPEC;
          r := Ok(Times([timestampVals[i]]));
        case String =>
          if i >= stringVals.Length { return Err("buffer overflow"); }
          stringVals[i] := if value.VString? then value.s else "";
          r := Ok(Strings([stringVals[i]]));
        case Symbol =>
          if i >= stringVals.Length { return Err("buffer overflow"); }
          stringVals[i] := if value.VString? then value.s else "";
          r := Ok(Strings([stringVals[i]]));
        case Blob =>
          if i >= blobVals.Length { return Err("buffer overflow"); }
          blobVals[i] := if value.VBytes? then value.bytes else [];
          r := Ok(Blobs([blobVals[i]]));
      }
    }

    method CreateWriterTable(p: Parser, name: string, now: int) returns (r: Result<Table>)
      requires Consistent(p) && Sized(|p.columns|)
      modifies indexBuf, doubleVals, int64Vals, timestampVals, stringVals, blobVals
      ensures r == Ok(ScalarTable(p, scratch.fields, name, now))
    {
      var ts := FieldOf(scratch.fields, "$timestamp");
      if indexBuf.Length == 0 {
        return Err("indexBuf is empty");
      }
      indexBuf[0] := if ts.VTime? then ts.t else now;
      var table := NewTable(name, p.columns).(index := indexBuf[..]);
      ghost var goal := ScalarTable(p, scratch.fields, name, now);
      for i := 0 to |p.columns|
        invariant table.name == name && table.columns == p.columns && table.index == goal.index
        invariant |table.data| == |p.columns| && table.data[..i] == goal.data[..i]
      {
        var column := ScalarColumn(p, i);
        var updated := table.SetData(i, column.value);
        if updated.Err? {
          assert false;
        }
        table := updated.value;
      }
      assert table.data == goal.data;
      r := Ok(table);
    }

    method CreateExplodedWriterTable(p: Parser, name: string, inputs: ExplodeInputs) returns (r: Result<Table>)
      requires Consistent(p) && p.explode.Some?
      requires inputs.n == inputs.samples.Data().Length() && inputs.samples.Data().Type() == p.explode.value.targetType
      ensures r == Ok(ExplodedTable(p, p.explode.value, scratch.fields, name, inputs))
    {
      var e := p.explode.value;
      var index := BuildExplodedIndex(inputs.start, inputs.interval, inputs.n);
      var table := NewTable(name, p.columns).(index := index);
      ghost var goal := ExplodedTable(p, e, scratch.fields, name, inputs);
      for i := 0 to |p.columns|
        invariant table.name == name && table.columns == p.columns && table.index == goal.index
        invariant |table.data| == |p.columns| && table.data[..i] == goal.data[..i]
      {
        var column := SetExplodedColumn(p, i, inputs);
        if column.Err? {
          assert false;
        }
        var updated := table.SetData(i, column.value);
        if updated.Err? {
          assert false;
        }
        table := updated.value;
      }
      assert table.data == goal.data;
      r := Ok(table);
    }

    /** Routes output column i to its role; the target's length is asserted on the way. */
    method SetExplodedColumn(p: Parser, i: nat, inputs: ExplodeInputs) returns (r: Result<ColumnData>)
      requires Consistent(p) && p.explode.Some? && i < |p.columns|
      requires inputs.n == inputs.samples.Data().Length() && inputs.samples.Data().Type() == p.explode.value.targetType
      ensures r == Ok(ExplodedColumn(p, p.explode.value, scratch.fields, inputs, i))
      ensures r.value.Type() == p.columns[i].columnType
    {
      var e := p.explode.value;
      if i == e.targetCol {
        if inputs.samples.Data().Length() != inputs.n {
          return Err("exploded column length differs from the row count");
        }
        return Ok(inputs.samples.Data());
      }
      if i == e.ordinalCol {
        var ord := new int[inputs.n];
        for j := 0 to inputs.n
          invariant forall k :: 0 <= k < j ==> ord[k] == k
        {
          ord[j] := j;
        }
        assert ord[..] == Ordinals(inputs.n);
        return Ok(Ints(ord[..]));
      }
      var column := SetBroadcastColumn(p, i, inputs.n);
      r := Ok(column);
    }

    /** n copies of the column's scalar field, or of the null sentinel of its type. */
    method SetBroadcastColumn(p: Parser, i: nat, n: nat) returns (c: ColumnData)
      requires Consistent(p) && i < |p.columns|
      ensures c == Fill(p.columnTypes[i], ColumnField(p, scratch.fields, i), n)
    {
      var value := ColumnField(p, scratch.fields, i);
      match p.columnTypes[i] {
        case Double =>
          var out := Broadcast(if value.VFloat? then value.f else NaN, n);
          c := Doubles(out);
        case Int64 =>
          var out := Broadcast(if value.VInt? then value.i else INT64_UNDEFINED, n);
          c := Ints(out);
        case Timestamp =>
          var out := Broadcast(if value.VTime? then value.t else MIN_TIMESPEC, n);
          c := Times(out);
        case String =>
          var out := Broadcast(if value.VString? then value.s else "", n);
          c := Strings(out);
        case Symbol =>
          var out := Broadcast(if value.VString? then value.s else "", n);
          c := Strings(out);
        case Blob =>
          var out := Broadcast(if value.VBytes? then value.bytes else [], n);
          c := Blobs(out);
      }
    }
  }

  /** Parse: nil messages are errors; every other message is classified. */
  method Parse(x: Library, p: Parser, message: Option<seq<int>>, now: int) returns (r: Result<ParseResult>)
    requires Consistent(p)
    ensures r == if message.None? then Err("nil message") else Ok(Parsed(x, p, message.value, now))
  {
    if message.None? {
      return Err("nil message");
    }
    if |message.value| == 0 {
      return Ok(ParseResult(OutcomeUnusable, [], 1));
    }
    var st := new ParseState(|p.columns|, message.value);
    var usable := st.RunPipeline(p);
    if !usable {
      return Ok(ParseResult(OutcomeUnusable, [], st.errors));
    }
    var name := StructuralFloor(p, st.scratch.fields);
    if name.None? {
      return Ok(ParseResult(OutcomeUnusable, [], st.errors + 1));
    }
    var outcome := if st.errors > 0 then OutcomePartial else OutcomeOK;
    var table;
    if p.explode.None? {
      table := st.CreateWriterTable(p, name.value, now);
    } else {
      var inputs := ResolveInputs(x, p.explode.value, st.scratch.fields);
      if inputs.Err? {
        return Ok(ParseResult(OutcomeUnusable, [], st.errors + 1));
      }
      if inputs.value.n == 0 {
        return Ok(ParseResult(outcome, [], st.errors));
      }
      table := st.CreateExplodedWriterTable(p, name.value, inputs.value);
    }
    if table.Err? {
      assert false;
    }
    r := Ok(ParseResult(outcome, [table.value], st.errors));
  }

  // ------------------------------------------------------------ what accepted configurations promise

  /** The configuration loads and compiles to p. */
  ghost predicate Loads(x: Library, factory: Factory, config: Config, p: Parser) {
    x.Valid() && Compile(x, factory, config) == Ok(p)
  }

  /** No filter predicate looks at the target or the ordinal column. */
  ghost predicate FilterAvoidsSamples(p: Parser) {
    p.explode.Some? && p.rowFilter.Some? ==>
      forall k :: 0 <= k < |p.rowFilter.value.matches| ==>
        var offset := p.rowFilter.value.matches[k].offset;
        offset < |p.columns| && offset != p.explode.value.targetCol && offset != p.explode.value.ordinalCol
  }

  /** The configuration ends with an explode step that has a configuration block. */
  predicate HasExplode(config: Config) {
    var specs := config.transformations;
    specs != [] && specs[|specs| - 1].StepName() == "explode" && specs[|specs| - 1].config.Some?
  }

  lemma {:induction false} NoStepCounted(specs: seq<TransformSpec>, name: string)
    requires CountSteps(specs, name) == 0
    ensures forall i :: 0 <= i < |specs| ==> specs[i].StepName() != name
  {
    if specs != [] {
      NoStepCounted(specs[1..], name);
    }
  }

  /** An explode step without a configuration block is dropped without an error: the loaded
      parser explodes exactly if the block is there. */
  lemma ExplodesExactly(x: Library, factory: Factory, config: Config, p: Parser)
    requires Loads(x, factory, config, p)
    ensures p.explode.Some? <==> HasExplode(config)
  {
    SplitFindsExplode(config);
  }

  lemma SplitFindsExplode(config: Config)
    requires SplitExplode(config.transformations).Ok?
    ensures SplitExplode(config.transformations).value.1.Some? <==> HasExplode(config)
  {
    var specs := config.transformations;
    if CountSteps(specs, "explode") == 0 {
      NoStepCounted(specs, "explode");
    }
  }

  lemma LoadedIsConsistent(x: Library, factory: Factory, config: Config, p: Parser)
    requires Loads(x, factory, config, p)
    ensures Consistent(p)
  {
    var (steps, explodeConfig) := SplitExplode(config.transformations).value;
    CompiledIsConsistent(x, explodeConfig, steps, config.columns, p);
  }

  lemma CompiledIsConsistent(x: Library, cfg: Option<YamlMap>, steps: seq<TransformSpec>, columns: seq<ColumnSchema>, p: Parser)
    requires x.Valid() && SchemaValid(columns)
    requires p.columns == WriterColumns(columns) && p.columnTypes == ColumnTypes(columns)
    requires p.hasIndexStep == HasStep(steps, "extract_index")
    requires CompileExplode(x, cfg, steps, columns, ColumnTypes(columns)) == Ok(p.explode)
    ensures Consistent(p)
  {
    if cfg.Some? {
      CompileExplodeSound(x, cfg.value, steps, columns, ColumnTypes(columns));
    }
  }

  /** A predicate's column is found by name, and names are unique. */
  lemma OffsetsFollowNames(columns: seq<ColumnSchema>, e: ExplodeSpec, filters: RowFilter.Spec)
    requires SchemaValid(columns) && Compiled(e, columns, ColumnTypes(columns))
    requires RowFilter.New(filters, WriterColumns(columns), ExplodedColumnNames(Some(e))).Ok?
    ensures var f := RowFilter.New(filters, WriterColumns(columns), ExplodedColumnNames(Some(e))).value;
            f.Some? ==> forall k :: 0 <= k < |f.value.matches| ==>
              var offset := f.value.matches[k].offset;
              offset < |columns| && offset != e.targetCol && offset != e.ordinalCol
  {
    var f := RowFilter.New(filters, WriterColumns(columns), ExplodedColumnNames(Some(e))).value;
    if f.Some? {
      forall k | 0 <= k < |f.value.matches|
        ensures var offset := f.value.matches[k].offset;
                offset < |columns| && offset != e.targetCol && offset != e.ordinalCol
      {
        var offset := f.value.matches[k].offset;
        TrimInvertsTerminate(columns[offset].name);
        assert columns[offset].name == filters.entries[k].column;
        assert e.targetName in ExplodedColumnNames(Some(e));
      }
    }
  }

  lemma LoadedFilterAvoidsSamples(x: Library, factory: Factory, config: Config, p: Parser)
    requires Loads(x, factory, config, p)
    ensures FilterAvoidsSamples(p)
  {
    var (steps, explodeConfig) := SplitExplode(config.transformations).value;
    if explodeConfig.Some? {
      CompileExplodeSound(x, explodeConfig.value, steps, config.columns, ColumnTypes(config.columns));
      OffsetsFollowNames(config.columns, p.explode.value, config.filters);
    }
  }

  /** What a loaded parser guarantees. */
  ghost predicate Ready(p: Parser) {
    Consistent(p) && FilterAvoidsSamples(p)
  }

  lemma LoadedIsReady(x: Library, factory: Factory, config: Config, p: Parser)
    requires Loads(x, factory, config, p)
    ensures Ready(p)
  {
    LoadedIsConsistent(x, factory, config, p);
    LoadedFilterAvoidsSamples(x, factory, config, p);
  }

  /** Shape, type and routing of one emitted table. */
  ghost predicate WellFormed(p: Parser, t: Table, n: nat) {
    && t.columns == p.columns && t.Shaped(n) && n > 0
    && exists name :: ValidTableName(name) && t.name == Terminated(name)
  }

  lemma ScalarTableShaped(p: Parser, fields: Fields, now: int)
    requires Consistent(p) && StructuralFloor(p, fields).Some?
    ensures WellFormed(p, ScalarTable(p, fields, StructuralFloor(p, fields).value, now), 1)
  {
    assert ValidTableName(TrimTerminator(FieldOf(fields, "$table").s));
  }

  lemma ExplodedTableShaped(x: Library, p: Parser, fields: Fields)
    requires Consistent(p) && p.explode.Some? && StructuralFloor(p, fields).Some?
    requires ResolveInputs(x, p.explode.value, fields).Ok? && ResolveInputs(x, p.explode.value, fields).value.n > 0
    ensures var inputs := ResolveInputs(x, p.explode.value, fields).value;
            WellFormed(p, ExplodedTable(p, p.explode.value, fields, StructuralFloor(p, fields).value, inputs), inputs.n)
  {
    assert ValidTableName(TrimTerminator(FieldOf(fields, "$table").s));
    var e, inputs := p.explode.value, ResolveInputs(x, p.explode.value, fields).value;
    forall i | 0 <= i < |p.columns|
      ensures ExplodedColumn(p, e, fields, inputs, i).Type() == p.columns[i].columnType.AsValueType()
      ensures ExplodedColumn(p, e, fields, inputs, i).Length() == inputs.n
    {
    }
  }

  /** The fields a message leaves after the pipeline. */
  ghost function FinalFields(p: Parser, data: seq<int>): Fields {
    RunSteps(p.pipeline, 0, Scratch(data, map[]), 0).state.fields
  }

  /** The number of rows of an emitted table: one, or the array length. */
  ghost function RowsPerMessage(x: Library, p: Parser, data: seq<int>): nat
    requires Consistent(p)
  {
    if p.explode.None? then 1
    else match ResolveInputs(x, p.explode.value, FinalFields(p, data))
         case Err(_) => 0
         case Ok(inputs) => inputs.n
  }

  lemma ParsedIsShaped(x: Library, p: Parser, data: seq<int>, now: int)
    requires Consistent(p)
    ensures var r := Parsed(x, p, data, now);
            && |r.tables| <= 1 && (r.outcome == OutcomeUnusable ==> r.tables == [])
            && forall t :: t in r.tables ==> WellFormed(p, t, RowsPerMessage(x, p, data))
  {
    var fields := FinalFields(p, data);
    if StructuralFloor(p, fields).Some? {
      if p.explode.None? {
        ScalarTableShaped(p, fields, now);
      } else if ResolveInputs(x, p.explode.value, fields).Ok? && ResolveInputs(x, p.explode.value, fields).value.n > 0 {
        ExplodedTableShaped(x, p, fields);
      }
    }
  }

  /** Shape and type soundness: for every accepted configuration and every message, at most
      one table is emitted, none when the message is unusable; it is routed to a valid name
      and has n > 0 index entries and exactly n values of the declared type in every column,
      n being 1 for scalar configurations and the array length for explode. */
  lemma EmittedTablesAreShaped(x: Library, factory: Factory, config: Config, p: Parser, data: seq<int>, now: int)
    requires Loads(x, factory, config, p)
    ensures Consistent(p) && p.columns == WriterColumns(config.columns)
    ensures var r := Parsed(x, p, data, now);
            && |r.tables| <= 1 && (r.outcome == OutcomeUnusable ==> r.tables == [])
            && forall t :: t in r.tables ==> WellFormed(p, t, RowsPerMessage(x, p, data))
  {
    LoadedIsConsistent(x, factory, config, p);
    ParsedIsShaped(x, p, data, now);
  }

  /** The time axis of the inputs: anchored at start, and strictly increasing by the positive
      interval exactly while the last offset fits in int64. */
  ghost predicate SoundAxis(axis: seq<int>, inputs: ExplodeInputs) {
    && 0 < inputs.interval <= MAX_INT64 && |axis| == inputs.n > 0 && axis[0] == inputs.start
    && (StrictlyIncreasing(axis) <==> (inputs.n - 1) * inputs.interval <= MAX_INT64)
    && (StrictlyIncreasing(axis) ==> forall i :: 0 <= i < inputs.n ==> axis[i] == IteratedSum(inputs.start, inputs.interval, i))
  }

  lemma ResolvedAxisIsSound(x: Library, e: ExplodeSpec, fields: Fields)
    requires x.Valid() && IntervalAccepted(e.mode) && ResolveInputs(x, e, fields).Ok? && ResolveInputs(x, e, fields).value.n > 0
    ensures var inputs := ResolveInputs(x, e, fields).value;
            SoundAxis(ExplodedIndex(inputs.start, inputs.interval, inputs.n), inputs)
  {
    var inputs := ResolveInputs(x, e, fields).value;
    ResolvedIntervalPositive(x, e, fields, inputs.n);
    AxisIncreasesExactly(inputs.start, inputs.interval, inputs.n);
    if (inputs.n - 1) * inputs.interval <= MAX_INT64 {
      AxisIsExact(inputs.start, inputs.interval, inputs.n);
    }
  }

  /** Every table emitted under an accepted explode configuration has a sound time axis. */
  lemma EmittedAxisIsSound(x: Library, factory: Factory, config: Config, p: Parser, data: seq<int>, now: int)
    requires Loads(x, factory, config, p) && p.explode.Some?
    ensures Consistent(p)
    ensures forall t :: t in Parsed(x, p, data, now).tables ==>
              SoundAxis(t.index, ResolveInputs(x, p.explode.value, FinalFields(p, data)).value)
  {
    LoadedIsConsistent(x, factory, config, p);
    var e, fields := p.explode.value, FinalFields(p, data);
    if ResolveInputs(x, e, fields).Ok? && ResolveInputs(x, e, fields).value.n > 0 {
      ResolvedAxisIsSound(x, e, fields);
    }
  }

  /** t is a table that the parser emits for some message. */
  ghost predicate Emitted(x: Library, p: Parser, t: Table)
    requires Consistent(p)
  {
    exists data: seq<int>, now: int :: t in Parsed(x, p, data, now).tables
  }

  lemma FilteredColumnsAreConstant(x: Library, p: Parser, t: Table)
    requires Ready(p) && Emitted(x, p, t)
    ensures t.Shaped(|t.index|)
    ensures p.rowFilter.Some? ==> RowFilter.LooksAtConstants(p.rowFilter.value, t)
  {
    var data: seq<int>, now: int :| t in Parsed(x, p, data, now).tables;
    ParsedIsShaped(x, p, data, now);
  }

  /** Row-0 filtering is exact: for every accepted configuration and any tables its parser
      emits, filtering the tables by their first rows keeps the same rows, in order, as
      splitting them into one-row tables and filtering each row. */
  lemma RowZeroFilteringIsExact(x: Library, factory: Factory, config: Config, p: Parser, tables: seq<Table>)
    requires Loads(x, factory, config, p) && Consistent(p)
    requires forall k :: 0 <= k < |tables| ==> Emitted(x, p, tables[k])
    ensures AllShaped(tables) && AllShaped(RowFilter.Kept(p.rowFilter, tables))
    ensures RowFilter.Kept(p.rowFilter, AllRows(tables)) == AllRows(RowFilter.Kept(p.rowFilter, tables))
  {
    LoadedFilterAvoidsSamples(x, factory, config, p);
    forall k | 0 <= k < |tables|
      ensures tables[k].Shaped(|tables[k].index|)
      ensures p.rowFilter.Some? ==> RowFilter.LooksAtConstants(p.rowFilter.value, tables[k])
    {
      FilteredColumnsAreConstant(x, p, tables[k]);
    }
    if p.rowFilter.Some? {
      RowFilter.RowZeroIsExact(p.rowFilter.value, tables);
    }
  }

  lemma ColumnAt(columns: seq<ColumnSchema>, i: nat)
    requires i < |columns|
    ensures TrimTerminator(WriterColumns(columns)[i].name) == columns[i].name
    ensures WriterColumns(columns)[i].columnType == StringToColumnType(columns[i].typeName).AsValueType()
  {
    TrimInvertsTerminate(columns[i].name);
  }

  lemma LastOrBefore(ws: seq<WriterColumn>, n: nat, name: string)
    requires 0 < n <= |ws|
    ensures RowFilter.OffsetOf(ws[..n], name) ==
              if TrimTerminator(ws[n - 1].name) == name then Some(n - 1) else RowFilter.OffsetOf(ws[..n - 1], name)
  {
    assert ws[..n][..n - 1] == ws[..n - 1];
  }

  /** Position n - 1 or less is the last one where a name is found. */
  lemma {:induction false} OffsetUpTo(ws: seq<WriterColumn>, n: nat, name: string)
    requires n <= |ws|
    requires forall i, j :: 0 <= i < j < |ws| ==> TrimTerminator(ws[i].name) != TrimTerminator(ws[j].name)
    ensures forall i :: 0 <= i < n && TrimTerminator(ws[i].name) == name ==> RowFilter.OffsetOf(ws[..n], name) == Some(i)
    ensures (forall i :: 0 <= i < n ==> TrimTerminator(ws[i].name) != name) ==> RowFilter.OffsetOf(ws[..n], name) == None
  {
    if n > 0 {
      LastOrBefore(ws, n, name);
      OffsetUpTo(ws, n - 1, name);
    }
  }

  /** In a valid schema a name is found at the position of its column. */
  lemma OffsetInSchema(columns: seq<ColumnSchema>, name: string)
    requires SchemaValid(columns)
    ensures forall i :: 0 <= i < |columns| && columns[i].name == name ==> RowFilter.OffsetOf(WriterColumns(columns), name) == Some(i)
    ensures (forall i :: 0 <= i < |columns| ==> columns[i].name != name) ==> RowFilter.OffsetOf(WriterColumns(columns), name) == None
  {
    var ws := WriterColumns(columns);
    forall i | 0 <= i < |columns|
      ensures TrimTerminator(ws[i].name) == columns[i].name
    {
      ColumnAt(columns, i);
    }
    OffsetUpTo(ws, |ws|, name);
    assert ws[..|ws|] == ws;
  }

  /** The values a filter accepts for a column of a declared type. */
  predicate Comparable(typeName: string, value: Yaml) {
    (typeName == "int64" && value.YInt?) || ((typeName == "string" || typeName == "symbol") && value.YString?)
  }

  lemma ComparesByType(column: ColumnSchema, value: Yaml)
    requires ColumnTypeOf(column.typeName).Some?
    ensures Comparable(column.typeName, value) <==>
              match StringToColumnType(column.typeName).AsValueType()
              case Int64 => value.YInt?
              case String => value.YString?
              case _ => false
  {}

  /** The filter of an accepted schema accepts a predicate if and only if it names a column
      that is not exploded, with an integer for int64 and a string for string or symbol. */
  lemma AcceptableBySchema(columns: seq<ColumnSchema>, entry: RowFilter.MatchEntry, exploded: seq<string>)
    requires SchemaValid(columns)
    ensures RowFilter.Acceptable(entry, WriterColumns(columns), exploded) <==>
              && entry.column !in exploded
              && exists i :: 0 <= i < |columns| && columns[i].name == entry.column && Comparable(columns[i].typeName, entry.value)
  {
    OffsetInSchema(columns, entry.column);
    if i :| 0 <= i < |columns| && columns[i].name == entry.column {
      ColumnAt(columns, i);
      ComparesByType(columns[i], entry.value);
    }
  }

  /** A filter block loads if and only if it is empty, or has a known mode and at least one
      predicate, each of them acceptable for the declared schema. */
  lemma FiltersLoadExactly(columns: seq<ColumnSchema>, spec: RowFilter.Spec, exploded: seq<string>)
    requires SchemaValid(columns)
    ensures RowFilter.New(spec, WriterColumns(columns), exploded).Ok? <==>
              || (spec.mode == "" && spec.entries == [])
              || ((spec.mode == "whitelist" || spec.mode == "blacklist") && spec.entries != []
                  && forall k :: 0 <= k < |spec.entries| ==>
                       && spec.entries[k].column !in exploded
                       && exists i :: 0 <= i < |columns| && columns[i].name == spec.entries[k].column
                                      && Comparable(columns[i].typeName, spec.entries[k].value))
  {
    RowFilter.NewAcceptsExactly(spec, WriterColumns(columns), exploded);
    forall k | 0 <= k < |spec.entries| {
      AcceptableBySchema(columns, spec.entries[k], exploded);
    }
  }

  lemma SymbolsAreStrings()
    ensures StringToColumnType("symbol").AsValueType() == String
  {}

  /** A symbol column is declared to the client as a string column, so the filter accepts
      exactly string predicates on it, although its own documentation calls symbols unsupported. */
  lemma SymbolColumnsAreFilterable(columns: seq<ColumnSchema>, i: nat, value: Yaml)
    requires SchemaValid(columns) && i < |columns| && columns[i].typeName == "symbol"
    ensures var r := RowFilter.ResolveMatch(RowFilter.MatchEntry(columns[i].name, value), WriterColumns(columns));
            && (r.Ok? <==> value.YString?)
            && (r.Ok? ==> r.value == RowFilter.MatchString(i, value.s))
  {
    SymbolsAreStrings();
    OffsetInSchema(columns, columns[i].name);
    ColumnAt(columns, i);
  }
}
