/** internal/parser/explode.go: the terminal explode step, its configuration and time axis. */
module Explode {
  import opened Common
  import opened Tables

  // ------------------------------------------------------------ configuration

  /** A decoded YAML value. A map whose keys are all strings is decoded as YMap; any other
      map keeps its keys and is listed in the order the program happens to visit it. */
  datatype Yaml =
    | YNull
    | YBool(b: bool)
    | YInt(i: int)
    | YFloat(f: Float)
    | YString(s: string)
    | YList(elements: seq<Yaml>)
    | YMap(entries: map<string, Yaml>)
    | YAnyMap(pairs: seq<(Yaml, Yaml)>)

  type YamlMap = map<string, Yaml>

  /** Library behaviour the configuration depends on. duration is time.ParseDuration, atoi is
      strconv.Atoi, validPath and lookup are the compiled field paths, scale multiplies a
      float64 by a unit, and stringKeys lists a string-keyed map in visiting order. */
  datatype Library = Library(
    duration: string -> Option<int>,
    atoi: string -> Option<int>,
    validPath: string -> bool,
    lookup: (string, Fields) -> Option<Value>,
    scale: (Float, int) -> Float,
    visit: YamlMap -> seq<(Yaml, Yaml)>)
  {
    /** Durations are int64 nanoseconds and products are float64 values. */
    ghost predicate Valid() {
      && (forall s :: duration(s).Some? ==> FitsInt64(duration(s).value))
      && (forall f, unit :: scale(f, unit).WellFormed())
    }
  }

  datatype ColumnSchema = ColumnSchema(name: string, typeName: string)

  datatype IntervalMode =
    | FromValue(interval: int)
    | FromSource(path: string, unit: int)
    | ByLength(byLength: map<int, int>)

  /** ordinalCol is -1 and ordinalName empty when no ordinal is configured. */
  datatype ExplodeSpec = ExplodeSpec(
    sourcePath: string, startPath: string, mode: IntervalMode,
    targetCol: nat, targetName: string, targetType: ColumnType,
    ordinalCol: int, ordinalName: string)

  function ExplodedColumnNames(e: Option<ExplodeSpec>): seq<string> {
    if e.None? then []
    else [e.value.targetName] + if e.value.ordinalName != "" then [e.value.ordinalName] else []
  }

  function ColumnIndex(schema: seq<ColumnSchema>, name: string): (i: Option<nat>)
    ensures i.Some? ==> i.value < |schema| && schema[i.value].name == name
    ensures i.None? ==> forall k :: 0 <= k < |schema| ==> schema[k].name != name
    decreases |schema|
  {
    ColumnIndexFrom(schema, name, 0)
  }

  function ColumnIndexFrom(schema: seq<ColumnSchema>, name: string, from: nat): (i: Option<nat>)
    requires from <= |schema|
    ensures i.Some? ==> from <= i.value < |schema| && schema[i.value].name == name
    ensures i.None? ==> forall k :: from <= k < |schema| ==> schema[k].name != name
    decreases |schema| - from
  {
    if from == |schema| then None
    else if schema[from].name == name then Some(from)
    else ColumnIndexFrom(schema, name, from + 1)
  }

  function StringOption(cfg: YamlMap, key: string): (s: string) {
    if key in cfg && cfg[key].YString? then cfg[key].s else ""
  }

  predicate Reserved(s: string) {
    s != "" && s[0] == '$'
  }

  function DurationValue(x: Library, raw: Yaml): (r: Result<int>)
    ensures r.Ok? ==> r.value > 0
  {
    if !raw.YString? then Err("must be a positive Go duration string")
    else if x.duration(raw.s).None? || x.duration(raw.s).value <= 0 then Err("must be a positive Go duration")
    else Ok(x.duration(raw.s).value)
  }

  function ByLengthKey(x: Library, k: Yaml): (r: Result<int>)
    ensures r.Ok? ==> r.value > 0
  {
    var n := if k.YInt? then Some(k.i) else if k.YString? then x.atoi(k.s) else None;
    if n.Some? && n.value > 0 then Ok(n.value) else Err("by_length keys must be positive integers")
  }

  function ByLengthEntries(x: Library, pairs: seq<(Yaml, Yaml)>): (r: Result<map<int, int>>)
    ensures r.Ok? ==> forall n :: n in r.value ==> n > 0 && r.value[n] > 0
  {
    if pairs == [] then Ok(map[])
    else
      var before := ByLengthEntries(x, pairs[..|pairs| - 1]);
      var (k, v) := pairs[|pairs| - 1];
      if before.Err? then before
      else if ByLengthKey(x, k).Err? then Err(ByLengthKey(x, k).error)
      else if DurationValue(x, v).Err? then Err(DurationValue(x, v).error)
      else Ok(before.value[ByLengthKey(x, k).value := DurationValue(x, v).value])
  }

  function ParseByLength(x: Library, raw: Yaml): (r: Result<map<int, int>>)
    ensures r.Ok? ==> forall n :: n in r.value ==> n > 0 && r.value[n] > 0
  {
    if raw.YMap? && raw.entries != map[] then ByLengthEntries(x, x.visit(raw.entries))
    else if raw.YAnyMap? && raw.pairs != [] then ByLengthEntries(x, raw.pairs)
    else Err("by_length must be a non-empty map")
  }

  function IntervalUnit(name: string): Option<int> {
    if name == "ns" then Some(1)
    else if name == "us" then Some(1_000)
    else if name == "ms" then Some(1_000_000)
    else if name == "s" then Some(1_000_000_000)
    else None
  }

  function CompileIntervalSource(x: Library, m: YamlMap): Result<IntervalMode> {
    var source := StringOption(m, "source");
    if source == "" then Err("interval 'source' must be a non-empty string")
    else if !x.validPath(source) then Err("interval 'source' is not a valid field path")
    else if "unit" !in m then Err("interval 'source' requires 'unit'")
    else match IntervalUnit(StringOption(m, "unit"))
         case None => Err("interval unit must be one of ns, us, ms, s")
         case Some(unit) => Ok(FromSource(source, unit))
  }

  function Indicator(b: bool): nat {
    if b then 1 else 0
  }

  function CompileInterval(x: Library, raw: Yaml): Result<IntervalMode> {
    if !raw.YMap? then Err("index.interval must be a map")
    else
      var m := raw.entries;
      if Indicator("value" in m) + Indicator("source" in m) + Indicator("by_length" in m) != 1
      then Err("index.interval requires exactly one of 'value', 'source', or 'by_length'")
      else if "unit" in m && "source" !in m then Err("'unit' is only valid with 'source'")
      else if "value" in m then
        match DurationValue(x, m["value"])
        case Err(e) => Err(e)
        case Ok(d) => Ok(FromValue(d))
      else if "source" in m then CompileIntervalSource(x, m)
      else
        match ParseByLength(x, m["by_length"])
        case Err(e) => Err(e)
        case Ok(b) => Ok(ByLength(b))
  }

  function CompileIndex(x: Library, cfg: YamlMap, spec: ExplodeSpec): Result<ExplodeSpec> {
    if !("index" in cfg && cfg["index"].YMap?) then Err("explode step requires an 'index' map")
    else
      var index := cfg["index"].entries;
      if !("start" in index && index["start"].YMap?) then Err("index.start requires 'source'")
      else
        var start := StringOption(index["start"].entries, "source");
        if start == "" then Err("index.start requires 'source'")
        else if !x.validPath(start) then Err("index.start 'source' is not a valid field path")
        else if "interval" !in index then Err("index.interval requires exactly one of 'value', 'source', or 'by_length'")
        else
          match CompileInterval(x, index["interval"])
          case Err(e) => Err(e)
          case Ok(mode) => Ok(spec.(startPath := start, mode := mode))
  }

  function CompileColumns(cfg: YamlMap, schema: seq<ColumnSchema>, types: seq<ColumnType>, spec: ExplodeSpec): Result<ExplodeSpec>
    requires |types| == |schema|
  {
    var target := StringOption(cfg, "target");
    if target == "" then Err("explode step requires a 'target' string")
    else if Reserved(target) then Err("'target' must not start with '$'")
    else
      var col := ColumnIndex(schema, target);
      if col.None? then Err("'target' must reference an output column")
      else if types[col.value] != Double && types[col.value] != Int64 then Err("'target' must be a double or int64 column")
      else
        var bound := spec.(targetCol := col.value, targetName := target, targetType := types[col.value],
                           ordinalCol := -1, ordinalName := "");
        if "ordinal" !in cfg then Ok(bound) else CompileOrdinal(StringOption(cfg, "ordinal"), schema, types, bound)
  }

  function CompileOrdinal(ordinal: string, schema: seq<ColumnSchema>, types: seq<ColumnType>, spec: ExplodeSpec): Result<ExplodeSpec>
    requires |types| == |schema|
  {
    if ordinal == "" || Reserved(ordinal) then Err("'ordinal' must be a non-'$' output column name")
    else if ordinal == spec.targetName then Err("'ordinal' and 'target' must be different columns")
    else
      var col := ColumnIndex(schema, ordinal);
      if col.None? then Err("'ordinal' must reference an output column")
      else if types[col.value] != Int64 then Err("'ordinal' must be an int64 column")
      else Ok(spec.(ordinalCol := col.value, ordinalName := ordinal))
  }

  /** config is None when the step has no configuration block. */
  datatype TransformSpec = TransformSpec(step: string, block: string, config: Option<YamlMap>) {
    function StepName(): string {
      if step != "" then step else block
    }

    /** The options a step reads: a missing block reads like an empty one. */
    function Options(): YamlMap {
      if config.Some? then config.value else map[]
    }
  }

  predicate HasStep(specs: seq<TransformSpec>, name: string) {
    exists i :: 0 <= i < |specs| && specs[i].StepName() == name
  }

  function CountSteps(specs: seq<TransformSpec>, name: string): nat {
    if specs == [] then 0 else Indicator(specs[0].StepName() == name) + CountSteps(specs[1..], name)
  }

  /** The scalar steps, and the configuration of the explode step if it has one. */
  function SplitExplode(specs: seq<TransformSpec>): Result<(seq<TransformSpec>, Option<YamlMap>)> {
    var count := CountSteps(specs, "explode");
    if count == 0 then Ok((specs, None))
    else if count > 1 then Err("at most one explode step is allowed per config")
    else if specs == [] || specs[|specs| - 1].StepName() != "explode" then Err("explode must be the last transformation step")
    else Ok((specs[..|specs| - 1], specs[|specs| - 1].config))
  }

  function UnpackOutputType(cfg: YamlMap): ColumnType {
    var typeName := StringOption(cfg, "type");
    if "scale" in cfg || typeName == "float32" || typeName == "float64" then Double else Int64
  }

  predicate UnpackTraceOk(steps: seq<TransformSpec>, spec: ExplodeSpec) {
    forall i :: 0 <= i < |steps| && steps[i].StepName() == "unpack" && StringOption(steps[i].Options(), "target") == spec.sourcePath
            ==> UnpackOutputType(steps[i].Options()) == spec.targetType
  }

  predicate ArrayBindingsOk(steps: seq<TransformSpec>, explode: Option<ExplodeSpec>, schema: seq<ColumnSchema>) {
    forall i :: 0 <= i < |steps| && steps[i].StepName() == "unpack"
                && ColumnIndex(schema, StringOption(steps[i].Options(), "target")).Some?
            ==> explode.Some? && explode.value.sourcePath == StringOption(steps[i].Options(), "target")
  }

  function CompileExplode(x: Library, cfg: Option<YamlMap>, steps: seq<TransformSpec>, schema: seq<ColumnSchema>, types: seq<ColumnType>)
    : (r: Result<Option<ExplodeSpec>>)
    requires |types| == |schema|
    ensures r.Ok? ==> (r.value.Some? <==> cfg.Some?)
  {
    if cfg.None? then Ok(None)
    else if HasStep(steps, "extract_index") then Err("explode and extract_index are mutually exclusive")
    else
      var source := StringOption(cfg.value, "source");
      if source == "" then Err("explode step requires a 'source' string")
      else if !x.validPath(source) then Err("explode 'source' is not a valid field path")
      else
        match CompileColumns(cfg.value, schema, types, ExplodeSpec(source, "", FromValue(1), 0, "", Double, -1, ""))
        case Err(e) => Err(e)
        case Ok(bound) =>
          match CompileIndex(x, cfg.value, bound)
          case Err(e) => Err(e)
          case Ok(spec) => if UnpackTraceOk(steps, spec) then Ok(Some(spec)) else Err("explode 'target' does not match unpack")
  }

  /** What a compiled spec guarantees about the schema it was compiled against. */
  ghost predicate Compiled(e: ExplodeSpec, schema: seq<ColumnSchema>, types: seq<ColumnType>) {
    && |types| == |schema|
    && e.targetCol < |schema| && schema[e.targetCol].name == e.targetName
    && types[e.targetCol] == e.targetType && (e.targetType == Double || e.targetType == Int64)
    && (if e.ordinalName == "" then e.ordinalCol == -1
        else 0 <= e.ordinalCol < |schema| && schema[e.ordinalCol].name == e.ordinalName
             && types[e.ordinalCol] == Int64 && e.ordinalCol != e.targetCol)
    && IntervalAccepted(e.mode)
  }

  /** A static interval is a positive int64, a unit is one of the four, and lengths and their
      intervals are positive. */
  ghost predicate IntervalAccepted(mode: IntervalMode) {
    match mode
    case FromValue(d) => 0 < d <= MAX_INT64
    case FromSource(_, unit) => unit == 1 || unit == 1_000 || unit == 1_000_000 || unit == 1_000_000_000
    case ByLength(b) => forall n :: n in b ==> n > 0 && 0 < b[n] <= MAX_INT64
  }

  lemma DurationFits(x: Library, raw: Yaml)
    requires x.Valid() && DurationValue(x, raw).Ok?
    ensures DurationValue(x, raw).value <= MAX_INT64
  {
    assert FitsInt64(x.duration(raw.s).value);
  }

  lemma {:induction false} ByLengthFits(x: Library, pairs: seq<(Yaml, Yaml)>)
    requires x.Valid()
    ensures var r := ByLengthEntries(x, pairs); r.Ok? ==> forall n :: n in r.value ==> 0 < r.value[n] <= MAX_INT64
  {
    if pairs != [] {
      ByLengthFits(x, pairs[..|pairs| - 1]);
      var v := pairs[|pairs| - 1].1;
      if DurationValue(x, v).Ok? { DurationFits(x, v); }
    }
  }

  lemma IntervalCompiles(x: Library, raw: Yaml)
    requires x.Valid() && CompileInterval(x, raw).Ok?
    ensures IntervalAccepted(CompileInterval(x, raw).value)
  {
    var m := raw.entries;
    if "value" in m {
      DurationFits(x, m["value"]);
    } else if "by_length" in m {
      var lengths := m["by_length"];
      ByLengthFits(x, if lengths.YMap? then x.visit(lengths.entries) else if lengths.YAnyMap? then lengths.pairs else []);
    }
  }

  lemma ColumnsCompile(cfg: YamlMap, schema: seq<ColumnSchema>, types: seq<ColumnType>, spec: ExplodeSpec)
    requires |types| == |schema| && IntervalAccepted(spec.mode) && CompileColumns(cfg, schema, types, spec).Ok?
    ensures Compiled(CompileColumns(cfg, schema, types, spec).value, schema, types)
  {}

  lemma CompileExplodeSound(x: Library, cfg: YamlMap, steps: seq<TransformSpec>, schema: seq<ColumnSchema>, types: seq<ColumnType>)
    requires x.Valid() && |types| == |schema|
    requires CompileExplode(x, Some(cfg), steps, schema, types).Ok?
    ensures var e := CompileExplode(x, Some(cfg), steps, schema, types).value;
            e.Some? && Compiled(e.value, schema, types) && !HasStep(steps, "extract_index")
  {
    var blank := ExplodeSpec(StringOption(cfg, "source"), "", FromValue(1), 0, "", Double, -1, "");
    ColumnsCompile(cfg, schema, types, blank);
    IntervalCompiles(x, cfg["index"].entries["interval"]);
  }

  // ------------------------------------------------------------ per message

  datatype Samples = Floats(floats: seq<Float>) | Integers(integers: seq<int>) {
    function Data(): ColumnData {
      match this
      case Floats(fs) => Doubles(fs)
      case Integers(ns) => Ints(ns)
    }
  }

  datatype ExplodeInputs = ExplodeInputs(samples: Samples, n: nat, start: int, interval: int)

  predicate AllFloats(vs: seq<Value>) {
    forall i :: 0 <= i < |vs| ==> vs[i].VFloat?
  }

  predicate AllInts(vs: seq<Value>) {
    forall i :: 0 <= i < |vs| ==> vs[i].VInt?
  }

  /** Types the array against the target column, without coercion. */
  function ResolveArray(e: ExplodeSpec, v: Value): (r: Result<Samples>)
    ensures r.Ok? && (e.targetType == Double || e.targetType == Int64) ==> r.value.Data().Type() == e.targetType
  {
    match v
    case VFloats(fs) => if e.targetType != Double then Err("must be []int64") else Ok(Floats(fs))
    case VInts(ns) => if e.targetType != Int64 then Err("must be []float64") else Ok(Integers(ns))
    case VList(vs) =>
      if e.targetType == Double then
        if AllFloats(vs) then Ok(Floats(seq(|vs|, i requires 0 <= i < |vs| => vs[i].f))) else Err("want float64")
      else
        if AllInts(vs) then Ok(Integers(seq(|vs|, i requires 0 <= i < |vs| => vs[i].i))) else Err("want int64")
    case _ => Err("want a numeric array")
  }

  /** math.Round of a positive number: half away from zero. */
  function RoundPositive(r: real): int
    requires r > 0.0
  {
    (r + 0.5).Floor
  }

  function ResolveSourcedInterval(x: Library, path: string, unit: int, fields: Fields): Result<int>
    requires unit > 0
  {
    match x.lookup(path, fields)
    case None => Err("field not found")
    case Some(VInt(v)) =>
      if v <= 0 || v > MAX_INT64 / unit then Err("must be a positive duration") else Ok(Wrap64(v * unit))
    case Some(VFloat(v)) =>
      var ns := x.scale(v, unit);
      if !ns.Finite? || ns.ToReal() <= 0.0 || ns.ToReal() >= TWO63 as real then Err("must be a positive duration")
      else if RoundPositive(ns.ToReal()) <= 0 then Err("rounds to a non-positive duration")
      else Ok(RoundPositive(ns.ToReal()))
    case Some(_) => Err("must be int64 or float64")
  }

  function ResolveInterval(x: Library, e: ExplodeSpec, fields: Fields, n: nat): Result<int>
    requires e.mode.FromSource? ==> e.mode.unit > 0
  {
    match e.mode
    case FromValue(d) => Ok(d)
    case ByLength(b) => if n in b then Ok(b[n]) else Err("by_length has no entry for the array length")
    case FromSource(path, unit) => ResolveSourcedInterval(x, path, unit, fields)
  }

  function ResolveInputs(x: Library, e: ExplodeSpec, fields: Fields): (r: Result<ExplodeInputs>)
    requires e.mode.FromSource? ==> e.mode.unit > 0
    ensures r.Ok? ==> r.value.n == r.value.samples.Data().Length()
    ensures r.Ok? && (e.targetType == Double || e.targetType == Int64) ==> r.value.samples.Data().Type() == e.targetType
  {
    match x.lookup(e.sourcePath, fields)
    case None => Err("source field not found")
    case Some(v) =>
      match ResolveArray(e, v)
      case Err(err) => Err(err)
      case Ok(samples) =>
        var n := samples.Data().Length();
        if n == 0 then Ok(ExplodeInputs(samples, 0, 0, 0))
        else
          match x.lookup(e.startPath, fields)
          case Some(VTime(start)) =>
            (match ResolveInterval(x, e, fields, n)
             case Err(err) => Err(err)
             case Ok(interval) => Ok(ExplodeInputs(samples, n, start, interval)))
          case _ => Err("start field must be a time.Time")
  }

  lemma ProductIsPositive(v: int, unit: int)
    requires v > 0 && unit > 0
    ensures v * unit > 0
  {}

  lemma ProductGuard(v: int, unit: int, bound: nat)
    requires unit > 0
    ensures v <= bound / unit <==> v * unit <= bound
  {
    var q := bound / unit;
    DivisionBounds(bound, unit);
    if v <= q {
      ProductMonotone(v, q, unit);
    } else {
      ProductMonotone(q + 1, v, unit);
      assert (q + 1) * unit == q * unit + unit;
    }
  }

  lemma DivisionBounds(bound: nat, unit: int)
    requires unit > 0
    ensures (bound / unit) * unit <= bound < (bound / unit) * unit + unit
  {
    assert bound == (bound / unit) * unit + bound % unit;
  }

  lemma ProductMonotone(a: int, b: int, unit: int)
    requires a <= b && unit > 0
    ensures a * unit <= b * unit
  {
    assert (b - a) * unit >= 0;
    assert (b - a) * unit == b * unit - a * unit;
  }

  /** The guarded int64 product never wraps, and the guard refuses nothing else: exactly the
      positive counts whose duration fits are accepted. */
  lemma SourcedProductIsExact(x: Library, path: string, unit: int, fields: Fields, v: int)
    requires unit > 0 && x.lookup(path, fields) == Some(VInt(v))
    ensures var r := ResolveSourcedInterval(x, path, unit, fields);
            && (r.Ok? <==> v > 0 && v * unit <= MAX_INT64)
            && (r.Ok? ==> r.value == v * unit)
  {
    ProductGuard(v, unit, MAX_INT64);
    if v > 0 {
      ProductIsPositive(v, unit);
    }
  }

  /** The float guard suffices because float64 values at or above 2^52 are integers: the
      largest accepted product rounds to itself, below 2^63. */
  lemma RoundedProductFits(ns: Float)
    requires ns.WellFormed() && ns.Finite? && 0.0 < ns.ToReal() < TWO63 as real
    ensures RoundPositive(ns.ToReal()) <= MAX_INT64
  {
    if ns.exponent >= 0 {
      assert ns.ToReal() == (ns.mantissa * Pow2(ns.exponent)) as real;
    } else {
      var divisor := Pow2(-ns.exponent) as real;
      assert ns.ToReal() * divisor == ns.mantissa as real;
      assert ns.ToReal() * divisor >= ns.ToReal() * 1.0;
    }
  }

  /** Over the reals the same guard would let 2^63 through. */
  lemma RealGuardIsNotEnough()
    ensures exists r: real :: 0.0 < r < TWO63 as real && RoundPositive(r) > MAX_INT64
  {
    var r := TWO63 as real - 0.25;
    assert RoundPositive(r) == TWO63;
  }

  /** Every interval resolved from an accepted configuration is a positive int64. */
  lemma ResolvedIntervalPositive(x: Library, e: ExplodeSpec, fields: Fields, n: nat)
    requires x.Valid() && IntervalAccepted(e.mode) && ResolveInterval(x, e, fields, n).Ok?
    ensures 0 < ResolveInterval(x, e, fields, n).value <= MAX_INT64
  {
    if e.mode.FromSource? {
      match x.lookup(e.mode.path, fields)
      case Some(VInt(v)) => SourcedProductIsExact(x, e.mode.path, e.mode.unit, fields, v);
      case Some(VFloat(v)) => RoundedProductFits(x.scale(v, e.mode.unit));
      case _ =>
    }
  }

  // ------------------------------------------------------------ the time axis

  /** t[i] = start + i * interval, the product taken in int64. */
  function ExplodedIndex(start: int, interval: int, n: nat): seq<int> {
    seq(n, i => start + Wrap64(i * interval))
  }

  method BuildExplodedIndex(start: int, interval: int, n: nat) returns (index: seq<int>)
    ensures index == ExplodedIndex(start, interval, n)
  {
    var idx := new int[n];
    for i := 0 to n
      invariant forall k :: 0 <= k < i ==> idx[k] == start + Wrap64(k * interval)
    {
      idx[i] := start + Wrap64(i * interval);
    }
    index := idx[..];
  }

  ghost predicate StrictlyIncreasing(s: seq<int>) {
    forall i :: 0 <= i < |s| - 1 ==> s[i] < s[i + 1]
  }

  /** The axis that accumulates the interval, over unbounded integers. */
  function IteratedSum(start: int, interval: int, i: nat): int {
    if i == 0 then start else IteratedSum(start, interval, i - 1) + interval
  }

  lemma {:induction false} IteratedSumIsProduct(start: int, interval: int, i: nat)
    ensures IteratedSum(start, interval, i) == start + i * interval
  {
    if i > 0 {
      IteratedSumIsProduct(start, interval, i - 1);
      assert i * interval == (i - 1) * interval + interval;
    }
  }

  lemma AxisAt(start: int, interval: int, i: nat, last: nat)
    requires 0 < interval && i <= last && last * interval <= MAX_INT64
    ensures start + Wrap64(i * interval) == IteratedSum(start, interval, i)
  {
    ProductMonotone(0, i, interval);
    ProductMonotone(i, last, interval);
    IteratedSumIsProduct(start, interval, i);
  }

  /** While the last offset fits in int64 the axis starts at start and equals the exact sum,
      so neighbours differ by the interval. */
  lemma AxisIsExact(start: int, interval: int, n: nat)
    requires 0 < interval && 0 < n && (n - 1) * interval <= MAX_INT64
    ensures ExplodedIndex(start, interval, n)[0] == start
    ensures forall i :: 0 <= i < n ==> ExplodedIndex(start, interval, n)[i] == IteratedSum(start, interval, i)
  {
    forall i | 0 <= i < n
      ensures ExplodedIndex(start, interval, n)[i] == IteratedSum(start, interval, i)
    {
      AxisAt(start, interval, i, n - 1);
    }
  }

  /** The first offset past int64 lands before its predecessor. */
  lemma FirstWrapFalls(interval: int, i: nat)
    requires 0 < interval <= MAX_INT64 && i > 0 && (i - 1) * interval <= MAX_INT64 < i * interval
    ensures Wrap64(i * interval) < Wrap64((i - 1) * interval)
  {
    assert i * interval == (i - 1) * interval + interval;
    WrapIsUnique(i * interval, i * interval - TWO64, 1);
  }

  lemma {:induction false} FindFirstWrap(interval: int, n: nat) returns (i: nat)
    requires 0 < interval && n > 0 && (n - 1) * interval > MAX_INT64
    ensures 0 < i < n && (i - 1) * interval <= MAX_INT64 < i * interval
  {
    if (n - 2) * interval <= MAX_INT64 {
      i := n - 1;
    } else {
      i := FindFirstWrap(interval, n - 1);
    }
  }

  /** The axis is strictly increasing exactly while the last offset fits in int64. */
  lemma AxisIncreasesExactly(start: int, interval: int, n: nat)
    requires 0 < interval <= MAX_INT64 && 0 < n
    ensures StrictlyIncreasing(ExplodedIndex(start, interval, n)) <==> (n - 1) * interval <= MAX_INT64
  {
    var axis := ExplodedIndex(start, interval, n);
    if (n - 1) * interval <= MAX_INT64 {
      AxisIsExact(start, interval, n);
    } else {
      var i := FindFirstWrap(interval, n);
      FirstWrapFalls(interval, i);
      assert axis[i] < axis[i - 1];
    }
  }
}
