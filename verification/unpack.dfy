/** internal/parser/unpack.go: reading a byte string as an array of fixed-width numbers. */
module Unpack {
  import opened Common
  import opened Tables
  import opened Explode

  datatype ByteOrder = LittleEndian | BigEndian

  /** The element types, by their width in bytes. */
  datatype ElemType =
    | Signed(width: nat)
    | Unsigned(width: nat)
    | Floating(width: nat)
  {
    predicate Supported() {
      match this
      case Signed(w) => w in {1, 2, 4, 8}
      case Unsigned(w) => w in {1, 2, 4, 8}
      case Floating(w) => w in {4, 8}
    }
  }

  function ElemTypeOf(name: string): (t: Option<ElemType>)
    ensures t.Some? ==> t.value.Supported()
  {
    match name
    case "int8" => Some(Signed(1))
    case "uint8" => Some(Unsigned(1))
    case "int16" => Some(Signed(2))
    case "uint16" => Some(Unsigned(2))
    case "int32" => Some(Signed(4))
    case "uint32" => Some(Unsigned(4))
    case "int64" => Some(Signed(8))
    case "uint64" => Some(Unsigned(8))
    case "float32" => Some(Floating(4))
    case "float64" => Some(Floating(8))
    case _ => None
  }

  predicate Bytes(raw: seq<int>) {
    forall i :: 0 <= i < |raw| ==> 0 <= raw[i] < 256
  }

  /** 256 to the n. */
  function Range(n: nat): (r: nat)
    ensures r >= 1
  {
    if n == 0 then 1 else 256 * Range(n - 1)
  }

  // --------------------------------------------------------- one element

  /** The least significant byte and the others. */
  function Lowest(order: ByteOrder, bytes: seq<int>): int
    requires bytes != []
  {
    if order == LittleEndian then bytes[0] else bytes[|bytes| - 1]
  }

  function Others(order: ByteOrder, bytes: seq<int>): (others: seq<int>)
    requires bytes != []
    ensures |others| == |bytes| - 1
  {
    if order == LittleEndian then bytes[1..] else bytes[..|bytes| - 1]
  }

  function Join(order: ByteOrder, lowest: int, others: seq<int>): (bytes: seq<int>)
    ensures |bytes| == |others| + 1
  {
    if order == LittleEndian then [lowest] + others else others + [lowest]
  }

  lemma JoinSplits(order: ByteOrder, lowest: int, others: seq<int>)
    ensures Lowest(order, Join(order, lowest, others)) == lowest && Others(order, Join(order, lowest, others)) == others
    ensures 0 <= lowest < 256 && Bytes(others) ==> Bytes(Join(order, lowest, others))
  {}

  lemma SplitJoins(order: ByteOrder, bytes: seq<int>)
    requires bytes != []
    ensures Join(order, Lowest(order, bytes), Others(order, bytes)) == bytes
    ensures Bytes(bytes) ==> 0 <= Lowest(order, bytes) < 256 && Bytes(Others(order, bytes))
  {}

  /** binary.ByteOrder: the unsigned value of some bytes. */
  function Number(order: ByteOrder, bytes: seq<int>): int
    decreases |bytes|
  {
    if bytes == [] then 0 else Lowest(order, bytes) + 256 * Number(order, Others(order, bytes))
  }

  /** The bytes of an unsigned value. */
  function Digits(order: ByteOrder, value: nat, width: nat): (bytes: seq<int>)
    ensures |bytes| == width
  {
    if width == 0 then [] else Join(order, value % 256, Digits(order, value / 256, width - 1))
  }

  lemma {:induction false} NumberOfDigits(order: ByteOrder, value: nat, width: nat)
    requires value < Range(width)
    ensures Bytes(Digits(order, value, width)) && Number(order, Digits(order, value, width)) == value
  {
    if width > 0 {
      NumberOfDigits(order, value / 256, width - 1);
      JoinSplits(order, value % 256, Digits(order, value / 256, width - 1));
    }
  }

  lemma LowestDigit(digit: int, rest: int)
    requires 0 <= digit < 256
    ensures (digit + 256 * rest) % 256 == digit && (digit + 256 * rest) / 256 == rest
  {}

  lemma {:induction false} DigitsOfNumber(order: ByteOrder, bytes: seq<int>)
    requires Bytes(bytes)
    ensures 0 <= Number(order, bytes) < Range(|bytes|)
    ensures Digits(order, Number(order, bytes), |bytes|) == bytes
    decreases |bytes|
  {
    if bytes != [] {
      SplitJoins(order, bytes);
      DigitsOfNumber(order, Others(order, bytes));
      LowestDigit(Lowest(order, bytes), Number(order, Others(order, bytes)));
    }
  }

  /** The two's-complement reading of an unsigned value of some width. */
  function AsSigned(value: int, width: nat): int {
    if value >= Range(width) / 2 then value - Range(width) else value
  }

  /** The unsigned reading of a signed value. */
  function AsUnsigned(value: int, width: nat): int {
    if value < 0 then value + Range(width) else value
  }

  /** uint64 is read like int64: the output is an int64 either way. */
  function ReadInt(t: ElemType, order: ByteOrder, bytes: seq<int>): int
    requires !t.Floating? && |bytes| >= t.width
  {
    var n := Number(order, bytes[..t.width]);
    if t.Signed? || t.width == 8 then AsSigned(n, t.width) else n
  }

  /** The values an element type declares. */
  predicate Declares(t: ElemType, value: int)
    requires !t.Floating?
  {
    if t.Signed? then -(Range(t.width) / 2) <= value < Range(t.width) / 2 else 0 <= value < Range(t.width)
  }

  /** What reading gives for a declared value: itself, except that uint64 wraps into int64. */
  function Output(t: ElemType, value: int): int
    requires !t.Floating?
  {
    if t == Unsigned(8) then Wrap64(value) else value
  }

  function Encoded(t: ElemType, order: ByteOrder, value: int): (bytes: seq<int>)
    requires !t.Floating? && Declares(t, value)
    ensures |bytes| == t.width
  {
    Digits(order, AsUnsigned(value, t.width), t.width)
  }

  lemma Ranges()
    ensures Range(1) == 0x100 && Range(2) == 0x1_0000 && Range(4) == 0x1_0000_0000 && Range(8) == TWO64
  {
    assert Range(1) == 256 && Range(2) == 256 * Range(1) && Range(3) == 256 * Range(2) && Range(4) == 256 * Range(3);
    assert Range(5) == 256 * Range(4) && Range(6) == 256 * Range(5) && Range(7) == 256 * Range(6) && Range(8) == 256 * Range(7);
  }

  /** The two's-complement reading of a declared value is the value that reading promises. */
  lemma Reinterpreted(t: ElemType, value: int)
    requires t.Supported() && !t.Floating? && Declares(t, value)
    ensures 0 <= AsUnsigned(value, t.width) < Range(t.width) && FitsInt64(Output(t, value))
    ensures Output(t, value) ==
              if t.Signed? || t.width == 8 then AsSigned(AsUnsigned(value, t.width), t.width) else AsUnsigned(value, t.width)
  {
    Ranges();
    if t == Unsigned(8) && value >= TWO63 {
      WrapIsUnique(value, value - TWO64, 1);
    }
  }

  lemma ReadOfWhole(t: ElemType, order: ByteOrder, bytes: seq<int>)
    requires !t.Floating? && |bytes| == t.width
    ensures ReadInt(t, order, bytes) ==
              var n := Number(order, bytes); if t.Signed? || t.width == 8 then AsSigned(n, t.width) else n
  {
    assert bytes[..t.width] == bytes;
  }

  /** Reading inverts writing. */
  lemma ReadInvertsWrite(t: ElemType, order: ByteOrder, value: int)
    requires t.Supported() && !t.Floating? && Declares(t, value)
    ensures Bytes(Encoded(t, order, value)) && ReadInt(t, order, Encoded(t, order, value)) == Output(t, value)
  {
    Reinterpreted(t, value);
    NumberOfDigits(order, AsUnsigned(value, t.width), t.width);
    ReadOfWhole(t, order, Encoded(t, order, value));
  }

  lemma Restored(n: int, width: nat)
    requires 0 <= n < Range(width)
    ensures AsUnsigned(AsSigned(n, width), width) == n && AsUnsigned(n, width) == n
  {}

  /** Writing inverts reading: different bytes never read alike. */
  lemma WriteInvertsRead(t: ElemType, order: ByteOrder, bytes: seq<int>)
    requires !t.Floating? && Bytes(bytes) && |bytes| == t.width
    ensures 0 <= AsUnsigned(ReadInt(t, order, bytes), t.width)
    ensures bytes == Digits(order, AsUnsigned(ReadInt(t, order, bytes), t.width), t.width)
  {
    ReadOfWhole(t, order, bytes);
    DigitsOfNumber(order, bytes);
    Restored(Number(order, bytes), t.width);
  }

  /** Every value read is an int64. */
  lemma ReadsFit(t: ElemType, order: ByteOrder, bytes: seq<int>)
    requires t.Supported() && !t.Floating? && Bytes(bytes) && |bytes| >= t.width
    ensures FitsInt64(ReadInt(t, order, bytes))
  {
    Ranges();
    DigitsOfNumber(order, bytes[..t.width]);
  }

  // --------------------------------------------------------- arrays

  /** Where the n-th element starts. */
  function Offset(n: nat, width: nat): nat {
    if n == 0 then 0 else Offset(n - 1, width) + width
  }

  /** The values of the first n elements. */
  function UnpackedInts(t: ElemType, order: ByteOrder, raw: seq<int>, n: nat): (out: seq<int>)
    requires !t.Floating? && Offset(n, t.width) <= |raw|
    ensures |out| == n
  {
    if n == 0 then []
    else
      UnpackedInts(t, order, raw, n - 1) + [ReadInt(t, order, raw[Offset(n - 1, t.width)..])]
  }

  function Encoding(t: ElemType, order: ByteOrder, values: seq<int>): seq<int>
    requires !t.Floating? && forall i :: 0 <= i < |values| ==> Declares(t, values[i])
  {
    if values == [] then []
    else Encoding(t, order, values[..|values| - 1]) + Encoded(t, order, values[|values| - 1])
  }

  lemma {:induction false} EncodingLength(t: ElemType, order: ByteOrder, values: seq<int>)
    requires !t.Floating? && forall i :: 0 <= i < |values| ==> Declares(t, values[i])
    ensures |Encoding(t, order, values)| == Offset(|values|, t.width)
  {
    if values != [] {
      EncodingLength(t, order, values[..|values| - 1]);
    }
  }

  lemma ReadOfPrefix(t: ElemType, order: ByteOrder, a: seq<int>, b: seq<int>, k: nat)
    requires !t.Floating? && k + t.width <= |a|
    ensures ReadInt(t, order, (a + b)[k..]) == ReadInt(t, order, a[k..])
  {
    assert (a + b)[k..][..t.width] == a[k..][..t.width];
  }

  /** Bytes behind the elements do not matter. */
  lemma {:induction false} IntsOfPrefix(t: ElemType, order: ByteOrder, a: seq<int>, b: seq<int>, n: nat)
    requires !t.Floating? && Offset(n, t.width) <= |a|
    ensures Offset(n, t.width) <= |a + b| && UnpackedInts(t, order, a + b, n) == UnpackedInts(t, order, a, n)
  {
    if n > 0 {
      var k := Offset(n - 1, t.width);
      IntsOfPrefix(t, order, a, b, n - 1);
      ReadOfPrefix(t, order, a, b, k);
    }
  }

  function Outputs(t: ElemType, values: seq<int>): (out: seq<int>)
    requires !t.Floating?
    ensures |out| == |values|
  {
    if values == [] then [] else Outputs(t, values[..|values| - 1]) + [Output(t, values[|values| - 1])]
  }

  /** Unpacking inverts the fixed-width encoding on arrays of any length: the values come
      back, those of uint64 wrapped into int64. */
  lemma {:induction false} UnpackInvertsEncoding(t: ElemType, order: ByteOrder, values: seq<int>)
    requires t.Supported() && !t.Floating? && forall i :: 0 <= i < |values| ==> Declares(t, values[i])
    ensures |Encoding(t, order, values)| == Offset(|values|, t.width)
    ensures UnpackedInts(t, order, Encoding(t, order, values), |values|) == Outputs(t, values)
  {
    EncodingLength(t, order, values);
    if values != [] {
      var n := |values| - 1;
      var front, last := Encoding(t, order, values[..n]), Encoded(t, order, values[n]);
      EncodingLength(t, order, values[..n]);
      UnpackInvertsEncoding(t, order, values[..n]);
      IntsOfPrefix(t, order, front, last, n);
      ReadInvertsWrite(t, order, values[n]);
      assert (front + last)[Offset(n, t.width)..] == last;
    }
  }

  /** The last element and the ones before it. */
  lemma LastElement(t: ElemType, order: ByteOrder, raw: seq<int>, n: nat)
    requires !t.Floating? && |raw| == Offset(n, t.width) + t.width
    ensures Offset(n + 1, t.width) == |raw|
    ensures UnpackedInts(t, order, raw, n + 1) == UnpackedInts(t, order, raw[..Offset(n, t.width)], n) + [ReadInt(t, order, raw[Offset(n, t.width)..])]
  {
    var k := Offset(n, t.width);
    assert raw == raw[..k] + raw[k..];
    IntsOfPrefix(t, order, raw[..k], raw[k..], n);
  }

  /** The bytes a value was read from. */
  function ReadFrom(t: ElemType, order: ByteOrder, value: int): seq<int> {
    if AsUnsigned(value, t.width) >= 0 then Digits(order, AsUnsigned(value, t.width), t.width) else []
  }

  function AllReadFrom(t: ElemType, order: ByteOrder, values: seq<int>): seq<int> {
    if values == [] then []
    else AllReadFrom(t, order, values[..|values| - 1]) + ReadFrom(t, order, values[|values| - 1])
  }

  lemma BytesOf(raw: seq<int>, k: nat)
    requires Bytes(raw) && k <= |raw|
    ensures Bytes(raw[..k]) && Bytes(raw[k..]) && raw == raw[..k] + raw[k..]
  {}

  /** The last value determines the last bytes. */
  lemma LastBytes(t: ElemType, order: ByteOrder, raw: seq<int>, n: nat)
    requires !t.Floating? && Bytes(raw) && |raw| == Offset(n, t.width) + t.width && Offset(n + 1, t.width) == |raw|
    ensures var front, all := raw[..Offset(n, t.width)], UnpackedInts(t, order, raw, n + 1);
            Bytes(front) && all[..n] == UnpackedInts(t, order, front, n) && raw == front + ReadFrom(t, order, all[n])
  {
    var k := Offset(n, t.width);
    LastElement(t, order, raw, n);
    BytesOf(raw, k);
    WriteInvertsRead(t, order, raw[k..]);
  }

  /** Encoding inverts unpacking, whatever the bytes were. */
  lemma {:induction false} EncodingInvertsUnpack(t: ElemType, order: ByteOrder, raw: seq<int>, n: nat)
    requires !t.Floating? && Bytes(raw) && |raw| == Offset(n, t.width)
    ensures AllReadFrom(t, order, UnpackedInts(t, order, raw, n)) == raw
    decreases n
  {
    if n > 0 {
      var front, all := raw[..Offset(n - 1, t.width)], UnpackedInts(t, order, raw, n);
      LastBytes(t, order, raw, n - 1);
      EncodingInvertsUnpack(t, order, front, n - 1);
      assert AllReadFrom(t, order, all) == AllReadFrom(t, order, all[..n - 1]) + ReadFrom(t, order, all[n - 1]);
    }
  }

  /** Two byte strings of n elements that unpack alike are the same. */
  lemma UnpackIsInjective(t: ElemType, order: ByteOrder, a: seq<int>, b: seq<int>, n: nat)
    requires !t.Floating? && Bytes(a) && Bytes(b)
    requires |a| == Offset(n, t.width) && |b| == Offset(n, t.width)
    requires UnpackedInts(t, order, a, n) == UnpackedInts(t, order, b, n)
    ensures a == b
  {
    EncodingInvertsUnpack(t, order, a, n);
    EncodingInvertsUnpack(t, order, b, n);
  }

  lemma {:induction false} OffsetIsProduct(n: nat, width: nat)
    ensures Offset(n, width) == n * width
  {
    if n > 0 {
      OffsetIsProduct(n - 1, width);
      assert n * width == (n - 1) * width + width;
    }
  }

  lemma {:induction false} OffsetMonotone(i: nat, n: nat, width: nat)
    requires i <= n
    ensures Offset(i, width) <= Offset(n, width)
  {
    if i < n {
      OffsetMonotone(i, n - 1, width);
    }
  }

  /** The whole elements lie inside the bytes. */
  lemma WholeElements(length: nat, width: nat)
    requires width > 0
    ensures Offset(length / width, width) <= length
  {
    OffsetIsProduct(length / width, width);
    assert length == (length / width) * width + length % width;
  }

  /** One read, inside the bytes. */
  method ReadElement(raw: seq<int>, order: ByteOrder, t: ElemType, i: nat) returns (v: int)
    requires !t.Floating? && Offset(i + 1, t.width) <= |raw|
    ensures UnpackedInts(t, order, raw, i + 1) == UnpackedInts(t, order, raw, i) + [v]
  {
    OffsetIsProduct(i, t.width);
    v := ReadInt(t, order, raw[i * t.width..]);
  }

  method ReadElements(raw: seq<int>, order: ByteOrder, t: ElemType, n: nat) returns (out: array<int>)
    requires !t.Floating? && Offset(n, t.width) <= |raw|
    ensures fresh(out) && out[..] == UnpackedInts(t, order, raw, n)
  {
    out := new int[n];
    for i := 0 to n
      invariant Offset(i, t.width) <= |raw| && out[..i] == UnpackedInts(t, order, raw, i)
    {
      OffsetMonotone(i + 1, n, t.width);
      out[i] := ReadElement(raw, order, t, i);
    }
    assert out[..] == out[..n];
  }

  method UnpackInts(raw: seq<int>, order: ByteOrder, t: ElemType) returns (out: array<int>)
    requires t.Supported() && !t.Floating?
    ensures fresh(out) && Offset(|raw| / t.width, t.width) <= |raw|
    ensures out[..] == UnpackedInts(t, order, raw, |raw| / t.width)
  {
    WholeElements(|raw|, t.width);
    out := ReadElements(raw, order, t, |raw| / t.width);
  }

  // --------------------------------------------------------- the step

  /** The library's float operations: reading a float's bytes, widening an integer, multiplying. */
  datatype FloatUnit = FloatUnit(read: seq<int> -> Float, widen: int -> Float, multiply: (Float, Float) -> Float)

  datatype Scale = NoScale | Literal(value: Float) | Sourced(lookup: Fields -> Option<Value>)

  datatype Spec = Spec(lookup: Fields -> Option<Value>, elem: ElemType, order: ByteOrder, target: string, scale: Scale)

  /** Finite and not zero. */
  predicate ScaleOk(f: Float) {
    f.Finite? && f.mantissa != 0
  }

  /** The scale block of a step's configuration: a map with exactly one of value and source. */
  function CompileScale(x: Library, u: FloatUnit, cfg: YamlMap): Result<Scale> {
    if "scale" !in cfg then Ok(NoScale)
    else if !cfg["scale"].YMap? then Err("'scale' must be a map")
    else
      var m := cfg["scale"].entries;
      if ("value" in m) == ("source" in m) then Err("'scale' must have exactly one of 'value' or 'source'")
      else if "value" in m then
        match m["value"]
        case YFloat(f) => if ScaleOk(f) then Ok(Literal(f)) else Err("scale must be finite and non-zero")
        case YInt(i) => if ScaleOk(u.widen(i)) then Ok(Literal(u.widen(i))) else Err("scale must be finite and non-zero")
        case _ => Err("scale 'value' must be a number")
      else
        var path := StringOption(m, "source");
        if path == "" || !x.validPath(path) then Err("scale 'source' must be a field path")
        else Ok(Sourced(fields => x.lookup(path, fields)))
  }

  /** Without an endianness the host's byte order is used. */
  function CompileOrder(native: ByteOrder, cfg: YamlMap): Result<ByteOrder> {
    if "endianness" !in cfg then Ok(native)
    else if StringOption(cfg, "endianness") == "little" then Ok(LittleEndian)
    else if StringOption(cfg, "endianness") == "big" then Ok(BigEndian)
    else Err("'endianness' must be \"little\" or \"big\"")
  }

  function CompileUnpack(x: Library, u: FloatUnit, native: ByteOrder, cfg: YamlMap): (r: Result<Spec>)
    ensures r.Ok? ==> r.value.elem.Supported() && r.value.target == StringOption(cfg, "target")
  {
    var source, target := StringOption(cfg, "source"), StringOption(cfg, "target");
    var elem := ElemTypeOf(StringOption(cfg, "type"));
    if source == "" || target == "" || target[0] == '$' || elem.None? || !x.validPath(source) then Err("invalid unpack step")
    else match CompileOrder(native, cfg)
      case Err(e) => Err(e)
      case Ok(order) =>
        match CompileScale(x, u, cfg)
        case Err(e) => Err(e)
        case Ok(scale) => Ok(Spec(fields => x.lookup(source, fields), elem.value, order, target, scale))
  }

  /** Integers for an integer type without scale, floats otherwise. */
  predicate Produces(spec: Spec, v: Value) {
    if !spec.elem.Floating? && spec.scale == NoScale then v.VInts? else v.VFloats?
  }

  /** The load-time comparison of an unpack step with the exploded column is exact: what the
      step writes passes the per-message type check if and only if the comparison accepts. */
  lemma TypeTraceIsExact(x: Library, u: FloatUnit, native: ByteOrder, cfg: YamlMap, e: ExplodeSpec, v: Value)
    requires CompileUnpack(x, u, native, cfg).Ok? && Produces(CompileUnpack(x, u, native, cfg).value, v)
    requires e.targetType == Double || e.targetType == Int64
    ensures ResolveArray(e, v).Ok? <==> UnpackOutputType(cfg) == e.targetType
  {
    var spec := CompileUnpack(x, u, native, cfg).value;
    assert spec.scale == NoScale <==> "scale" !in cfg;
    assert spec.elem.Floating? <==> StringOption(cfg, "type") == "float32" || StringOption(cfg, "type") == "float64";
  }

  function ResolveScale(scale: Scale, fields: Fields): (r: Result<Float>)
    requires scale != NoScale
    ensures r.Ok? && (scale.Literal? ==> ScaleOk(scale.value)) ==> ScaleOk(r.value)
  {
    match scale
    case Literal(f) => Ok(f)
    case Sourced(lookup) =>
      match lookup(fields)
      case None => Err("scale field not found")
      case Some(value) =>
        if value.VFloat? && ScaleOk(value.f) then Ok(value.f) else Err("scale must be a finite, non-zero float64")
  }

  function ScaleUsed(spec: Spec, fields: Fields): (s: Option<Float>)
    ensures s.Some? && (spec.scale.Literal? ==> ScaleOk(spec.scale.value)) ==> ScaleOk(s.value)
  {
    if spec.scale == NoScale then None
    else match ResolveScale(spec.scale, fields)
      case Ok(f) => Some(f)
      case Err(_) => None
  }

  /** float64 widening: uint64 keeps its unsigned value here. */
  function Widened(u: FloatUnit, t: ElemType, order: ByteOrder, bytes: seq<int>): Float
    requires |bytes| >= t.width
  {
    if t.Floating? then u.read(bytes[..t.width])
    else if t == Unsigned(8) then u.widen(Number(order, bytes[..8]))
    else u.widen(ReadInt(t, order, bytes))
  }

  /** The first n elements as floats, widened first and then scaled. */
  function UnpackedFloats(u: FloatUnit, t: ElemType, order: ByteOrder, raw: seq<int>, n: nat, scale: Option<Float>): (out: seq<Float>)
    requires Offset(n, t.width) <= |raw|
    ensures |out| == n
  {
    if n == 0 then []
    else
      var f := Widened(u, t, order, raw[Offset(n - 1, t.width)..]);
      UnpackedFloats(u, t, order, raw, n - 1, scale) + [if scale.Some? then u.multiply(f, scale.value) else f]
  }

  /** One read, inside the bytes. */
  method ReadFloat(u: FloatUnit, raw: seq<int>, order: ByteOrder, t: ElemType, scale: Option<Float>, i: nat) returns (f: Float)
    requires t.Supported() && Offset(i + 1, t.width) <= |raw|
    ensures UnpackedFloats(u, t, order, raw, i + 1, scale) == UnpackedFloats(u, t, order, raw, i, scale) + [f]
  {
    OffsetIsProduct(i, t.width);
    f := Widened(u, t, order, raw[i * t.width..]);
    if scale.Some? {
      f := u.multiply(f, scale.value);
    }
  }

  method ReadFloats(u: FloatUnit, raw: seq<int>, order: ByteOrder, t: ElemType, scale: Option<Float>, n: nat) returns (out: seq<Float>)
    requires t.Supported() && Offset(n, t.width) <= |raw|
    ensures out == UnpackedFloats(u, t, order, raw, n, scale)
  {
    out := [];
    for i := 0 to n
      invariant Offset(i, t.width) <= |raw| && out == UnpackedFloats(u, t, order, raw, i, scale)
    {
      OffsetMonotone(i + 1, n, t.width);
      var f := ReadFloat(u, raw, order, t, scale, i);
      out := out + [f];
    }
  }

  method UnpackFloats(u: FloatUnit, raw: seq<int>, order: ByteOrder, t: ElemType, scale: Option<Float>) returns (out: seq<Float>)
    requires t.Supported()
    ensures Offset(|raw| / t.width, t.width) <= |raw| && out == UnpackedFloats(u, t, order, raw, |raw| / t.width, scale)
  {
    WholeElements(|raw|, t.width);
    out := ReadFloats(u, raw, order, t, scale, |raw| / t.width);
  }

  /** Whether the step can decode its source field. */
  predicate Decodes(spec: Spec, fields: Fields)
    requires spec.elem.Supported()
  {
    var source := spec.lookup(fields);
    && source.Some? && source.value.VBytes? && |source.value.bytes| % spec.elem.width == 0
    && (spec.scale == NoScale || ResolveScale(spec.scale, fields).Ok?)
  }

  class UnpackStep {
    const spec: Spec
    const floatUnit: FloatUnit
    var fields: Fields

    constructor (spec: Spec, floatUnit: FloatUnit, fields: Fields)
      ensures this.spec == spec && this.floatUnit == floatUnit && this.fields == fields
    {
      this.spec, this.floatUnit, this.fields := spec, floatUnit, fields;
    }

    /** All or nothing: the target holds one number for every element, integers exactly for an
        integer type without scale, or the fields are untouched and the step fails, which it
        does exactly when the source is missing, is not a byte string, has a length that is no
        multiple of the width, or the scale cannot be used. */
    method Run() returns (ok: bool)
      requires spec.elem.Supported()
      modifies this`fields
      ensures ok <==> Decodes(spec, old(fields))
      ensures !ok ==> fields == old(fields)
      ensures ok ==> forall name :: name != spec.target ==> (name in fields <==> name in old(fields)) && (name in fields ==> fields[name] == old(fields)[name])
      ensures ok ==> spec.target in fields && Produces(spec, fields[spec.target])
      ensures ok ==>
                var raw, n := spec.lookup(old(fields)).value.bytes, |spec.lookup(old(fields)).value.bytes| / spec.elem.width;
                && spec.target in fields
                && if !spec.elem.Floating? && spec.scale == NoScale
                   then Offset(n, spec.elem.width) <= |raw| && fields[spec.target] == VInts(UnpackedInts(spec.elem, spec.order, raw, n))
                   else Offset(n, spec.elem.width) <= |raw| &&
                        fields[spec.target] == VFloats(UnpackedFloats(floatUnit, spec.elem, spec.order, raw, n, ScaleUsed(spec, old(fields))))
    {
      var value := spec.lookup(fields);
      if value.None? || !value.value.VBytes? || |value.value.bytes| % spec.elem.width != 0 {
        return false;
      }
      var raw := value.value.bytes;
      if spec.scale != NoScale {
        var scale := ResolveScale(spec.scale, fields);
        if scale.Err? {
          return false;
        }
        var scaled := UnpackFloats(floatUnit, raw, spec.order, spec.elem, Some(scale.value));
        fields := fields[spec.target := VFloats(scaled)];
        return true;
      }
      if spec.elem.Floating? {
        var floats := UnpackFloats(floatUnit, raw, spec.order, spec.elem, None);
        fields := fields[spec.target := VFloats(floats)];
      } else {
        var ints := UnpackInts(raw, spec.order, spec.elem);
        fields := fields[spec.target := VInts(ints[..])];
      }
      return true;
    }
  }
}
