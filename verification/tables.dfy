/** The values that flow through the parser, and the writer table of the QuasarDB client
    (vendor/github.com/bureau14/qdb-api-go/v3/writer_table.go). */
module Tables {
  import opened Common

  /** A float64: finite ones are mantissa * 2^exponent with |mantissa| < 2^53. */
  datatype Float = NaN | Infinite(negative: bool) | Finite(mantissa: int, exponent: int) {
    predicate WellFormed() {
      Finite? ==> -0x20_0000_0000_0000 < mantissa < 0x20_0000_0000_0000
    }

    function ToReal(): real
      requires Finite?
    {
      if exponent >= 0 then (mantissa * Pow2(exponent)) as real else mantissa as real / Pow2(-exponent) as real
    }
  }

  /** A dynamically typed field value; instants are nanoseconds. */
  datatype Value =
    | Nil
    | VBool(b: bool)
    | VFloat(f: Float)
    | VInt(i: int)
    | VTime(t: int)
    | VString(s: string)
    | VBytes(bytes: seq<int>)
    | VFloats(fs: seq<Float>)
    | VInts(ints: seq<int>)
    | VList(elements: seq<Value>)
    | VMap(entries: map<string, Value>)

  type Fields = map<string, Value>

  datatype ColumnType = Double | Int64 | Timestamp | String | Symbol | Blob {
    /** The client-side type of the values: symbols travel as strings. */
    function AsValueType(): (t: ColumnType)
      ensures t != Symbol && (this != Symbol ==> t == this)
    {
      if this == Symbol then String else this
    }
  }

  datatype ColumnData =
    | Doubles(doubles: seq<Float>)
    | Ints(ints: seq<int>)
    | Times(times: seq<int>)
    | Strings(strings: seq<string>)
    | Blobs(blobs: seq<seq<int>>)
  {
    function Type(): ColumnType {
      match this
      case Doubles(_) => Double
      case Ints(_) => Int64
      case Times(_) => Timestamp
      case Strings(_) => String
      case Blobs(_) => Blob
    }

    function Length(): nat {
      match this
      case Doubles(xs) => |xs|
      case Ints(xs) => |xs|
      case Times(xs) => |xs|
      case Strings(xs) => |xs|
      case Blobs(xs) => |xs|
    }

    /** The column restricted to one row. */
    function Cell(r: nat): (c: ColumnData)
      requires r < Length()
      ensures c.Type() == Type() && c.Length() == 1
    {
      match this
      case Doubles(xs) => Doubles([xs[r]])
      case Ints(xs) => Ints([xs[r]])
      case Times(xs) => Times([xs[r]])
      case Strings(xs) => Strings([xs[r]])
      case Blobs(xs) => Blobs([xs[r]])
    }
  }

  function EmptyData(t: ColumnType): (c: ColumnData)
    ensures c.Length() == 0 && c.Type() == t.AsValueType()
  {
    match t
    case Double => Doubles([])
    case Int64 => Ints([])
    case Timestamp => Times([])
    case String => Strings([])
    case Symbol => Strings([])
    case Blob => Blobs([])
  }

  datatype WriterColumn = WriterColumn(name: string, columnType: ColumnType)

  datatype Table = Table(name: string, columns: seq<WriterColumn>, index: seq<int>, data: seq<ColumnData>) {
    /** n rows: an index of length n and, in every column, n values of the declared type. */
    ghost predicate Shaped(n: nat) {
      && |index| == n
      && |data| == |columns|
      && forall i :: 0 <= i < |columns| ==> data[i].Type() == columns[i].columnType.AsValueType() && data[i].Length() == n
    }

    function SetData(offset: nat, xs: ColumnData): Result<Table>
      requires |data| == |columns|
    {
      if |columns| <= offset then Err("out of bounds")
      else if columns[offset].columnType.AsValueType() != xs.Type() then Err("incompatible type")
      else Ok(this.(data := data[offset := xs]))
    }

    function GetData(offset: nat): Result<ColumnData> {
      if offset >= |data| then Err("out of bounds") else Ok(data[offset])
    }

    /** Row r as a table of its own. */
    ghost function Row(r: nat): Table
      requires Shaped(|index|) && r < |index|
    {
      Table(name, columns, [index[r]], seq(|data|, i requires 0 <= i < |data| => data[i].Cell(r)))
    }

    ghost function SplitRows(): seq<Table>
      requires Shaped(|index|)
    {
      seq(|index|, r requires 0 <= r < |index| => Row(r))
    }
  }

  function NewTable(name: string, columns: seq<WriterColumn>): (t: Table)
    ensures |t.data| == |columns| && t.columns == columns
  {
    Table(name, columns, [], seq(|columns|, i requires 0 <= i < |columns| => EmptyData(columns[i].columnType)))
  }

  ghost predicate AllShaped(tables: seq<Table>) {
    forall k :: 0 <= k < |tables| ==> tables[k].Shaped(|tables[k].index|)
  }

  /** The rows of all tables, each as a table of its own. */
  ghost function AllRows(tables: seq<Table>): seq<Table>
    requires AllShaped(tables)
  {
    if tables == [] then [] else AllRows(tables[..|tables| - 1]) + tables[|tables| - 1].SplitRows()
  }

  lemma AllRowsSnoc(tables: seq<Table>, t: Table)
    requires AllShaped(tables) && t.Shaped(|t.index|)
    ensures AllShaped(tables + [t]) && AllRows(tables + [t]) == AllRows(tables) + t.SplitRows()
  {
    assert (tables + [t])[..|tables|] == tables;
  }

  lemma {:induction false} AllRowsDistribute(a: seq<Table>, b: seq<Table>)
    requires AllShaped(a) && AllShaped(b)
    ensures AllShaped(a + b) && AllRows(a + b) == AllRows(a) + AllRows(b)
  {
    if b == [] {
      assert a + b == a;
    } else {
      var front, last := b[..|b| - 1], b[|b| - 1];
      AllRowsDistribute(a, front);
      assert b == front + [last] && a + b == a + front + [last];
      AllRowsSnoc(front, last);
      AllRowsSnoc(a + front, last);
    }
  }

  /** The number of rows of some tables. */
  function RowCount(tables: seq<Table>): nat {
    if tables == [] then 0 else RowCount(tables[..|tables| - 1]) + |tables[|tables| - 1].index|
  }

  // Strings handed to the client carry a terminating NUL.

  function Terminated(s: string): string {
    s + ['\0']
  }

  function TrimTerminator(s: string): string {
    if s != "" && s[|s| - 1] == '\0' then s[..|s| - 1] else s
  }

  lemma TrimInvertsTerminate(s: string)
    ensures TrimTerminator(Terminated(s)) == s
  {
    assert Terminated(s)[..|s|] == s;
  }
}
