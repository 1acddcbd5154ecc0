/** internal/filter/filter.go: keeping or dropping tables by the values of their first row. */
module RowFilter {
  import opened Common
  import opened Tables
  import opened Explode

  datatype Mode = Whitelist | Blacklist

  datatype MatchEntry = MatchEntry(column: string, value: Yaml)

  datatype Spec = Spec(mode: string, entries: seq<MatchEntry>)

  datatype Match = MatchInt(offset: nat, i: int) | MatchString(offset: nat, s: string)

  datatype RowFilter = RowFilter(mode: Mode, matches: seq<Match>)

  function ParseMode(s: string): Result<Mode> {
    if s == "whitelist" then Ok(Whitelist)
    else if s == "blacklist" then Ok(Blacklist)
    else Err("filters.mode must be 'whitelist' or 'blacklist'")
  }

  /** The last column of that name, its NUL terminator stripped. */
  function OffsetOf(columns: seq<WriterColumn>, name: string): (i: Option<nat>)
    ensures i.Some? ==> i.value < |columns| && TrimTerminator(columns[i.value].name) == name
  {
    if columns == [] then None
    else if TrimTerminator(columns[|columns| - 1].name) == name then Some(|columns| - 1)
    else OffsetOf(columns[..|columns| - 1], name)
  }

  function ResolveMatch(entry: MatchEntry, columns: seq<WriterColumn>): (r: Result<Match>)
    ensures r.Ok? ==> r.value.offset < |columns| && TrimTerminator(columns[r.value.offset].name) == entry.column
  {
    match OffsetOf(columns, entry.column)
    case None => Err("unknown column")
    case Some(offset) =>
      match columns[offset].columnType
      case Int64 => if entry.value.YInt? then Ok(MatchInt(offset, entry.value.i)) else Err("value must be an integer")
      case String => if entry.value.YString? then Ok(MatchString(offset, entry.value.s)) else Err("value must be a string")
      case _ => Err("unsupported column type")
  }

  function ResolveMatches(entries: seq<MatchEntry>, columns: seq<WriterColumn>, exploded: seq<string>): (r: Result<seq<Match>>)
    ensures r.Ok? ==> |r.value| == |entries|
    ensures r.Ok? ==> forall k :: 0 <= k < |entries| ==>
              && entries[k].column !in exploded
              && r.value[k].offset < |columns| && TrimTerminator(columns[r.value[k].offset].name) == entries[k].column
  {
    if entries == [] then Ok([])
    else
      var last := entries[|entries| - 1];
      match ResolveMatches(entries[..|entries| - 1], columns, exploded)
      case Err(e) => Err(e)
      case Ok(before) =>
        if last.column in exploded then Err("references exploded column")
        else match ResolveMatch(last, columns)
             case Err(e) => Err(e)
             case Ok(m) => Ok(before + [m])
  }

  /** None is pass-through. */
  function New(spec: Spec, columns: seq<WriterColumn>, exploded: seq<string>): Result<Option<RowFilter>> {
    if spec.mode == "" && spec.entries == [] then Ok(None)
    else match ParseMode(spec.mode)
         case Err(e) => Err(e)
         case Ok(mode) =>
           if spec.entries == [] then Err("filters.match must be non-empty")
           else match ResolveMatches(spec.entries, columns, exploded)
                case Err(e) => Err(e)
                case Ok(ms) => Ok(Some(RowFilter(mode, ms)))
  }

  /** The maps from column name to position and type; of equal names the last one stays. */
  method IndexColumns(columns: seq<WriterColumn>) returns (offsetByName: map<string, nat>, typeByName: map<string, ColumnType>)
    ensures Indexes(columns, offsetByName, typeByName)
  {
    offsetByName, typeByName := map[], map[];
    for i := 0 to |columns|
      invariant Indexes(columns[..i], offsetByName, typeByName)
    {
      assert columns[..i + 1][..i] == columns[..i];
      var name := TrimTerminator(columns[i].name);
      offsetByName := offsetByName[name := i];
      typeByName := typeByName[name := columns[i].columnType];
    }
    assert columns[..|columns|] == columns;
  }

  lemma {:induction false} MatchesStop(entries: seq<MatchEntry>, columns: seq<WriterColumn>, exploded: seq<string>, k: nat)
    requires k <= |entries| && ResolveMatches(entries[..k], columns, exploded).Err?
    ensures ResolveMatches(entries, columns, exploded).Err?
    decreases |entries| - k
  {
    if k < |entries| {
      assert entries[..k + 1][..k] == entries[..k];
      MatchesStop(entries, columns, exploded, k + 1);
    } else {
      assert entries[..k] == entries;
    }
  }

  /** What the two maps say about the columns. */
  ghost predicate Indexes(columns: seq<WriterColumn>, offsetByName: map<string, nat>, typeByName: map<string, ColumnType>) {
    && (forall name :: name in offsetByName <==> OffsetOf(columns, name).Some?)
    && typeByName.Keys == offsetByName.Keys
    && forall name :: name in offsetByName ==>
         && OffsetOf(columns, name) == Some(offsetByName[name])
         && typeByName[name] == columns[offsetByName[name]].columnType
  }

  method MatchWith(entry: MatchEntry, columns: seq<WriterColumn>, offsetByName: map<string, nat>, typeByName: map<string, ColumnType>)
    returns (m: Option<Match>)
    requires Indexes(columns, offsetByName, typeByName)
    ensures m.Some? <==> ResolveMatch(entry, columns).Ok?
    ensures m.Some? ==> ResolveMatch(entry, columns) == Ok(m.value)
  {
    m := None;
    if entry.column in offsetByName {
      var offset := offsetByName[entry.column];
      match typeByName[entry.column] {
        case Int64 => if entry.value.YInt? { m := Some(MatchInt(offset, entry.value.i)); }
        case String => if entry.value.YString? { m := Some(MatchString(offset, entry.value.s)); }
        case _ =>
      }
    }
  }

  /** Accepts exactly the specifications that New accepts, with the same filter. */
  method NewFilter(spec: Spec, columns: seq<WriterColumn>, exploded: seq<string>) returns (r: Result<Option<RowFilter>>)
    ensures r.Ok? <==> New(spec, columns, exploded).Ok?
    ensures r.Ok? ==> r == New(spec, columns, exploded)
  {
    if spec.mode == "" && |spec.entries| == 0 {
      return Ok(None);
    }
    var mode := ParseMode(spec.mode);
    if mode.Err? || |spec.entries| == 0 {
      return Err("filters.mode or filters.match");
    }
    var offsetByName, typeByName := IndexColumns(columns);
    var matches := [];
    for k := 0 to |spec.entries|
      invariant ResolveMatches(spec.entries[..k], columns, exploded) == Ok(matches)
    {
      var entry := spec.entries[k];
      assert spec.entries[..k + 1][..k] == spec.entries[..k];
      if entry.column in exploded {
        MatchesStop(spec.entries, columns, exploded, k + 1);
        return Err("filters.match references an exploded column");
      }
      var m := MatchWith(entry, columns, offsetByName, typeByName);
      if m.None? {
        MatchesStop(spec.entries, columns, exploded, k + 1);
        return Err("filters.match");
      }
      matches := matches + [m.value];
    }
    assert spec.entries[..|spec.entries|] == spec.entries;
    return Ok(Some(RowFilter(mode.value, matches)));
  }

  /** A predicate that can be resolved: it names a column that is not exploded and has a type
      the filter compares, and its value is of that type. */
  ghost predicate Acceptable(entry: MatchEntry, columns: seq<WriterColumn>, exploded: seq<string>) {
    && entry.column !in exploded
    && var offset := OffsetOf(columns, entry.column);
       offset.Some? && match columns[offset.value].columnType
                       case Int64 => entry.value.YInt?
                       case String => entry.value.YString?
                       case _ => false
  }

  lemma {:induction false} ResolvesExactly(entries: seq<MatchEntry>, columns: seq<WriterColumn>, exploded: seq<string>)
    ensures ResolveMatches(entries, columns, exploded).Ok? <==>
              forall k :: 0 <= k < |entries| ==> Acceptable(entries[k], columns, exploded)
  {
    if entries != [] {
      var front, last := entries[..|entries| - 1], entries[|entries| - 1];
      assert entries == front + [last];
      ResolvesExactly(front, columns, exploded);
      ResolvesOne(last, columns);
      ResolvesSnoc(front, last, columns, exploded);
    }
  }

  lemma ResolvesOne(entry: MatchEntry, columns: seq<WriterColumn>)
    ensures ResolveMatch(entry, columns).Ok? <==> Acceptable(entry, columns, [])
  {}

  lemma ResolvesSnoc(entries: seq<MatchEntry>, last: MatchEntry, columns: seq<WriterColumn>, exploded: seq<string>)
    ensures ResolveMatches(entries + [last], columns, exploded).Ok? <==>
              ResolveMatches(entries, columns, exploded).Ok? && last.column !in exploded && ResolveMatch(last, columns).Ok?
  {
    assert (entries + [last])[..|entries|] == entries;
  }

  /** A specification is accepted if and only if it is empty, or has a known mode and at least
      one predicate, all of them acceptable. */
  lemma NewAcceptsExactly(spec: Spec, columns: seq<WriterColumn>, exploded: seq<string>)
    ensures New(spec, columns, exploded).Ok? <==>
              || (spec.mode == "" && spec.entries == [])
              || ((spec.mode == "whitelist" || spec.mode == "blacklist") && spec.entries != []
                  && forall k :: 0 <= k < |spec.entries| ==> Acceptable(spec.entries[k], columns, exploded))
  {
    ResolvesExactly(spec.entries, columns, exploded);
  }

  /** A missing or empty column, or one of another type, does not match. */
  predicate MatchRow0(t: Table, m: Match) {
    var cd := t.GetData(m.offset);
    cd.Ok? &&
    match m
    case MatchInt(_, i) => cd.value.Ints? && cd.value.ints != [] && cd.value.ints[0] == i
    case MatchString(_, s) => cd.value.Strings? && cd.value.strings != [] && cd.value.strings[0] == s
  }

  predicate RowMatches(f: RowFilter, t: Table) {
    exists k :: 0 <= k < |f.matches| && MatchRow0(t, f.matches[k])
  }

  predicate Keeps(f: RowFilter, t: Table) {
    (f.mode == Whitelist) == RowMatches(f, t)
  }

  function Kept(f: Option<RowFilter>, tables: seq<Table>): seq<Table> {
    if f.None? then tables
    else if tables == [] then []
    else Kept(f, tables[..|tables| - 1]) + if Keeps(f.value, tables[|tables| - 1]) then [tables[|tables| - 1]] else []
  }

  method EvaluateRow(f: RowFilter, t: Table) returns (matched: bool)
    ensures matched == RowMatches(f, t)
  {
    for k := 0 to |f.matches|
      invariant forall i :: 0 <= i < k ==> !MatchRow0(t, f.matches[i])
    {
      if MatchRow0(t, f.matches[k]) {
        return true;
      }
    }
    return false;
  }

  method Apply(f: Option<RowFilter>, tables: seq<Table>) returns (kept: seq<Table>)
    ensures kept == Kept(f, tables)
  {
    if f.None? {
      return tables;
    }
    kept := [];
    for k := 0 to |tables|
      invariant kept == Kept(f, tables[..k])
    {
      assert tables[..k + 1][..k] == tables[..k];
      var matched := EvaluateRow(f.value, tables[k]);
      if (f.value.mode == Whitelist) == matched {
        kept := kept + [tables[k]];
      }
    }
    assert tables[..|tables|] == tables;
  }

  // ------------------------------------------------------------ row 0 stands for every row

  /** All values of a column are equal. */
  predicate Constant(c: ColumnData) {
    match c
    case Doubles(xs) => forall r :: 0 <= r < |xs| ==> xs[r] == xs[0]
    case Ints(xs) => forall r :: 0 <= r < |xs| ==> xs[r] == xs[0]
    case Times(xs) => forall r :: 0 <= r < |xs| ==> xs[r] == xs[0]
    case Strings(xs) => forall r :: 0 <= r < |xs| ==> xs[r] == xs[0]
    case Blobs(xs) => forall r :: 0 <= r < |xs| ==> xs[r] == xs[0]
  }

  /** Every predicate of the filter looks at a column whose values are all equal. */
  ghost predicate LooksAtConstants(f: RowFilter, t: Table) {
    forall k :: 0 <= k < |f.matches| && f.matches[k].offset < |t.data| ==> Constant(t.data[f.matches[k].offset])
  }

  lemma RowAgrees(f: RowFilter, t: Table, r: nat)
    requires t.Shaped(|t.index|) && r < |t.index| && LooksAtConstants(f, t)
    ensures Keeps(f, t.Row(r)) <==> Keeps(f, t)
  {
    forall k | 0 <= k < |f.matches|
      ensures MatchRow0(t.Row(r), f.matches[k]) <==> MatchRow0(t, f.matches[k])
    {
    }
  }

  lemma {:induction false} KeepAllOrNone(f: RowFilter, rows: seq<Table>, keep: bool)
    requires forall r :: 0 <= r < |rows| ==> (Keeps(f, rows[r]) <==> keep)
    ensures Kept(Some(f), rows) == if keep then rows else []
  {
    if rows != [] {
      KeepAllOrNone(f, rows[..|rows| - 1], keep);
    }
  }

  lemma RowZeroDecides(f: RowFilter, t: Table)
    requires t.Shaped(|t.index|) && LooksAtConstants(f, t)
    ensures Kept(Some(f), t.SplitRows()) == if Keeps(f, t) then t.SplitRows() else []
  {
    forall r | 0 <= r < |t.index|
      ensures Keeps(f, t.SplitRows()[r]) <==> Keeps(f, t)
    {
      RowAgrees(f, t, r);
    }
    KeepAllOrNone(f, t.SplitRows(), Keeps(f, t));
  }

  lemma {:induction false} KeptDistributes(f: Option<RowFilter>, a: seq<Table>, b: seq<Table>)
    ensures Kept(f, a + b) == Kept(f, a) + Kept(f, b)
  {
    if f.None? {
    } else if b == [] {
      assert a + b == a;
    } else {
      assert (a + b)[..|a + b| - 1] == a + b[..|b| - 1];
      KeptDistributes(f, a, b[..|b| - 1]);
    }
  }

  lemma {:induction false} KeptAreShaped(f: RowFilter, tables: seq<Table>)
    requires AllShaped(tables)
    ensures AllShaped(Kept(Some(f), tables))
  {
    if tables != [] {
      KeptAreShaped(f, tables[..|tables| - 1]);
    }
  }

  /** Filtering whole tables by their first rows keeps the same rows, in the same order, as
      splitting every table into one-row tables and filtering those. */
  lemma {:induction false} RowZeroIsExact(f: RowFilter, tables: seq<Table>)
    requires AllShaped(tables)
    requires forall k :: 0 <= k < |tables| ==> LooksAtConstants(f, tables[k])
    ensures AllShaped(Kept(Some(f), tables))
    ensures Kept(Some(f), AllRows(tables)) == AllRows(Kept(Some(f), tables))
  {
    KeptAreShaped(f, tables);
    if tables != [] {
      var before, last := tables[..|tables| - 1], tables[|tables| - 1];
      RowZeroIsExact(f, before);
      RowZeroDecides(f, last);
      KeptDistributes(Some(f), AllRows(before), last.SplitRows());
      var kept := Kept(Some(f), before);
      assert Keeps(f, last) ==> (kept + [last])[..|kept|] == kept;
      assert kept + [] == kept;
    }
  }
}
