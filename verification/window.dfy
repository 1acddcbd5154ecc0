/** internal/telemetry/window.go: the five-minute ring of per-table counts, against the
    plain log of everything that was added. */
module Window {
  import opened Common

  const BUCKETS: nat := 5
  const MAX_DISTINCT: nat := 10_000
  const OTHER: string := "other"

  datatype Count = Count(rows: nat, msgs: nat)

  function Zero(): Count {
    Count(0, 0)
  }

  function Plus(a: Count, b: Count): Count {
    Count(a.rows + b.rows, a.msgs + b.msgs)
  }

  datatype Measure = Rows | Msgs

  function Amount(c: Count, m: Measure): nat {
    if m == Rows then c.rows else c.msgs
  }

  function Get(counts: map<string, Count>, table: string): Count {
    if table in counts then counts[table] else Zero()
  }

  datatype Event = Event(minute: nat, table: string, count: Count)

  /** None is a slot that was never used. */
  datatype Bucket = Bucket(minute: nat, counts: Option<map<string, Count>>)

  // --------------------------------------------------------- the log

  /** A choice of events: those of one minute, those since a minute, or those since a minute
      that fall into one slot of the ring or below a slot; of all tables or of one. */
  datatype Filter =
    | At(minute: int, table: Option<string>)
    | Since(oldest: int, table: Option<string>)
    | InSlot(oldest: int, slot: nat, table: Option<string>)
    | Below(oldest: int, slot: nat, table: Option<string>)
  {
    predicate Selects(e: Event) {
      && (table.None? || e.table == table.value)
      && match this
         case At(m, _) => e.minute == m
         case Since(m, _) => e.minute >= m
         case InSlot(m, s, _) => e.minute >= m && e.minute % BUCKETS == s
         case Below(m, s, _) => e.minute >= m && e.minute % BUCKETS < s
    }
  }

  function Sum(log: seq<Event>, f: Filter, m: Measure): nat {
    if log == [] then 0
    else
      var e := log[|log| - 1];
      Sum(log[..|log| - 1], f, m) + if f.Selects(e) then Amount(e.count, m) else 0
  }

  ghost function TablesAt(log: seq<Event>, minute: int): set<string> {
    if log == [] then {}
    else
      var e := log[|log| - 1];
      TablesAt(log[..|log| - 1], minute) + if e.minute == minute then {e.table} else {}
  }

  ghost function TablesSince(log: seq<Event>, oldest: int): set<string> {
    if log == [] then {}
    else
      var e := log[|log| - 1];
      TablesSince(log[..|log| - 1], oldest) + if e.minute >= oldest then {e.table} else {}
  }

  lemma {:induction false} TablesAreAdded(log: seq<Event>, minute: int, table: string)
    ensures table in TablesAt(log, minute) <==> exists e :: e in log && e.minute == minute && e.table == table
    ensures table in TablesSince(log, minute) <==> exists e :: e in log && e.minute >= minute && e.table == table
  {
    if log != [] {
      TablesAreAdded(log[..|log| - 1], minute, table);
      assert log == log[..|log| - 1] + [log[|log| - 1]];
    }
  }

  lemma {:induction false} SumAgrees(log: seq<Event>, p: Filter, q: Filter, m: Measure)
    requires forall e :: e in log ==> p.Selects(e) == q.Selects(e)
    ensures Sum(log, p, m) == Sum(log, q, m)
  {
    if log != [] {
      SumAgrees(log[..|log| - 1], p, q, m);
    }
  }

  lemma {:induction false} SumOfNone(log: seq<Event>, f: Filter, m: Measure)
    requires forall e :: e in log ==> !f.Selects(e)
    ensures Sum(log, f, m) == 0
  {
    if log != [] {
      SumOfNone(log[..|log| - 1], f, m);
    }
  }

  // --------------------------------------------------------- one bucket

  /** A new table past the cap is counted under the overflow key. */
  function KeyFor(counts: map<string, Count>, table: string): string {
    if table !in counts && |counts| >= MAX_DISTINCT then OTHER else table
  }

  function Bump(counts: map<string, Count>, table: string, c: Count): map<string, Count> {
    var key := KeyFor(counts, table);
    counts[key := Plus(Get(counts, key), c)]
  }

  /** What the events of one minute leave in a bucket. */
  function Tally(log: seq<Event>, minute: int): map<string, Count> {
    if log == [] then map[]
    else
      var e := log[|log| - 1];
      var before := Tally(log[..|log| - 1], minute);
      if e.minute == minute then Bump(before, e.table, e.count) else before
  }

  lemma {:induction false} TallyOfNone(log: seq<Event>, minute: int)
    requires forall e :: e in log ==> e.minute != minute
    ensures Tally(log, minute) == map[]
  {
    if log != [] {
      TallyOfNone(log[..|log| - 1], minute);
    }
  }

  lemma UpdateSize(counts: map<string, Count>, key: string, c: Count)
    ensures |counts[key := c]| == if key in counts then |counts| else |counts| + 1
  {
    assert counts[key := c].Keys == counts.Keys + {key};
    assert |counts[key := c].Keys| == |counts[key := c]| && |counts.Keys| == |counts|;
  }

  /** A bucket holds at most one key more than the cap, and then the extra one is the overflow key. */
  lemma {:induction false} BucketIsBounded(log: seq<Event>, minute: int)
    ensures |Tally(log, minute)| <= MAX_DISTINCT + 1
    ensures |Tally(log, minute)| == MAX_DISTINCT + 1 ==> OTHER in Tally(log, minute)
  {
    if log != [] {
      var e, before := log[|log| - 1], Tally(log[..|log| - 1], minute);
      BucketIsBounded(log[..|log| - 1], minute);
      var key := KeyFor(before, e.table);
      UpdateSize(before, key, Plus(Get(before, key), e.count));
    }
  }

  lemma SetGrows<T>(s: set<T>, x: T)
    ensures |s + {x}| == if x in s then |s| else |s| + 1
  {
    if x in s {
      assert s + {x} == s;
    }
  }

  lemma BumpKeys(counts: map<string, Count>, table: string, c: Count)
    ensures Bump(counts, table, c).Keys == counts.Keys + {KeyFor(counts, table)}
    ensures |Bump(counts, table, c)| >= |counts|
  {
    var key := KeyFor(counts, table);
    UpdateSize(counts, key, Plus(Get(counts, key), c));
  }

  /** The keys of a bucket are tables of that minute, or the overflow key; below the cap
      they are all of them. */
  lemma {:induction false} KeysAreTables(log: seq<Event>, minute: int)
    ensures Tally(log, minute).Keys <= TablesAt(log, minute) + {OTHER}
    ensures |Tally(log, minute)| < MAX_DISTINCT ==> Tally(log, minute).Keys == TablesAt(log, minute)
  {
    if log != [] {
      var e, before := log[|log| - 1], Tally(log[..|log| - 1], minute);
      KeysAreTables(log[..|log| - 1], minute);
      if e.minute == minute {
        BumpKeys(before, e.table, e.count);
      }
    }
  }

  lemma BumpEntry(counts: map<string, Count>, table: string, c: Count, other: string, m: Measure)
    requires KeyFor(counts, table) == table
    ensures Amount(Get(Bump(counts, table, c), other), m) == Amount(Get(counts, other), m) + if other == table then Amount(c, m) else 0
  {}

  lemma FewerTablesBefore(log: seq<Event>, minute: int)
    requires log != []
    ensures |TablesAt(log[..|log| - 1], minute)| <= |TablesAt(log, minute)|
  {
    SetGrows(TablesAt(log[..|log| - 1], minute), log[|log| - 1].table);
    assert TablesAt(log[..|log| - 1], minute) + {} == TablesAt(log[..|log| - 1], minute);
  }

  /** With at most the cap of distinct tables no event is redirected, and the keys are exactly the tables. */
  lemma {:induction false} NoOverflow(log: seq<Event>, minute: int)
    requires |TablesAt(log, minute)| <= MAX_DISTINCT
    ensures Tally(log, minute).Keys == TablesAt(log, minute)
    ensures log != [] && log[|log| - 1].minute == minute ==>
              KeyFor(Tally(log[..|log| - 1], minute), log[|log| - 1].table) == log[|log| - 1].table
  {
    if log != [] {
      var e, before, tables := log[|log| - 1], Tally(log[..|log| - 1], minute), TablesAt(log[..|log| - 1], minute);
      SetGrows(tables, e.table);
      NoOverflow(log[..|log| - 1], minute);
      assert |before.Keys| == |before|;
    }
  }

  /** No event of the log counts towards a table whose key is still missing below the cap. */
  lemma MissingBelowCap(log: seq<Event>, minute: int, table: string, m: Measure)
    requires |Tally(log, minute)| < MAX_DISTINCT && table !in Tally(log, minute)
    ensures Sum(log, At(minute, Some(table)), m) == 0
  {
    KeysAreTables(log, minute);
    forall e | e in log
      ensures !At(minute, Some(table)).Selects(e)
    {
      TablesAreAdded(log, minute, table);
    }
    SumOfNone(log, At(minute, Some(table)), m);
  }

  /** Every table that has a key of its own is counted exactly, overflow or not. */
  lemma {:induction false} OwnKeysAreExact(log: seq<Event>, minute: int, table: string, m: Measure)
    requires table in Tally(log, minute) && table != OTHER
    ensures Amount(Tally(log, minute)[table], m) == Sum(log, At(minute, Some(table)), m)
  {
    var earlier := log[..|log| - 1];
    if table in Tally(earlier, minute) {
      OwnKeysAreExact(earlier, minute, table, m);
    } else {
      MissingBelowCap(earlier, minute, table, m);
    }
  }

  /** Without overflow every table is counted exactly, the one named like the overflow key too. */
  lemma {:induction false} ExactWithoutOverflow(log: seq<Event>, minute: int, table: string, m: Measure)
    requires |TablesAt(log, minute)| <= MAX_DISTINCT
    ensures Amount(Get(Tally(log, minute), table), m) == Sum(log, At(minute, Some(table)), m)
  {
    if log != [] {
      var earlier, e := log[..|log| - 1], log[|log| - 1];
      FewerTablesBefore(log, minute);
      ExactWithoutOverflow(earlier, minute, table, m);
      if e.minute == minute {
        NoOverflow(log, minute);
        BumpEntry(Tally(earlier, minute), e.table, e.count, table, m);
      }
    }
  }

  // --------------------------------------------------------- sums over a bucket

  /** The rows of a bucket, over all its keys. */
  ghost function TotalOver(counts: map<string, Count>, keys: set<string>): nat {
    if keys == {} then 0
    else
      var key :| key in keys;
      Get(counts, key).rows + TotalOver(counts, keys - {key})
  }

  ghost function Total(counts: map<string, Count>): nat {
    TotalOver(counts, counts.Keys)
  }

  /** The sum does not depend on the order in which the keys are visited. */
  lemma {:induction false} TotalWithout(counts: map<string, Count>, keys: set<string>, key: string)
    requires key in keys
    ensures TotalOver(counts, keys) == Get(counts, key).rows + TotalOver(counts, keys - {key})
  {
    var first :| first in keys && TotalOver(counts, keys) == Get(counts, first).rows + TotalOver(counts, keys - {first});
    if first != key {
      TotalWithout(counts, keys - {first}, key);
      TotalWithout(counts, keys - {key}, first);
      assert keys - {first} - {key} == keys - {key} - {first};
    }
  }

  lemma {:induction false} TotalOfSame(a: map<string, Count>, b: map<string, Count>, keys: set<string>)
    requires forall key :: key in keys ==> Get(a, key) == Get(b, key)
    ensures TotalOver(a, keys) == TotalOver(b, keys)
  {
    if keys != {} {
      var key :| key in keys;
      TotalWithout(a, keys, key);
      TotalWithout(b, keys, key);
      TotalOfSame(a, b, keys - {key});
    }
  }

  /** Keys without an entry add nothing. */
  lemma {:induction false} TotalOverMore(counts: map<string, Count>, keys: set<string>)
    requires counts.Keys <= keys
    ensures TotalOver(counts, keys) == Total(counts)
  {
    if counts.Keys != keys {
      var key :| key in keys && key !in counts.Keys;
      TotalWithout(counts, keys, key);
      TotalOverMore(counts, keys - {key});
    }
  }

  lemma TotalAfterUpdate(counts: map<string, Count>, key: string, c: Count)
    ensures Total(counts[key := Plus(Get(counts, key), c)]) == Total(counts) + c.rows
  {
    var updated := counts[key := Plus(Get(counts, key), c)];
    var keys := counts.Keys + {key};
    assert updated.Keys == keys;
    TotalOverMore(counts, keys);
    TotalWithout(counts, keys, key);
    TotalWithout(updated, keys, key);
    TotalOfSame(counts, updated, keys - {key});
  }

  /** Overflow moves rows to another key and loses none. */
  lemma {:induction false} RowsAreConserved(log: seq<Event>, minute: int)
    ensures Total(Tally(log, minute)) == Sum(log, At(minute, None), Rows)
  {
    if log != [] {
      var e, before := log[|log| - 1], Tally(log[..|log| - 1], minute);
      RowsAreConserved(log[..|log| - 1], minute);
      TotalAfterUpdate(before, KeyFor(before, e.table), e.count);
    }
  }

  // --------------------------------------------------------- the ring

  /** A used slot holds the tally of the latest minute that fell into it. */
  ghost predicate SlotHolds(b: Bucket, slot: nat, log: seq<Event>) {
    match b.counts
    case None => forall e :: e in log ==> e.minute % BUCKETS != slot
    case Some(counts) =>
      && b.minute % BUCKETS == slot && counts == Tally(log, b.minute)
      && (exists e :: e in log && e.minute == b.minute)
      && forall e :: e in log && e.minute % BUCKETS == slot ==> e.minute <= b.minute
  }

  ghost predicate RingHolds(ring: seq<Bucket>, log: seq<Event>) {
    |ring| == BUCKETS && forall i :: 0 <= i < BUCKETS ==> SlotHolds(ring[i], i, log)
  }

  predicate Live(b: Bucket, oldest: int) {
    b.counts.Some? && b.minute >= oldest
  }

  /** The first minute of the window that ends now. */
  function OldestMinute(now: nat): int {
    now / 60 - BUCKETS + 1
  }

  /** The entries a report takes from a bucket. */
  function LiveCounts(b: Bucket, oldest: int): map<string, Count> {
    if Live(b, oldest) then b.counts.value else map[]
  }

  ghost predicate NoLaterThan(log: seq<Event>, minute: int) {
    forall e :: e in log ==> e.minute <= minute
  }

  lemma SameMinute(a: nat, b: nat)
    requires a % BUCKETS == b % BUCKETS && b <= a < b + BUCKETS
    ensures a == b
  {
    assert (a - b) % BUCKETS == 0;
  }

  /** Within five minutes a slot names its minute: nothing older is left in it. */
  lemma SlotSum(b: Bucket, slot: nat, log: seq<Event>, oldest: int, table: Option<string>, m: Measure)
    requires SlotHolds(b, slot, log) && NoLaterThan(log, oldest + BUCKETS - 1)
    ensures Sum(log, InSlot(oldest, slot, table), m) ==
              if Live(b, oldest) then Sum(log, At(b.minute, table), m) else 0
  {
    if Live(b, oldest) {
      forall e | e in log
        ensures InSlot(oldest, slot, table).Selects(e) == At(b.minute, table).Selects(e)
      {
        if e.minute >= oldest && e.minute % BUCKETS == slot {
          SameMinute(b.minute, e.minute);
        }
      }
      SumAgrees(log, InSlot(oldest, slot, table), At(b.minute, table), m);
    } else {
      SumOfNone(log, InSlot(oldest, slot, table), m);
    }
  }

  lemma {:induction false} NextSlot(log: seq<Event>, oldest: int, slot: nat, table: Option<string>, m: Measure)
    ensures Sum(log, Below(oldest, slot + 1, table), m)
              == Sum(log, Below(oldest, slot, table), m) + Sum(log, InSlot(oldest, slot, table), m)
  {
    if log != [] {
      NextSlot(log[..|log| - 1], oldest, slot, table, m);
    }
  }

  /** The bucket after an addition: emptied first when it holds another minute. */
  function Record(b: Bucket, e: Event): Bucket {
    var counts := if b.minute != e.minute || b.counts.None? then map[] else b.counts.value;
    Bucket(e.minute, Some(Bump(counts, e.table, e.count)))
  }

  lemma LogSnoc(log: seq<Event>, e: Event)
    ensures (log + [e])[..|log|] == log && forall x :: x in log + [e] <==> x in log || x == e
  {}

  lemma RecordKeepsSlot(b: Bucket, slot: nat, log: seq<Event>, e: Event)
    requires SlotHolds(b, slot, log) && NoLaterThan(log, e.minute)
    ensures SlotHolds(if e.minute % BUCKETS == slot then Record(b, e) else b, slot, log + [e])
  {
    LogSnoc(log, e);
    if e.minute % BUCKETS == slot && (b.counts.None? || b.minute != e.minute) {
      TallyOfNone(log, e.minute);
    }
  }

  lemma RecordKeepsRing(ring: seq<Bucket>, log: seq<Event>, e: Event)
    requires RingHolds(ring, log) && NoLaterThan(log, e.minute)
    ensures var slot := e.minute % BUCKETS; RingHolds(ring[slot := Record(ring[slot], e)], log + [e])
  {
    forall i | 0 <= i < BUCKETS {
      RecordKeepsSlot(ring[i], i, log, e);
    }
  }

  // --------------------------------------------------------- merging the live slots

  function Merge(a: map<string, Count>, b: map<string, Count>): map<string, Count> {
    map t | t in a.Keys + b.Keys :: Plus(Get(a, t), Get(b, t))
  }

  function Merged(ring: seq<Bucket>, oldest: int, n: nat): map<string, Count>
    requires n <= |ring|
  {
    if n == 0 then map[] else Merge(Merged(ring, oldest, n - 1), LiveCounts(ring[n - 1], oldest))
  }

  lemma EntryOfMerge(a: map<string, Count>, b: map<string, Count>, table: string)
    ensures var c, x, y := Get(Merge(a, b), table), Get(a, table), Get(b, table);
            c.rows == x.rows + y.rows && c.msgs == x.msgs + y.msgs
  {}

  lemma MergeEntry(a: map<string, Count>, b: map<string, Count>, key: string, c: Count)
    requires key !in b
    ensures Merge(a, b[key := c]) == Merge(a, b)[key := Plus(Get(Merge(a, b), key), c)]
  {}

  lemma MergeWithNothing(a: map<string, Count>)
    ensures Merge(a, map[]) == a
  {}

  lemma MergeNext(ring: seq<Bucket>, oldest: int, i: nat)
    requires i < |ring|
    ensures var before, after := Merged(ring, oldest, i), Merged(ring, oldest, i + 1);
            if Live(ring[i], oldest)
            then after == Merge(before, ring[i].counts.value) && Total(after) == Total(before) + Total(ring[i].counts.value)
            else after == before
  {
    var before := Merged(ring, oldest, i);
    MergeWithNothing(before);
    TotalOfMerge(before, LiveCounts(ring[i], oldest));
  }

  lemma {:induction false} TotalOverMerge(a: map<string, Count>, b: map<string, Count>, keys: set<string>)
    ensures TotalOver(Merge(a, b), keys) == TotalOver(a, keys) + TotalOver(b, keys)
  {
    if keys != {} {
      var key :| key in keys;
      TotalWithout(a, keys, key);
      TotalWithout(b, keys, key);
      TotalWithout(Merge(a, b), keys, key);
      TotalOverMerge(a, b, keys - {key});
      EntryOfMerge(a, b, key);
    }
  }

  /** Merging two buckets adds up their rows. */
  lemma TotalOfMerge(a: map<string, Count>, b: map<string, Count>)
    ensures Total(Merge(a, b)) == Total(a) + Total(b)
  {
    assert Merge(a, b).Keys == a.Keys + b.Keys;
    TotalOverMerge(a, b, a.Keys + b.Keys);
    TotalOverMore(a, a.Keys + b.Keys);
    TotalOverMore(b, a.Keys + b.Keys);
  }

  /** The report's total is the rows of every addition of the last five minutes. */
  lemma {:induction false} MergedTotal(ring: seq<Bucket>, log: seq<Event>, oldest: int, n: nat)
    requires RingHolds(ring, log) && NoLaterThan(log, oldest + BUCKETS - 1) && n <= BUCKETS
    ensures Total(Merged(ring, oldest, n)) == Sum(log, Below(oldest, n, None), Rows)
  {
    if n > 0 {
      var b := ring[n - 1];
      MergedTotal(ring, log, oldest, n - 1);
      TotalOfMerge(Merged(ring, oldest, n - 1), LiveCounts(b, oldest));
      SlotSum(b, n - 1, log, oldest, None, Rows);
      NextSlot(log, oldest, n - 1, None, Rows);
      if Live(b, oldest) {
        RowsAreConserved(log, b.minute);
      }
    } else {
      SumOfNone(log, Below(oldest, 0, None), Rows);
    }
  }

  /** No minute of the window saw more tables than a bucket has room for. */
  ghost predicate Uncapped(log: seq<Event>, oldest: int) {
    forall minute :: minute >= oldest ==> |TablesAt(log, minute)| <= MAX_DISTINCT
  }

  lemma SlotEntry(b: Bucket, slot: nat, log: seq<Event>, oldest: int, table: string, m: Measure)
    requires SlotHolds(b, slot, log) && NoLaterThan(log, oldest + BUCKETS - 1)
    ensures var counted, added := Amount(Get(LiveCounts(b, oldest), table), m), Sum(log, InSlot(oldest, slot, Some(table)), m);
            && (Uncapped(log, oldest) ==> counted == added)
            && (table != OTHER ==> counted <= added)
  {
    SlotSum(b, slot, log, oldest, Some(table), m);
    if Live(b, oldest) {
      if Uncapped(log, oldest) {
        assert |TablesAt(log, b.minute)| <= MAX_DISTINCT;
        ExactWithoutOverflow(log, b.minute, table, m);
      }
      if table != OTHER && table in b.counts.value {
        OwnKeysAreExact(log, b.minute, table, m);
      }
    }
  }

  /** Per-table counts are exact without overflow; with it a table is never overcounted. */
  lemma {:induction false} MergedEntry(ring: seq<Bucket>, log: seq<Event>, oldest: int, table: string, m: Measure, n: nat)
    requires RingHolds(ring, log) && NoLaterThan(log, oldest + BUCKETS - 1) && n <= BUCKETS
    ensures var counted, added := Amount(Get(Merged(ring, oldest, n), table), m), Sum(log, Below(oldest, n, Some(table)), m);
            && (Uncapped(log, oldest) ==> counted == added)
            && (table != OTHER ==> counted <= added)
  {
    if n > 0 {
      MergedEntry(ring, log, oldest, table, m, n - 1);
      SlotEntry(ring[n - 1], n - 1, log, oldest, table, m);
      NextSlot(log, oldest, n - 1, Some(table), m);
      EntryOfMerge(Merged(ring, oldest, n - 1), LiveCounts(ring[n - 1], oldest), table);
    } else {
      SumOfNone(log, Below(oldest, 0, Some(table)), m);
    }
  }

  lemma {:induction false} MergedKey(ring: seq<Bucket>, oldest: int, table: string, n: nat)
    requires n <= |ring|
    ensures table in Merged(ring, oldest, n) <==> exists i :: 0 <= i < n && table in LiveCounts(ring[i], oldest)
  {
    if n > 0 {
      MergedKey(ring, oldest, table, n - 1);
    }
  }

  lemma ReportedWasAdded(ring: seq<Bucket>, log: seq<Event>, oldest: int, table: string, i: nat)
    requires RingHolds(ring, log) && i < BUCKETS && table in LiveCounts(ring[i], oldest)
    ensures table in TablesSince(log, oldest) + {OTHER}
    ensures Uncapped(log, oldest) ==> table in TablesSince(log, oldest)
  {
    var minute := ring[i].minute;
    KeysAreTables(log, minute);
    TablesAreAdded(log, minute, table);
    TablesAreAdded(log, oldest, table);
    if Uncapped(log, oldest) {
      assert |TablesAt(log, minute)| <= MAX_DISTINCT;
      NoOverflow(log, minute);
    }
  }

  lemma AddedIsReported(ring: seq<Bucket>, log: seq<Event>, oldest: int, table: string) returns (i: nat)
    requires RingHolds(ring, log) && NoLaterThan(log, oldest + BUCKETS - 1) && Uncapped(log, oldest)
    requires table in TablesSince(log, oldest)
    ensures i < BUCKETS && table in LiveCounts(ring[i], oldest)
  {
    TablesAreAdded(log, oldest, table);
    var e :| e in log && e.minute >= oldest && e.table == table;
    LiveSlotOf(ring, log, oldest, e);
    assert |TablesAt(log, e.minute)| <= MAX_DISTINCT;
    NoOverflow(log, e.minute);
    TablesAreAdded(log, e.minute, table);
    i := e.minute % BUCKETS;
  }

  /** The reported tables were added to in the window, and without overflow they are all of them. */
  lemma MergedTables(ring: seq<Bucket>, log: seq<Event>, oldest: int)
    requires RingHolds(ring, log) && NoLaterThan(log, oldest + BUCKETS - 1)
    ensures && Merged(ring, oldest, BUCKETS).Keys <= TablesSince(log, oldest) + {OTHER}
            && (Uncapped(log, oldest) ==> Merged(ring, oldest, BUCKETS).Keys == TablesSince(log, oldest))
  {
    forall table
      ensures table in Merged(ring, oldest, BUCKETS) ==> table in TablesSince(log, oldest) + {OTHER}
      ensures Uncapped(log, oldest) ==> (table in Merged(ring, oldest, BUCKETS) <==> table in TablesSince(log, oldest))
    {
      MergedKey(ring, oldest, table, BUCKETS);
      if table in Merged(ring, oldest, BUCKETS) {
        var i :| 0 <= i < BUCKETS && table in LiveCounts(ring[i], oldest);
        ReportedWasAdded(ring, log, oldest, table, i);
      } else if Uncapped(log, oldest) && table in TablesSince(log, oldest) {
        var i := AddedIsReported(ring, log, oldest, table);
      }
    }
  }

  /** An event of the window is still in its slot. */
  lemma LiveSlotOf(ring: seq<Bucket>, log: seq<Event>, oldest: int, e: Event)
    requires RingHolds(ring, log) && NoLaterThan(log, oldest + BUCKETS - 1) && e in log && e.minute >= oldest
    ensures LiveCounts(ring[e.minute % BUCKETS], oldest) == Tally(log, e.minute)
  {
    var b := ring[e.minute % BUCKETS];
    assert SlotHolds(b, e.minute % BUCKETS, log);
    var last :| last in log && last.minute == b.minute;
    SameMinute(b.minute, e.minute);
  }

  // --------------------------------------------------------- ranking

  datatype TableShare = TableShare(table: string, rows: nat, msgs: nat, sharePct: real)

  datatype WindowReport = WindowReport(top: seq<TableShare>, distinct: nat, totalRows: nat)

  /** What the log says about a table since a minute. */
  function Added(log: seq<Event>, oldest: int, table: string): Count {
    Count(Sum(log, Since(oldest, Some(table)), Rows), Sum(log, Since(oldest, Some(table)), Msgs))
  }

  function Share(table: string, c: Count, total: nat): TableShare {
    TableShare(table, c.rows, c.msgs, if total > 0 then c.rows as real / total as real * 100.0 else 0.0)
  }

  /** Two strings agree up to k, where the first one ends or holds the smaller byte. */
  predicate SmallerAt(s: string, t: string, k: nat) {
    k <= |s| && k < |t| && s[..k] == t[..k] && (k == |s| || s[k] < t[k])
  }

  /** The byte-wise order of strings. */
  predicate LexLess(s: string, t: string) {
    exists k :: 0 <= k <= |s| && SmallerAt(s, t, k)
  }

  /** More rows first, then by name. */
  predicate Before(a: TableShare, b: TableShare) {
    a.rows > b.rows || (a.rows == b.rows && LexLess(a.table, b.table))
  }

  lemma {:induction false} LexTotal(s: string, t: string, k: nat)
    requires k <= |s| && k <= |t| && s[..k] == t[..k] && s != t
    ensures LexLess(s, t) || LexLess(t, s)
    decreases |s| - k
  {
    assert s[..|s|] == s && t[..|t|] == t;
    if k < |s| && k < |t| && s[k] == t[k] {
      assert s[..k + 1] == s[..k] + [s[k]] && t[..k + 1] == t[..k] + [t[k]];
      LexTotal(s, t, k + 1);
    } else if k < |s| || k < |t| {
      assert SmallerAt(s, t, k) || SmallerAt(t, s, k);
    }
  }

  lemma LexTransitive(s: string, t: string, u: string)
    requires LexLess(s, t) && LexLess(t, u)
    ensures LexLess(s, u)
  {
    var k :| 0 <= k <= |s| && SmallerAt(s, t, k);
    var l :| 0 <= l <= |t| && SmallerAt(t, u, l);
    var m := if k < l then k else l;
    assert s[..m] == s[..k][..m] && t[..m] == t[..k][..m] == t[..l][..m] && u[..m] == u[..l][..m];
    assert k < l ==> t[..l][k] == u[..l][k];
    assert l < k ==> s[..k][l] == t[..k][l];
    assert SmallerAt(s, u, m);
  }

  lemma BeforeTransitive(a: TableShare, b: TableShare, c: TableShare)
    requires Before(a, b) && Before(b, c)
    ensures Before(a, c)
  {
    if a.rows == b.rows == c.rows {
      LexTransitive(a.table, b.table, c.table);
    }
  }

  predicate Sorted(s: seq<TableShare>) {
    forall i, j :: 0 <= i < j < |s| ==> Before(s[i], s[j])
  }

  predicate DistinctTables(s: seq<TableShare>) {
    forall i, j :: 0 <= i < j < |s| ==> s[i].table != s[j].table
  }

  function Insert(x: TableShare, s: seq<TableShare>): seq<TableShare> {
    if s == [] then [x]
    else if Before(x, s[|s| - 1]) then Insert(x, s[..|s| - 1]) + [s[|s| - 1]]
    else s + [x]
  }

  /** sort.Slice under Before. */
  function SortShares(s: seq<TableShare>): seq<TableShare> {
    if s == [] then [] else Insert(s[|s| - 1], SortShares(s[..|s| - 1]))
  }

  lemma {:induction false} InsertKeeps(x: TableShare, s: seq<TableShare>)
    ensures multiset(Insert(x, s)) == multiset(s) + multiset{x}
  {
    if s != [] {
      assert s == s[..|s| - 1] + [s[|s| - 1]];
      InsertKeeps(x, s[..|s| - 1]);
    }
  }

  lemma {:induction false} InsertSorts(x: TableShare, s: seq<TableShare>)
    requires Sorted(s) && forall y :: y in s ==> y.table != x.table
    ensures Sorted(Insert(x, s))
  {
    if s != [] {
      var last := s[|s| - 1];
      LexTotal(x.table, last.table, 0);
      if Before(x, last) {
        var front := s[..|s| - 1];
        InsertSorts(x, front);
        InsertKeeps(x, front);
        forall y | y in Insert(x, front)
          ensures Before(y, last)
        {
          assert y in multiset(Insert(x, front));
        }
      } else {
        forall y | y in s
          ensures Before(y, x)
        {
          if y != last {
            BeforeTransitive(y, last, x);
          }
        }
      }
    }
  }

  lemma {:induction false} SortIsSorted(s: seq<TableShare>)
    requires DistinctTables(s)
    ensures multiset(SortShares(s)) == multiset(s) && Sorted(SortShares(s))
  {
    if s != [] {
      var x, front := s[|s| - 1], s[..|s| - 1];
      SortIsSorted(front);
      assert s == front + [x];
      InsertKeeps(x, SortShares(front));
      forall y | y in SortShares(front)
        ensures y.table != x.table
      {
        assert y in multiset(SortShares(front));
      }
      InsertSorts(x, SortShares(front));
    }
  }

  /** The first topN entries of a merged window: ranked, and nothing left out ranks before them. */
  ghost predicate TopOf(merged: map<string, Count>, total: nat, topN: nat, top: seq<TableShare>) {
    && |top| == Min(topN, |merged|)
    && Sorted(top)
    && (forall s :: s in top ==> s.table in merged && s == Share(s.table, merged[s.table], total))
    && (forall table :: table in merged ==>
          var other := Share(table, merged[table], total);
          other in top || forall s :: s in top ==> Before(s, other))
  }

  /** The entries of some tables, each once, in any order. */
  ghost predicate SharesOf(merged: map<string, Count>, total: nat, tables: set<string>, shares: seq<TableShare>) {
    && tables <= merged.Keys && |shares| == |tables| && DistinctTables(shares)
    && (forall s :: s in shares ==> s.table in tables && s == Share(s.table, merged[s.table], total))
    && (forall table :: table in tables ==> Share(table, merged[table], total) in shares)
  }

  ghost predicate Entries(merged: map<string, Count>, total: nat, shares: seq<TableShare>) {
    SharesOf(merged, total, merged.Keys, shares)
  }

  ghost predicate Collected(merged: map<string, Count>, total: nat, tables: set<string>, shares: seq<TableShare>, distinct: nat) {
    SharesOf(merged, total, tables, shares) && distinct == |tables - {OTHER}|
  }

  lemma SharesGrow(merged: map<string, Count>, total: nat, tables: set<string>, shares: seq<TableShare>, table: string)
    requires SharesOf(merged, total, tables, shares) && table in merged && table !in tables
    ensures SharesOf(merged, total, tables + {table}, shares + [Share(table, merged[table], total)])
  {
    var x := Share(table, merged[table], total);
    assert |tables + {table}| == |tables| + 1;
    assert forall s :: s in shares + [x] <==> s in shares || s == x;
  }

  lemma CountTable(tables: set<string>, table: string)
    requires table !in tables
    ensures |tables + {table} - {OTHER}| == |tables - {OTHER}| + if table == OTHER then 0 else 1
  {
    if table == OTHER {
      assert tables + {table} - {OTHER} == tables - {OTHER};
    } else {
      assert tables + {table} - {OTHER} == (tables - {OTHER}) + {table};
    }
  }

  lemma SameMembers<T>(s: seq<T>, t: seq<T>)
    requires multiset(s) == multiset(t)
    ensures |s| == |t| && forall x :: x in s <==> x in t
  {
    assert |multiset(s)| == |s| && |multiset(t)| == |t|;
    assert forall x :: (x in s <==> x in multiset(s)) && (x in t <==> x in multiset(t));
  }

  lemma TopOfPrefix(merged: map<string, Count>, total: nat, topN: nat, sorted: seq<TableShare>)
    requires Sorted(sorted) && |sorted| == |merged|
    requires forall s :: s in sorted ==> s.table in merged && s == Share(s.table, merged[s.table], total)
    requires forall table :: table in merged ==> Share(table, merged[table], total) in sorted
    ensures TopOf(merged, total, topN, if |sorted| > topN then sorted[..topN] else sorted)
  {
    var top := if |sorted| > topN then sorted[..topN] else sorted;
    forall table | table in merged
      ensures var other := Share(table, merged[table], total);
              other in top || forall s :: s in top ==> Before(s, other)
    {
      var other := Share(table, merged[table], total);
      var k :| 0 <= k < |sorted| && sorted[k] == other;
      assert k < |top| ==> top[k] == other;
    }
  }

  lemma TopOfSorted(merged: map<string, Count>, total: nat, topN: nat, shares: seq<TableShare>)
    requires Entries(merged, total, shares)
    ensures var sorted := SortShares(shares);
            TopOf(merged, total, topN, if |sorted| > topN then sorted[..topN] else sorted)
  {
    var sorted := SortShares(shares);
    SortIsSorted(shares);
    SameMembers(sorted, shares);
    assert |merged.Keys| == |merged|;
    TopOfPrefix(merged, total, topN, sorted);
  }

  // --------------------------------------------------------- the window itself

  /** A report told from the log alone: counts of the last five minutes, exact and ranked. */
  ghost predicate ExactReport(log: seq<Event>, oldest: int, topN: nat, r: WindowReport) {
    var tables := TablesSince(log, oldest);
    && r.distinct == |tables - {OTHER}|
    && |r.top| == Min(topN, |tables|)
    && Sorted(r.top)
    && (forall s :: s in r.top ==> s.table in tables && s == Share(s.table, Added(log, oldest, s.table), r.totalRows))
    && (forall table :: table in tables ==>
          var other := Share(table, Added(log, oldest, table), r.totalRows);
          other in r.top || forall s :: s in r.top ==> Before(s, other))
  }

  /** A report of a merged window. */
  ghost predicate Ranked(merged: map<string, Count>, total: nat, topN: nat, r: WindowReport) {
    TopOf(merged, total, topN, r.top) && r.distinct == |merged.Keys - {OTHER}| && r.totalRows == total
  }

  /** The total is what was added in the last five minutes, and unless a bucket overflowed
      the whole report is exact. */
  ghost predicate ReportOf(ring: seq<Bucket>, log: seq<Event>, oldest: int, topN: nat, r: WindowReport)
    requires |ring| == BUCKETS
  {
    && r.totalRows == Sum(log, Since(oldest, None), Rows)
    && (Uncapped(log, oldest) ==> ExactReport(log, oldest, topN, r))
    && Ranked(Merged(ring, oldest, BUCKETS), r.totalRows, topN, r)
  }

  lemma WindowIsBelowFive(log: seq<Event>, oldest: int, table: Option<string>, m: Measure)
    ensures Sum(log, Since(oldest, table), m) == Sum(log, Below(oldest, BUCKETS, table), m)
  {
    SumAgrees(log, Since(oldest, table), Below(oldest, BUCKETS, table), m);
  }

  lemma EntryIsExact(ring: seq<Bucket>, log: seq<Event>, oldest: int, table: string, m: Measure)
    requires RingHolds(ring, log) && NoLaterThan(log, oldest + BUCKETS - 1) && Uncapped(log, oldest)
    ensures Amount(Get(Merged(ring, oldest, BUCKETS), table), m)
              == Sum(log, Since(oldest, Some(table)), m)
  {
    MergedEntry(ring, log, oldest, table, m, BUCKETS);
    WindowIsBelowFive(log, oldest, Some(table), m);
  }

  lemma UncappedReportIsExact(ring: seq<Bucket>, log: seq<Event>, oldest: int, topN: nat, r: WindowReport)
    requires RingHolds(ring, log) && NoLaterThan(log, oldest + BUCKETS - 1) && Uncapped(log, oldest)
    requires Ranked(Merged(ring, oldest, BUCKETS), r.totalRows, topN, r)
    ensures ExactReport(log, oldest, topN, r)
  {
    var merged := Merged(ring, oldest, BUCKETS);
    MergedTables(ring, log, oldest);
    assert |merged.Keys| == |merged|;
    forall table | table in merged
      ensures merged[table] == Added(log, oldest, table)
    {
      EntryIsExact(ring, log, oldest, table, Rows);
      EntryIsExact(ring, log, oldest, table, Msgs);
    }
  }

  lemma RankedReport(ring: seq<Bucket>, log: seq<Event>, oldest: int,
                     merged: map<string, Count>, total: nat, topN: nat, r: WindowReport)
    requires RingHolds(ring, log) && NoLaterThan(log, oldest + BUCKETS - 1)
    requires merged == Merged(ring, oldest, BUCKETS) && total == Total(merged)
    requires Ranked(merged, total, topN, r)
    ensures ReportOf(ring, log, oldest, topN, r)
  {
    MergedTotal(ring, log, oldest, BUCKETS);
    WindowIsBelowFive(log, oldest, None, Rows);
    if Uncapped(log, oldest) {
      UncappedReportIsExact(ring, log, oldest, topN, r);
    }
  }

  /** Whatever overflowed, a reported table other than the overflow entry is not overcounted,
      and the distinct count is a lower bound. */
  lemma ReportIsLowerBound(ring: seq<Bucket>, log: seq<Event>, oldest: int, table: string, m: Measure)
    requires RingHolds(ring, log) && NoLaterThan(log, oldest + BUCKETS - 1)
    ensures var merged := Merged(ring, oldest, BUCKETS);
            && |merged.Keys - {OTHER}| <= |TablesSince(log, oldest)|
            && (table in merged && table != OTHER ==> Amount(merged[table], m) <= Sum(log, Since(oldest, Some(table)), m))
  {
    var merged := Merged(ring, oldest, BUCKETS);
    MergedTables(ring, log, oldest);
    MergedEntry(ring, log, oldest, table, m, BUCKETS);
    WindowIsBelowFive(log, oldest, Some(table), m);
    var tables := TablesSince(log, oldest);
    assert tables == (merged.Keys - {OTHER}) + (tables - (merged.Keys - {OTHER}));
  }

  class TableWindow {
    const buckets: array<Bucket>
    /** Everything ever added. */
    ghost var log: seq<Event>

    ghost predicate Valid()
      reads this, buckets
    {
      RingHolds(buckets[..], log)
    }

    constructor ()
      ensures Valid() && log == [] && fresh(buckets)
    {
      buckets := new Bucket[BUCKETS](_ => Bucket(0, None));
      log := [];
    }

    /** Adds to the slot of the current minute, which is emptied first when it holds another one. */
    method Add(now: nat, table: string, rows: nat, msgs: nat)
      requires Valid() && NoLaterThan(log, now / 60)
      modifies this`log, buckets
      ensures Valid() && log == old(log) + [Event(now / 60, table, Count(rows, msgs))]
      ensures NoLaterThan(log, now / 60)
    {
      var minute := now / 60;
      var slot := minute % BUCKETS;
      ghost var e := Event(minute, table, Count(rows, msgs));
      RecordKeepsRing(buckets[..], log, e);
      LogSnoc(log, e);
      var bucket := buckets[slot];
      if bucket.minute != minute || bucket.counts.None? {
        bucket := Bucket(minute, Some(map[]));
      }
      var key := table;
      if table !in bucket.counts.value && |bucket.counts.value| >= MAX_DISTINCT {
        key := OTHER;
      }
      var c := if key in bucket.counts.value then bucket.counts.value[key] else Count(0, 0);
      bucket := Bucket(minute, Some(bucket.counts.value[key := Count(c.rows + rows, c.msgs + msgs)]));
      assert bucket == Record(buckets[slot], e);
      buckets[slot] := bucket;
      log := log + [e];
    }

    method MergeBucket(counts: map<string, Count>, merged: map<string, Count>, total: nat)
      returns (m: map<string, Count>, t: nat)
      ensures m == Merge(merged, counts) && t == total + Total(counts)
    {
      m, t := merged, total;
      var left := counts.Keys;
      assert counts - left == map[];
      while left != {}
        invariant left <= counts.Keys
        invariant m == Merge(merged, counts - left) && t == total + Total(counts - left)
      {
        var key :| key in left;
        ghost var before := counts - left;
        MergeEntry(merged, before, key, counts[key]);
        TotalAfterUpdate(before, key, counts[key]);
        assert counts - (left - {key}) == before[key := counts[key]];
        var c := if key in m then m[key] else Count(0, 0);
        m := m[key := Count(c.rows + counts[key].rows, c.msgs + counts[key].msgs)];
        t := t + counts[key].rows;
        left := left - {key};
      }
      assert counts - left == counts;
    }

    method CollectShares(merged: map<string, Count>, total: nat) returns (shares: seq<TableShare>, distinct: nat)
      ensures Entries(merged, total, shares) && distinct == |merged.Keys - {OTHER}|
    {
      shares, distinct := [], 0;
      var done: set<string> := {};
      while done != merged.Keys
        invariant done <= merged.Keys && Collected(merged, total, done, shares, distinct)
        decreases merged.Keys - done
      {
        var table :| table in merged.Keys && table !in done;
        SharesGrow(merged, total, done, shares, table);
        CountTable(done, table);
        if table != OTHER {
          distinct := distinct + 1;
        }
        shares := shares + [Share(table, merged[table], total)];
        done := done + {table};
      }
    }

    /** The entries of the live buckets, added up by table. */
    method MergeLive(oldest: int) returns (merged: map<string, Count>, total: nat)
      requires Valid()
      ensures merged == Merged(buckets[..], oldest, BUCKETS) && total == Total(merged)
    {
      merged, total := map[], 0;
      for i := 0 to BUCKETS
        invariant merged == Merged(buckets[..], oldest, i) && total == Total(merged)
      {
        var bucket := buckets[i];
        MergeNext(buckets[..], oldest, i);
        if !(bucket.counts.None? || bucket.minute < oldest) {
          merged, total := MergeBucket(bucket.counts.value, merged, total);
        }
      }
    }

    method Rank(merged: map<string, Count>, total: nat, topN: nat) returns (r: WindowReport)
      ensures Ranked(merged, total, topN, r)
    {
      var shares, distinct := CollectShares(merged, total);
      TopOfSorted(merged, total, topN, shares);
      var sorted := SortShares(shares);
      r := WindowReport(if |sorted| > topN then sorted[..topN] else sorted, distinct, total);
    }

    method Report(now: nat, topN: nat) returns (r: WindowReport)
      requires Valid() && NoLaterThan(log, now / 60)
      ensures ReportOf(buckets[..], log, OldestMinute(now), topN, r)
    {
      var oldest := OldestMinute(now);
      var merged, total := MergeLive(oldest);
      r := Rank(merged, total, topN);
      RankedReport(buckets[..], log, oldest, merged, total, topN, r);
    }
  }
}
