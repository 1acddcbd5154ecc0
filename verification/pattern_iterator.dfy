/** tools/generator/internal/generator/generators/pattern_iterator.go: enumerating the
    combinations of several components by a mixed-radix counter. */
module PatternIterator {
  import opened Common

  // --------------------------------------------------------- arithmetic

  /** Division by repeated subtraction. */
  function Quotient(a: nat, b: int): nat
    requires b > 0
  {
    if a < b then 0 else Quotient(a - b, b) + 1
  }

  function Remainder(a: nat, b: int): (r: nat)
    requires b > 0
    ensures r < b
  {
    if a < b then a else Remainder(a - b, b)
  }

  lemma {:induction false} Division(a: nat, b: int)
    requires b > 0
    ensures a == Quotient(a, b) * b + Remainder(a, b)
  {
    if a >= b {
      Division(a - b, b);
      assert (Quotient(a - b, b) + 1) * b == Quotient(a - b, b) * b + b;
    }
  }

  lemma MulMonotone(a: int, b: int, n: int)
    requires a <= b && n >= 0
    ensures a * n <= b * n
  {
    assert (b - a) * n >= 0;
    assert (b - a) * n == b * n - a * n;
  }

  lemma MulPositive(a: int, b: int)
    requires a > 0 && b > 0
    ensures a * b > 0
  {}

  /** The quotient and the remainder are the only ones. */
  lemma DivisionIsUnique(a: nat, b: int, q: int, r: int)
    requires b > 0 && a == q * b + r && 0 <= r < b
    ensures q == Quotient(a, b) && r == Remainder(a, b)
  {
    Division(a, b);
    var p := Quotient(a, b);
    if q < p {
      MulMonotone(q + 1, p, b);
    } else if p < q {
      MulMonotone(p + 1, q, b);
    }
  }

  function Abs(x: int): nat {
    if x < 0 then -x else x
  }

  /** Division of int64 values: truncated, and wrapped in the one case that overflows. */
  function TruncatedQuotient(a: int, b: int): (q: int)
    requires b != 0
  {
    var q: int := Quotient(Abs(a), Abs(b));
    if (a < 0) == (b < 0) then Wrap64(q) else -q
  }

  /** The remainder that goes with it has the sign of the dividend. */
  function TruncatedRemainder(a: int, b: int): (r: int)
    requires b != 0
    ensures Abs(r) < Abs(b) && (a >= 0 ==> r >= 0) && (a <= 0 ==> r <= 0)
  {
    var r: int := Remainder(Abs(a), Abs(b));
    if a < 0 then -r else r
  }

  lemma Signs(q: int, b: int)
    ensures (-q) * b == -(q * b) && q * (-b) == -(q * b) && (-q) * (-b) == q * b
  {}

  lemma {:induction false} QuotientIsSmaller(a: nat, b: int)
    requires b > 0
    ensures Quotient(a, b) <= a
  {
    if a >= b {
      QuotientIsSmaller(a - b, b);
    }
  }

  /** Quotient and remainder give the dividend back, except where the quotient overflows. */
  lemma TruncationDivides(a: int, b: int)
    requires b != 0 && FitsInt64(a) && !(a == -TWO63 && Quotient(Abs(a), Abs(b)) == TWO63)
    ensures FitsInt64(TruncatedQuotient(a, b))
    ensures a == TruncatedQuotient(a, b) * b + TruncatedRemainder(a, b)
  {
    var q := Quotient(Abs(a), Abs(b));
    Division(Abs(a), Abs(b));
    QuotientIsSmaller(Abs(a), Abs(b));
    Signs(q, b);
  }

  lemma QuotientBelow(a: nat, p: int, b: int)
    requires b > 0 && a < p * b
    ensures Quotient(a, b) < p
  {
    Division(a, b);
    if Quotient(a, b) >= p {
      MulMonotone(p, Quotient(a, b), b);
    }
  }

  lemma QuotientMonotone(i: nat, j: nat, b: int)
    requires b > 0 && i <= j
    ensures Quotient(i, b) <= Quotient(j, b)
  {
    Division(i, b);
    Division(j, b);
    var p: int, q: int := Quotient(j, b), Quotient(i, b);
    if p < q {
      MulMonotone(p + 1, q, b);
    }
  }

  lemma QuotientShift(x: nat, k: nat, b: int)
    requires b > 0
    ensures 0 <= k * b && Quotient(x + k * b, b) == Quotient(x, b) + k && Remainder(x + k * b, b) == Remainder(x, b)
  {
    Division(x, b);
    MulMonotone(0, k, b);
    assert (Quotient(x, b) + k) * b == Quotient(x, b) * b + k * b;
    DivisionIsUnique(x + k * b, b, Quotient(x, b) + k, Remainder(x, b));
  }

  lemma FlatBelow(q: int, r: int, p: int, b: int)
    requires 0 <= q < p && 0 <= r < b
    ensures 0 <= q * b + r < p * b
  {
    MulMonotone(0, q, b);
    MulMonotone(q + 1, p, b);
    assert (q + 1) * b == q * b + b;
  }

  // --------------------------------------------------------- digits

  ghost predicate Positive(sizes: seq<int>) {
    forall i :: 0 <= i < |sizes| ==> sizes[i] > 0
  }

  function Product(sizes: seq<int>): int {
    if sizes == [] then 1 else Product(sizes[..|sizes| - 1]) * sizes[|sizes| - 1]
  }

  ghost predicate NonZero(sizes: seq<int>) {
    forall i :: 0 <= i < |sizes| ==> sizes[i] != 0
  }

  /** The component indices of any flat index: what repeated division by the sizes leaves. */
  function ToIndices(index: int, sizes: seq<int>): (indices: seq<int>)
    requires NonZero(sizes)
    ensures |indices| == |sizes|
    decreases |sizes|
  {
    if sizes == [] then []
    else
      var n := |sizes| - 1;
      ToIndices(TruncatedQuotient(index, sizes[n]), sizes[..n]) + [TruncatedRemainder(index, sizes[n])]
  }

  /** The digits of an index, the last component changing fastest. */
  function Digits(index: nat, sizes: seq<int>): (digits: seq<int>)
    requires Positive(sizes)
    ensures |digits| == |sizes|
    decreases |sizes|
  {
    if sizes == [] then []
    else
      var n := |sizes| - 1;
      Digits(Quotient(index, sizes[n]), sizes[..n]) + [Remainder(index, sizes[n])]
  }

  function Negated(digits: seq<int>): seq<int> {
    seq(|digits|, i requires 0 <= i < |digits| => -digits[i])
  }

  lemma NegatedSnoc(digits: seq<int>, d: int)
    ensures Negated(digits + [d]) == Negated(digits) + [-d]
  {}

  /** For positive sizes the indices are the digits, negated for a negative index. */
  lemma {:induction false} IndicesAreDigits(index: nat, sizes: seq<int>)
    requires Positive(sizes)
    ensures index <= MAX_INT64 ==> ToIndices(index, sizes) == Digits(index, sizes)
    ensures index > 0 ==> ToIndices(0 - index, sizes) == Negated(Digits(index, sizes))
    decreases |sizes|
  {
    if sizes != [] {
      var n := |sizes| - 1;
      QuotientIsSmaller(index, sizes[n]);
      var q := Quotient(index, sizes[n]);
      IndicesAreDigits(q, sizes[..n]);
      ZeroIndices(sizes[..n]);
      NegatedSnoc(Digits(q, sizes[..n]), Remainder(index, sizes[n]));
    }
  }

  /** Index zero stands for the all-zero indices, whatever the sizes. */
  lemma {:induction false} ZeroIndices(sizes: seq<int>)
    requires NonZero(sizes)
    ensures forall i :: 0 <= i < |sizes| ==> ToIndices(0, sizes)[i] == 0
    decreases |sizes|
  {
    if sizes != [] {
      ZeroIndices(sizes[..|sizes| - 1]);
    }
  }

  function FromIndices(indices: seq<int>, sizes: seq<int>): int
    requires |indices| == |sizes|
  {
    if sizes == [] then 0
    else
      var n := |sizes| - 1;
      FromIndices(indices[..n], sizes[..n]) * sizes[n] + indices[n]
  }

  ghost predicate InBox(indices: seq<int>, sizes: seq<int>) {
    |indices| == |sizes| && forall i :: 0 <= i < |sizes| ==> 0 <= indices[i] < sizes[i]
  }

  /** The first difference is at k, and there a is smaller. */
  ghost predicate DiffersAt(a: seq<int>, b: seq<int>, k: nat) {
    k < |a| && k < |b| && a[..k] == b[..k] && a[k] < b[k]
  }

  ghost predicate ComesBefore(a: seq<int>, b: seq<int>) {
    exists k :: 0 <= k < |a| && DiffersAt(a, b, k)
  }

  lemma {:induction false} ProductPositive(sizes: seq<int>)
    requires Positive(sizes)
    ensures Product(sizes) > 0
  {
    if sizes != [] {
      ProductPositive(sizes[..|sizes| - 1]);
      MulPositive(Product(sizes[..|sizes| - 1]), sizes[|sizes| - 1]);
    }
  }

  /** Every index below the product has digits in the box, and they give the index back. */
  lemma {:induction false} IndexRoundTrip(index: nat, sizes: seq<int>)
    requires Positive(sizes) && index < Product(sizes)
    ensures InBox(Digits(index, sizes), sizes)
    ensures FromIndices(Digits(index, sizes), sizes) == index
  {
    if sizes != [] {
      var n := |sizes| - 1;
      var q := Quotient(index, sizes[n]);
      Division(index, sizes[n]);
      QuotientBelow(index, Product(sizes[..n]), sizes[n]);
      IndexRoundTrip(q, sizes[..n]);
      assert Digits(index, sizes)[..n] == Digits(q, sizes[..n]);
    }
  }

  /** Every combination in the box has an index below the product, and its digits are the combination. */
  lemma {:induction false} IndicesRoundTrip(indices: seq<int>, sizes: seq<int>)
    requires InBox(indices, sizes)
    ensures Positive(sizes) && 0 <= FromIndices(indices, sizes) < Product(sizes)
    ensures Digits(FromIndices(indices, sizes), sizes) == indices
  {
    if sizes != [] {
      var n := |sizes| - 1;
      var q := FromIndices(indices[..n], sizes[..n]);
      IndicesRoundTrip(indices[..n], sizes[..n]);
      FlatBelow(q, indices[n], Product(sizes[..n]), sizes[n]);
      DivisionIsUnique(q * sizes[n] + indices[n], sizes[n], q, indices[n]);
      assert indices == indices[..n] + [indices[n]];
    }
  }

  lemma QuotientInFront(index: nat, sizes: seq<int>)
    requires Positive(sizes) && sizes != [] && index < Product(sizes)
    ensures var n := |sizes| - 1; Quotient(index, sizes[n]) < Product(sizes[..n])
  {
    QuotientBelow(index, Product(sizes[..|sizes| - 1]), sizes[|sizes| - 1]);
  }

  lemma SameQuotient(i: nat, j: nat, b: int)
    requires b > 0 && i < j && Quotient(i, b) == Quotient(j, b)
    ensures Remainder(i, b) < Remainder(j, b)
  {
    Division(i, b);
    Division(j, b);
  }

  lemma LexLast(a: seq<int>, x: int, y: int)
    requires x < y
    ensures ComesBefore(a + [x], a + [y])
  {
    assert DiffersAt(a + [x], a + [y], |a|);
  }

  lemma LexExtends(a: seq<int>, b: seq<int>, x: int, y: int)
    requires ComesBefore(a, b)
    ensures ComesBefore(a + [x], b + [y])
  {
    var k :| 0 <= k < |a| && DiffersAt(a, b, k);
    assert (a + [x])[..k] == a[..k] && (b + [y])[..k] == b[..k];
    assert DiffersAt(a + [x], b + [y], k);
  }

  /** A larger index has lexicographically larger digits. */
  lemma {:induction false} DigitsAreOrdered(i: nat, j: nat, sizes: seq<int>)
    requires Positive(sizes) && i < j < Product(sizes)
    ensures ComesBefore(Digits(i, sizes), Digits(j, sizes))
    decreases |sizes|
  {
    var n := |sizes| - 1;
    var p, q := Quotient(i, sizes[n]), Quotient(j, sizes[n]);
    if p == q {
      SameQuotient(i, j, sizes[n]);
      LexLast(Digits(p, sizes[..n]), Remainder(i, sizes[n]), Remainder(j, sizes[n]));
    } else {
      QuotientMonotone(i, j, sizes[n]);
      QuotientInFront(j, sizes);
      DigitsAreOrdered(p, q, sizes[..n]);
      LexExtends(Digits(p, sizes[..n]), Digits(q, sizes[..n]), Remainder(i, sizes[n]), Remainder(j, sizes[n]));
    }
  }

  lemma ShiftByProduct(x: nat, k: nat, p: int, b: int)
    requires b > 0 && k * p >= 0
    ensures 0 <= k * (p * b)
    ensures Quotient(x + k * (p * b), b) == Quotient(x, b) + k * p && Remainder(x + k * (p * b), b) == Remainder(x, b)
  {
    assert k * (p * b) == (k * p) * b;
    QuotientShift(x, k * p, b);
  }

  /** An index past the product counts again from the start. */
  lemma {:induction false} DigitsArePeriodic(index: nat, k: nat, sizes: seq<int>)
    requires Positive(sizes)
    ensures 0 <= k * Product(sizes) && Digits(index + k * Product(sizes), sizes) == Digits(index, sizes)
    decreases |sizes|
  {
    ProductPositive(sizes);
    MulMonotone(0, k, Product(sizes));
    if sizes != [] {
      var n := |sizes| - 1;
      DigitsArePeriodic(Quotient(index, sizes[n]), k, sizes[..n]);
      ShiftByProduct(index, k, Product(sizes[..n]), sizes[n]);
    }
  }

  // --------------------------------------------------------- wrap-around

  lemma Spread(a: int, w: int, k: int)
    ensures a * (w + k * TWO64) == a * w + (a * k) * TWO64
  {}

  /** Wrapping early or late gives the same sum of products. */
  lemma WrapSum(x: int, a: int, m: int)
    ensures Wrap64(Wrap64(x) + a * Wrap64(m)) == Wrap64(x + a * m)
  {
    var w, j, k := Wrap64(m), Wraps(x), Wraps(m);
    Spread(a, w, k);
    assert m == w + k * TWO64;
    SameWrap(x + a * m, Wrap64(x) + a * w, j + a * k);
  }

  lemma WrapProduct(m: int, a: int)
    ensures Wrap64(Wrap64(m) * a) == Wrap64(m * a)
  {
    WrapSum(0, a, m);
  }

  // --------------------------------------------------------- the conversions

  /** The indices of a flat index; the program divides by every size. */
  method IndexToIndices(index: int, sizes: seq<int>) returns (indices: array<int>)
    requires NonZero(sizes)
    ensures fresh(indices) && indices[..] == ToIndices(index, sizes)
  {
    indices := new int[|sizes|];
    var remaining := index;
    var i := |sizes|;
    assert sizes[..i] == sizes;
    while i > 0
      invariant 0 <= i <= |sizes|
      invariant ToIndices(index, sizes) == ToIndices(remaining, sizes[..i]) + indices[i..]
    {
      i := i - 1;
      assert sizes[..i + 1][..i] == sizes[..i];
      indices[i] := TruncatedRemainder(remaining, sizes[i]);
      remaining := TruncatedQuotient(remaining, sizes[i]);
    }
  }

  lemma FlatStep(f: int, size: int, x: int, m: int, t: int)
    ensures (f * size + x) * m + t == f * (m * size) + (t + x * m)
  {
    assert (f * size + x) * m == (f * size) * m + x * m;
    assert (f * size) * m == f * (m * size);
  }

  /** The flat index in int64 arithmetic; -1 when the lengths differ. */
  method IndicesToIndex(indices: seq<int>, sizes: seq<int>) returns (index: int)
    ensures |indices| != |sizes| ==> index == -1
    ensures |indices| == |sizes| ==> index == Wrap64(FromIndices(indices, sizes))
  {
    if |indices| != |sizes| {
      return -1;
    }
    index := 0;
    var multiplier := 1;
    ghost var exact, power := 0, 1;
    var i := |indices|;
    assert indices[..i] == indices && sizes[..i] == sizes;
    while i > 0
      invariant 0 <= i <= |sizes|
      invariant index == Wrap64(exact) && multiplier == Wrap64(power)
      invariant FromIndices(indices[..i], sizes[..i]) * power + exact == FromIndices(indices, sizes)
    {
      i := i - 1;
      assert indices[..i + 1][..i] == indices[..i] && sizes[..i + 1][..i] == sizes[..i];
      WrapSum(exact, indices[i], power);
      WrapProduct(power, sizes[i]);
      FlatStep(FromIndices(indices[..i], sizes[..i]), sizes[i], indices[i], power, exact);
      index := Wrap64(index + indices[i] * multiplier);
      exact := exact + indices[i] * power;
      multiplier := Wrap64(multiplier * sizes[i]);
      power := power * sizes[i];
    }
  }

  /** The number of combinations in int64 arithmetic, and 0 for no components at all. */
  method CartesianProduct(sizes: seq<int>) returns (total: int)
    ensures total == if sizes == [] then 0 else Wrap64(Product(sizes))
  {
    if |sizes| == 0 {
      return 0;
    }
    total := 1;
    for i := 0 to |sizes|
      invariant total == Wrap64(Product(sizes[..i]))
    {
      assert sizes[..i + 1][..i] == sizes[..i];
      WrapProduct(Product(sizes[..i]), sizes[i]);
      total := Wrap64(total * sizes[i]);
    }
    assert sizes[..|sizes|] == sizes;
  }

  // --------------------------------------------------------- the iterator

  lemma {:induction false} ZeroProduct(sizes: seq<int>)
    requires Product(sizes) != 0
    ensures NonZero(sizes)
  {
    if sizes != [] {
      var front, last := sizes[..|sizes| - 1], sizes[|sizes| - 1];
      assert Product(front) != 0 && last != 0;
      ZeroProduct(front);
    }
  }

  /** The iterator over components of the given sizes; ValueAt only looks at the indices. */
  class Iterator {
    const sizes: seq<int>
    const indices: array<int>
    const total: int
    var current: int

    ghost predicate Valid()
      reads this
    {
      indices.Length == |sizes| && total == Wrap64(Product(sizes)) && (current == 0 || 0 < current <= total)
    }

    constructor (sizes: seq<int>)
      ensures Valid() && this.sizes == sizes && current == 0 && fresh(indices)
    {
      var count := 1;
      for i := 0 to |sizes|
        invariant count == Wrap64(Product(sizes[..i]))
      {
        assert sizes[..i + 1][..i] == sizes[..i];
        WrapProduct(Product(sizes[..i]), sizes[i]);
        count := Wrap64(count * sizes[i]);
      }
      assert sizes[..|sizes|] == sizes;
      this.sizes, total, current := sizes, count, 0;
      indices := new int[|sizes|](_ => 0);
    }

    method Next() returns (ok: bool)
      requires Valid()
      modifies this`current, indices
      ensures Valid() && ok == (old(current) < total)
      ensures ok ==> NonZero(sizes) && indices[..] == ToIndices(old(current), sizes) && current == old(current) + 1
      ensures !ok ==> indices[..] == old(indices[..]) && current == old(current)
    {
      if current >= total {
        return false;
      }
      ZeroProduct(sizes);
      var remaining := current;
      var i := |sizes|;
      assert sizes[..i] == sizes;
      while i > 0
        invariant 0 <= i <= |sizes| && current == old(current)
        invariant ToIndices(current, sizes) == ToIndices(remaining, sizes[..i]) + indices[i..]
      {
        i := i - 1;
        assert sizes[..i + 1][..i] == sizes[..i];
        indices[i] := TruncatedRemainder(remaining, sizes[i]);
        remaining := TruncatedQuotient(remaining, sizes[i]);
      }
      current := current + 1;
      return true;
    }

    /** The loop the iterator is made for: for it.Next() { ... }. */
    method VisitAll() returns (visited: seq<seq<int>>)
      requires Valid() && current == 0
      modifies this`current, indices
      ensures Visits(visited, sizes)
    {
      visited := [];
      if Product(sizes) != 0 {
        ZeroProduct(sizes);
      }
      var more := Next();
      while more
        invariant Valid() && (total > 0 ==> NonZero(sizes))
        invariant more ==> 0 < current <= total && |visited| == current - 1 && indices[..] == ToIndices(current - 1, sizes)
        invariant !more ==> |visited| == current && current >= total
        invariant total > 0 ==> forall k :: 0 <= k < |visited| ==> visited[k] == ToIndices(k, sizes)
        decreases total - current, more
      {
        visited := visited + [indices[..]];
        more := Next();
      }
    }

    method Reset()
      requires Valid()
      modifies this`current, indices
      ensures Valid() && current == 0 && forall k :: 0 <= k < indices.Length ==> indices[k] == 0
    {
      current := 0;
      for i := 0 to indices.Length
        invariant Valid() && current == 0 && forall k :: 0 <= k < i ==> indices[k] == 0
      {
        indices[i] := 0;
      }
    }
  }

  /** What iterating to the end visits: the indices of 0, 1, 2, ... below the wrapped product. */
  ghost predicate Visits(visited: seq<seq<int>>, sizes: seq<int>) {
    var total := Wrap64(Product(sizes));
    && |visited| == (if total > 0 then total else 0)
    && (total > 0 ==> NonZero(sizes) && forall k :: 0 <= k < total ==> visited[k] == ToIndices(k, sizes))
  }

  lemma WrapBelow(p: int)
    requires p >= 0
    ensures Wrap64(p) <= p && (Wrap64(p) == p <==> p <= MAX_INT64)
  {
    var k := Wraps(p);
  }

  /** For positive sizes the digits of 0, 1, 2, ... are visited. */
  lemma VisitsDigits(visited: seq<seq<int>>, sizes: seq<int>, k: nat)
    requires Positive(sizes) && Visits(visited, sizes) && k < |visited|
    ensures k < Product(sizes) && visited[k] == Digits(k, sizes)
  {
    ProductPositive(sizes);
    WrapBelow(Product(sizes));
    IndicesAreDigits(k, sizes);
  }

  /** Nothing but combinations is visited if and only if all sizes are positive or the wrapped
      product is not. */
  lemma VisitsOnlyCombinations(visited: seq<seq<int>>, sizes: seq<int>)
    requires Visits(visited, sizes)
    ensures (forall k :: 0 <= k < |visited| ==> InBox(visited[k], sizes)) <==> Positive(sizes) || Wrap64(Product(sizes)) <= 0
  {
    if Positive(sizes) {
      forall k | 0 <= k < |visited|
        ensures InBox(visited[k], sizes)
      {
        VisitsDigits(visited, sizes, k);
        IndexRoundTrip(k, sizes);
      }
    } else if Wrap64(Product(sizes)) > 0 {
      ZeroIndices(sizes);
      assert !InBox(visited[0], sizes);
    }
  }

  /** Two components without values, both reversed by one: one combination is visited. */
  lemma ReversedRangesAreVisited(visited: seq<seq<int>>)
    requires Visits(visited, [-1, -1])
    ensures |visited| == 1 && !InBox(visited[0], [-1, -1])
  {
    assert [-1, -1][..1] == [-1] && [-1][..0] == [];
    assert Product([-1]) == -1 && Product([-1, -1]) == 1;
  }

  /** The visited combinations are in strict lexicographic order, hence each comes at most once. */
  lemma VisitsInOrder(visited: seq<seq<int>>, sizes: seq<int>)
    requires Visits(visited, sizes) && (Positive(sizes) || Wrap64(Product(sizes)) <= 0)
    ensures forall i, j :: 0 <= i < j < |visited| ==> ComesBefore(visited[i], visited[j])
  {
    forall i, j | 0 <= i < j < |visited|
      ensures ComesBefore(visited[i], visited[j])
    {
      VisitsDigits(visited, sizes, i);
      VisitsDigits(visited, sizes, j);
      DigitsAreOrdered(i, j, sizes);
    }
  }

  /** Every combination is visited if and only if there is none, a component being empty or
      reversed, or their number fits in an int64. */
  lemma VisitsEverything(visited: seq<seq<int>>, sizes: seq<int>)
    requires Visits(visited, sizes)
    ensures (forall ix :: InBox(ix, sizes) ==> ix in visited) <==> !Positive(sizes) || Product(sizes) <= MAX_INT64
  {
    if Positive(sizes) {
      ProductPositive(sizes);
      WrapBelow(Product(sizes));
      if Product(sizes) <= MAX_INT64 {
        forall ix | InBox(ix, sizes)
          ensures ix in visited
        {
          CombinationIsVisited(visited, sizes, ix);
        }
      } else {
        LastIsMissed(visited, sizes);
      }
    }
  }

  lemma CombinationIsVisited(visited: seq<seq<int>>, sizes: seq<int>, ix: seq<int>)
    requires Visits(visited, sizes) && InBox(ix, sizes) && Product(sizes) <= MAX_INT64
    ensures ix in visited
  {
    IndicesRoundTrip(ix, sizes);
    var k := FromIndices(ix, sizes);
    VisitsDigits(visited, sizes, k);
    assert visited[k] == ix;
  }

  lemma LastIsMissed(visited: seq<seq<int>>, sizes: seq<int>)
    requires Visits(visited, sizes) && Positive(sizes) && Product(sizes) > MAX_INT64
    ensures exists ix :: InBox(ix, sizes) && ix !in visited
  {
    var last := Product(sizes) - 1;
    WrapBelow(Product(sizes));
    IndexRoundTrip(last, sizes);
    forall k | 0 <= k < |visited|
      ensures visited[k] != Digits(last, sizes)
    {
      IsNotLast(visited, sizes, k);
    }
    assert Digits(last, sizes) !in visited;
  }

  lemma IsNotLast(visited: seq<seq<int>>, sizes: seq<int>, k: nat)
    requires Visits(visited, sizes) && Positive(sizes) && k < |visited| && |visited| < Product(sizes)
    ensures visited[k] != Digits(Product(sizes) - 1, sizes)
  {
    VisitsDigits(visited, sizes, k);
    IndexRoundTrip(k, sizes);
    IndexRoundTrip(Product(sizes) - 1, sizes);
  }

  /** Converting back and forth in int64 arithmetic loses nothing while the product fits. */
  lemma ConversionsAreExact(indices: seq<int>, sizes: seq<int>)
    requires InBox(indices, sizes) && Product(sizes) <= MAX_INT64
    ensures Positive(sizes) && 0 <= Wrap64(FromIndices(indices, sizes)) < Product(sizes)
    ensures Digits(Wrap64(FromIndices(indices, sizes)), sizes) == indices
  {
    IndicesRoundTrip(indices, sizes);
  }
}
