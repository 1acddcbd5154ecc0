/** Small vocabulary shared by the component models: optional values, results,
    and the fixed-width integer arithmetic of the modelled program. */
module Common {

  datatype Option<+T> = None | Some(value: T)

  datatype Result<+T> = Ok(value: T) | Err(error: string)

  const TWO63: int := 0x8000_0000_0000_0000
  const TWO64: int := 0x1_0000_0000_0000_0000
  const MAX_INT64: int := TWO63 - 1

  /** An integer that an int64 variable can hold. */
  predicate FitsInt64(x: int) {
    -TWO63 <= x < TWO63
  }

  /** The value an int64 variable holds after being assigned x: two's-complement wrap-around,
      that is the one int64 that differs from x by a multiple of 2^64. */
  function Wrap64(x: int): (r: int)
    ensures FitsInt64(r)
    ensures FitsInt64(x) ==> r == x
    decreases if FitsInt64(x) then 0 else if x < 0 then -x else x
  {
    if x >= TWO63 then Wrap64(x - TWO64)
    else if x < -TWO63 then Wrap64(x + TWO64)
    else x
  }

  /** How often 2^64 is taken off. */
  ghost function Wraps(x: int): (k: int)
    ensures x == Wrap64(x) + k * TWO64
    decreases if FitsInt64(x) then 0 else if x < 0 then -x else x
  {
    if x >= TWO63 then Wraps(x - TWO64) + 1
    else if x < -TWO63 then Wraps(x + TWO64) - 1
    else 0
  }

  lemma {:induction false} WrapIsUnique(x: int, r: int, k: int)
    requires FitsInt64(r) && x == r + k * TWO64
    ensures Wrap64(x) == r
    decreases if k < 0 then -k else k
  {
    if k > 0 {
      WrapIsUnique(x - TWO64, r, k - 1);
    } else if k < 0 {
      WrapIsUnique(x + TWO64, r, k + 1);
    }
  }

  lemma SameWrap(x: int, y: int, k: int)
    requires x == y + k * TWO64
    ensures Wrap64(x) == Wrap64(y)
  {
    WrapIsUnique(x, Wrap64(y), Wraps(y) + k);
  }

  function Pow2(n: nat): (p: nat)
    ensures p >= 1
  {
    if n == 0 then 1 else 2 * Pow2(n - 1)
  }

  function Min(a: int, b: int): int {
    if a < b then a else b
  }

  /** How often x occurs. */
  function Count<T(==)>(s: seq<T>, x: T): nat {
    if s == [] then 0 else Count(s[..|s| - 1], x) + if s[|s| - 1] == x then 1 else 0
  }

  lemma {:induction false} CountIsMultiplicity<T>(s: seq<T>, x: T)
    ensures Count(s, x) == multiset(s)[x]
  {
    if s != [] {
      CountIsMultiplicity(s[..|s| - 1], x);
      assert s == s[..|s| - 1] + [s[|s| - 1]];
    }
  }

  lemma {:induction false} CountOfSum<T>(a: seq<T>, b: seq<T>, x: T)
    ensures Count(a + b, x) == Count(a, x) + Count(b, x)
  {
    if b == [] {
      assert a + b == a;
    } else {
      assert (a + b)[..|a + b| - 1] == a + b[..|b| - 1];
      CountOfSum(a, b[..|b| - 1], x);
    }
  }
}
