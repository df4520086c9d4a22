/**
 Rust's machine integers as the two programs use them: the ranges of the widths
 that occur, wrap-around for the unchecked operators, truncating division, and
 the outcome of a chain of checked operations that are unwrapped.
 */
module MachineInts {

  const U64: int := 0x1_0000_0000_0000_0000
  const I64: int := 0x8000_0000_0000_0000
  const U128: int := 0x1_0000_0000_0000_0000_0000_0000_0000_0000

  type u8 = x: int | 0 <= x < 256
  type u64 = x: int | 0 <= x < 0x1_0000_0000_0000_0000
  type i64 = x: int | -0x8000_0000_0000_0000 <= x < 0x8000_0000_0000_0000

  /** An unchecked u64 operation, or a cast `as u64`: the value modulo 2^64. */
  function Wrap64(x: int): u64 {
    x % U64
  }

  /** The same for i64: the representative of `x` modulo 2^64 in the signed range. */
  function WrapI64(x: int): i64 {
    (x + I64) % U64 - I64
  }

  /** Rust's integer division by a positive divisor, which truncates toward zero. */
  function Quotient(x: int, d: int): int
    requires 0 < d
  {
    if 0 <= x then x / d else -((-x) / d)
  }

  function Min(x: int, y: int): int {
    if x <= y then x else y
  }

  function Max(x: int, y: int): int {
    if x <= y then y else x
  }

  function Abs(x: int): nat {
    if x < 0 then -x else x
  }

  /** The errors the margin functions return as values. */
  datatype MarginError = UnsupportedKind

  /** What a Rust computation ends in: a value, an error value, or a panic. */
  datatype Machine<+T> = Ok(value: T) | Err(error: MarginError) | Panic {
    predicate IsFailure() {
      !Ok?
    }

    function PropagateFailure<V>(): Machine<V>
      requires IsFailure()
    {
      match this
      case Err(e) => Err(e)
      case Panic => Panic
    }

    function Extract(): T
      requires Ok?
    {
      value
    }

    /** `unwrap()` on a `Result`: an error value becomes a panic. */
    function Unwrap(): Machine<T> {
      if Err? then Panic else this
    }
  }

  // `checked_mul(..).unwrap()` and `checked_add(..).unwrap()` on u128.
  function Mul128(x: nat, y: nat): Machine<nat> {
    if x * y < U128 then Ok(x * y) else Panic
  }

  function Add128(x: nat, y: nat): Machine<nat> {
    if x + y < U128 then Ok(x + y) else Panic
  }

  /** `checked_div(..).unwrap()`. */
  function Div128(x: nat, y: nat): Machine<nat> {
    if y == 0 then Panic else Ok(x / y)
  }

  /** `u64::try_from(..).unwrap()`. */
  function ToU64(x: nat): Machine<u64> {
    if x < U64 then Ok(x) else Panic
  }

  /** `i64::try_from(..).unwrap()`, also what a checked i64 operation does with its exact result. */
  function ToI64(x: int): Machine<i64> {
    if -I64 <= x < I64 then Ok(x) else Panic
  }

  // ----- products and quotients -----

  lemma MulOrder(x: int, y: int, d: int)
    requires 0 <= d
    ensures x <= y ==> x * d <= y * d
  {
    if x <= y {
      assert 0 <= (y - x) * d;
    }
  }

  lemma MulMono(x: nat, y: nat, x': nat, y': nat)
    requires x <= x' && y <= y'
    ensures x * y <= x' * y'
  {
    MulOrder(x, x', y);
    MulOrder(y, y', x');
  }

  /** The product of two u64 values never overflows u128. */
  lemma MulFits128(x: nat, y: nat)
    requires x < U64 && y < U64
    ensures x * y < U128
  {
    MulMono(x, y, U64 - 1, U64 - 1);
  }

  /** The quotient is the largest `q` with `q * d <= x`. */
  lemma DivGalois(q: int, x: int, d: int)
    requires 0 < d
    ensures q * d <= x <==> q <= x / d
  {
    var k := x / d;
    assert k * d <= x < k * d + d;
    MulOrder(q, k, d);
    MulOrder(k + 1, q, d);
    assert (k + 1) * d == k * d + d;
  }

  lemma QuotientIs(x: int, d: int, q: int)
    requires 0 < d && q * d <= x < q * d + d
    ensures x / d == q
  {
    DivGalois(q, x, d);
    DivGalois(q + 1, x, d);
    assert (q + 1) * d == q * d + d;
  }

  lemma QuotientBrackets(x: int, d: int, q: int)
    requires 0 < d && q == x / d
    ensures q * d <= x < q * d + d
  {
    DivGalois(q, x, d);
    DivGalois(q + 1, x, d);
    assert (q + 1) * d == q * d + d;
  }

  lemma DivMono(x: int, y: int, d: int)
    requires 0 < d && x <= y
    ensures x / d <= y / d
  {
    DivGalois(x / d, x, d);
    DivGalois(x / d, y, d);
  }

  lemma DivAntitone(x: nat, d: nat, d': nat)
    requires 0 < d <= d'
    ensures x / d' <= x / d
  {
    var k := x / d';
    DivGalois(k, x, d');
    DivGalois(k, x, d);
    MulMono(k, d, k, d');
  }

  /** Wrapping after every operation is the same as wrapping once at the end. */
  lemma WrapSteps(x: int, y: int)
    ensures Wrap64(Wrap64(x) + y) == Wrap64(x + y)
    ensures 0 <= x < U64 ==> Wrap64(x) == x
  {
  }

  lemma WrapI64Steps(x: int, y: int)
    ensures WrapI64(WrapI64(x) + y) == WrapI64(x + y)
    ensures -I64 <= x < I64 ==> WrapI64(x) == x
  {
    var q := (x + I64) / U64;
    assert WrapI64(x) == x - q * U64;
    assert (x - q * U64 + y + I64) % U64 == (x + y + I64) % U64;
  }
}
