/** Java's 32-bit `int`, whose `++` wraps from the largest value to the smallest. */
module JavaInt {

  const MinInt: int := -0x8000_0000
  const MaxInt: int := 0x7fff_ffff

  newtype int32 = x: int | -0x8000_0000 <= x < 0x8000_0000

  /** `x++` on a Java `int`. */
  function Inc(x: int32): (r: int32)
    ensures x as int < MaxInt ==> r as int == x as int + 1
    ensures x as int == MaxInt ==> r as int == MinInt
  {
    if x == 0x7fff_ffff then -0x8000_0000 else x + 1
  }

  /** The `int` that an unbounded count `n` is congruent to modulo 2^32. */
  function Wrap(n: int): int32 {
    ((n + 0x8000_0000) % 0x1_0000_0000 - 0x8000_0000) as int32
  }

  /** The wrapped value differs from `n` by a multiple of 2^32. */
  lemma WrapCongruent(n: int)
    ensures (Wrap(n) as int - n) % 0x1_0000_0000 == 0
  {
  }

  /** An `int32` is its own wrapped value. */
  lemma WrapOfInt32(x: int32)
    ensures Wrap(x as int) == x
  {
  }

  /** One `++` after k wrapped increments is k + 1 wrapped increments. */
  lemma IncWrap(n: int)
    ensures Inc(Wrap(n)) == Wrap(n + 1)
  {
  }

  /** `c` after `n` executions of `++`. */
  function IncTimes(c: int32, n: nat): int32 {
    if n == 0 then c else Inc(IncTimes(c, n - 1))
  }

  /** n increments of a Java `int` add n modulo 2^32. */
  lemma {:induction false} IncTimesWraps(c: int32, n: nat)
    ensures IncTimes(c, n) == Wrap(c as int + n)
  {
    if n == 0 {
      WrapOfInt32(c);
    } else {
      IncTimesWraps(c, n - 1);
      IncWrap(c as int + n - 1);
    }
  }

  /** Doing one increment first is the same as doing one more. */
  lemma {:induction false} IncTimesShift(c: int32, n: nat)
    ensures IncTimes(Inc(c), n) == IncTimes(c, n + 1)
  {
    if n > 0 {
      IncTimesShift(c, n - 1);
    }
  }
}
