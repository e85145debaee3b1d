/**
 * Java's fixed-width integers, as far as the ingester needs them: the ranges
 * of `int` and `long`, the narrowing cast `(int)` and the truncating `/`.
 * Dafny's integers are unbounded and its `/` is Euclidean, so both Java
 * operations are written out here.
 */
module JavaInt {

  const INT_MIN: int := -0x8000_0000
  const INT_MAX: int := 0x7fff_ffff
  const LONG_MIN: int := -0x8000_0000_0000_0000
  const LONG_MAX: int := 0x7fff_ffff_ffff_ffff

  /** Number of distinct `int` values; narrowing works modulo this. */
  const INT_SPAN: int := 0x1_0000_0000

  /** Java `int` */
  type Int32 = x: int | INT_MIN <= x <= INT_MAX

  /** Java `long` */
  type Int64 = x: int | LONG_MIN <= x <= LONG_MAX

  /**
   * The narrowing primitive conversion `(int) x`: keeps the low 32 bits and
   * reads them as a two's complement number. The result is the one `int`
   * congruent to `x` modulo 2^32.
   */
  function NarrowToInt(x: int): (r: Int32)
    ensures (x - r) % INT_SPAN == 0
    ensures INT_MIN <= x <= INT_MAX ==> r == x
  {
    var low := x % INT_SPAN;
    if low > INT_MAX then low - INT_SPAN else low
  }

  /** `x + 1` on an `int`, as `x++` computes it: it wraps from `Integer.MAX_VALUE`
      to `Integer.MIN_VALUE`. */
  function IntIncrement(x: Int32): (r: Int32)
    ensures x < INT_MAX ==> r == x + 1
    ensures x == INT_MAX ==> r == INT_MIN
  {
    NarrowToInt(x + 1)
  }

  /**
   * Java's integer division by 1000: the quotient is truncated toward zero,
   * so the remainder `a - q * 1000` takes the sign of `a`.
   */
  function DivBy1000(a: int): (q: int)
    ensures a >= 0 ==> 0 <= q && q * 1000 <= a < q * 1000 + 1000
    ensures a < 0 ==> q <= 0 && q * 1000 - 1000 < a <= q * 1000
  {
    if a >= 0 then a / 1000 else -((-a) / 1000)
  }

  /**
   * The drain bound of the ingester's constructor, `(int)timoutForLastOperation/1000`
   * (TreeIngester.java:52): the cast binds tighter than the division, so the
   * milliseconds are narrowed to `int` FIRST and only then divided.
   * For every millisecond count that already fits an `int` the result is the
   * number of whole seconds, truncated toward zero.
   */
  function SecondsToWait(ms: Int64): (seconds: Int32)
    ensures 0 <= ms <= INT_MAX ==> 0 <= seconds && seconds * 1000 <= ms < seconds * 1000 + 1000
    ensures INT_MIN <= ms < 0 ==> seconds <= 0 && seconds * 1000 - 1000 < ms <= seconds * 1000
  {
    DivBy1000(NarrowToInt(ms))
  }

  /**
   * As written, a timeout just above `Integer.MAX_VALUE` milliseconds (about 24.9
   * days) wraps to a negative number of seconds, which makes the drain give up
   * at once.
   */
  lemma SecondsToWaitWrapsAboveIntRange()
    ensures SecondsToWait(2_147_484_000) == -2_147_483
  {
  }

  /**
   * The evident intent, `(int)(timoutForLastOperation / 1000)`: divide the
   * `long` first, then narrow.
   */
  function IntendedSecondsToWait(ms: Int64): (seconds: Int32)
  {
    NarrowToInt(DivBy1000(ms))
  }

  /** The intended conversion gives the whole seconds for every non-negative
      timeout whose seconds fit an `int`, including the one above. */
  lemma IntendedSecondsToWaitIsWholeSeconds(ms: Int64)
    requires 0 <= ms < (INT_MAX + 1) * 1000
    ensures var seconds := IntendedSecondsToWait(ms);
      0 <= seconds && seconds * 1000 <= ms < seconds * 1000 + 1000
  {
    var q := DivBy1000(ms);
    assert q <= INT_MAX;
    assert NarrowToInt(q) == q;
  }

  /** The two conversions agree whenever the milliseconds fit an `int`. */
  lemma ConversionsAgreeInIntRange(ms: Int64)
    requires INT_MIN <= ms <= INT_MAX
    ensures SecondsToWait(ms) == IntendedSecondsToWait(ms)
  {
    var q := DivBy1000(ms);
    assert INT_MIN <= q <= INT_MAX;
    assert NarrowToInt(q) == q;
  }
}
