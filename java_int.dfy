/** Java's 32-bit `int` arithmetic as the dispatcher uses it: the wrapping increment of
    an AtomicInteger, the truncating remainder `%` and `Math.abs`. Dafny's integers are
    unbounded and its `%` is Euclidean, so each is written out here. */
module JavaInt {

  const MinInt: int := -0x8000_0000
  const MaxInt: int := 0x7fff_ffff
  const Modulus: int := 0x1_0000_0000

  type Int32 = x: int | MinInt <= x <= MaxInt

  /** Two's-complement reduction of an unbounded integer to 32 bits. */
  function Wrap(x: int): (r: Int32)
    ensures (x - r) % Modulus == 0
    ensures MinInt <= x <= MaxInt ==> r == x
  {
    (x - MinInt) % Modulus + MinInt
  }

  /** Two 32-bit values that agree modulo 2^32 are the same value. */
  lemma CongruentEqual(a: Int32, b: Int32)
    requires (a - b) % Modulus == 0
    ensures a == b
  {
  }

  /** The value an AtomicInteger holds after getAndIncrement: one more, except that
      Integer.MAX_VALUE wraps to Integer.MIN_VALUE. */
  function Increment(c: Int32): (r: Int32)
    ensures c < MaxInt ==> r == c + 1
    ensures c == MaxInt ==> r == MinInt
  {
    if c == MaxInt then MinInt else c + 1
  }

  lemma IncrementWraps(c: Int32)
    ensures Increment(c) == Wrap(c + 1)
  {
  }

  /** The value after k successive getAndIncrement calls starting from c. */
  function Advance(c: Int32, k: nat): (r: Int32)
    decreases k
  {
    if k == 0 then c else Advance(Increment(c), k - 1)
  }

  /** k increments of a 32-bit counter land on the two's-complement reduction of c + k. */
  lemma {:induction false} AdvanceWraps(c: Int32, k: nat)
    ensures Advance(c, k) == Wrap(c + k)
    decreases k
  {
    if k > 0 {
      AdvanceWraps(Increment(c), k - 1);
      IncrementWraps(c);
      WrapAdd(c + 1, k - 1);
    }
  }

  /** As long as c + k stays a valid int, k increments simply add k. */
  lemma AdvanceInRange(c: Int32, k: nat)
    requires c + k <= MaxInt
    ensures Advance(c, k) == c + k
  {
    AdvanceWraps(c, k);
  }

  /** Wrapping part way and then adding k lands where wrapping the whole sum does: k
      increments of a wrapped counter leave it at Wrap(c + k). */
  lemma WrapAdd(x: int, k: int)
    ensures Wrap(Wrap(x) + k) == Wrap(x + k)
  {
    var w := Wrap(x);
    var a := Wrap(w + k);
    var b := Wrap(x + k);
    SumCongruent(x - w, w + k - a);
    assert x + k - a == (x - w) + (w + k - a);
    SubCongruent(x + k - a, x + k - b);
    assert (x + k - b) - (x + k - a) == a - b;
    CongruentEqual(a, b);
  }

  lemma SumCongruent(x: int, y: int)
    requires x % Modulus == 0 && y % Modulus == 0
    ensures (x + y) % Modulus == 0
  {
    assert x == Modulus * (x / Modulus);
    assert y == Modulus * (y / Modulus);
    assert x + y == Modulus * (x / Modulus + y / Modulus);
  }

  lemma SubCongruent(x: int, y: int)
    requires x % Modulus == 0 && y % Modulus == 0
    ensures (y - x) % Modulus == 0
  {
    assert x == Modulus * (x / Modulus);
    assert y == Modulus * (y / Modulus);
    assert y - x == Modulus * (y / Modulus - x / Modulus);
  }

  /** Java's `a % n` for n > 0: the remainder of division truncated toward zero, which
      takes the sign of the dividend. */
  function Rem(a: int, n: int): (r: int)
    requires n > 0
    ensures -n < r < n
    ensures a >= 0 ==> 0 <= r
    ensures a <= 0 ==> r <= 0
    ensures (a - r) % n == 0
    ensures -a <= r <= a || a <= r <= -a
  {
    if a >= 0 then
      DividendMinusRemainder(a, n);
      a % n
    else
      DividendMinusRemainder(-a, n);
      assert (a + (-a) % n) == -((-a) - (-a) % n);
      NegatedMultiple(-a - (-a) % n, n);
      -((-a) % n)
  }

  /** For x >= 0 and n > 0 the Euclidean and the truncating remainder agree, and
      subtracting the remainder leaves a multiple of n. */
  lemma DividendMinusRemainder(x: int, n: int)
    requires x >= 0 && n > 0
    ensures (x - x % n) % n == 0 && x % n <= x
  {
    var q := x / n;
    assert x - x % n == n * q;
    MultipleMod(q, n);
  }

  lemma MulAtMost(q: int, n: int)
    requires q < 0 && n > 0
    ensures n * q <= -n
  {
    assert n * q == -(n * -q);
    assert n * -q >= n by { MulAtLeast(-q, n); }
  }

  lemma MulAtLeast(q: int, n: int)
    requires q >= 1 && n > 0
    ensures n * q >= n
  {
    assert n * q == n * (q - 1) + n;
    assert n * (q - 1) >= 0;
  }

  /** n * q is a multiple of n in Dafny's Euclidean sense. */
  lemma MultipleMod(q: int, n: int)
    requires n > 0
    ensures (n * q) % n == 0
  {
    var x := n * q;
    var k := q - x / n;
    assert n * k == x % n by {
      assert x == n * (x / n) + x % n;
      assert n * k == n * q - n * (x / n);
    }
    if k >= 1 {
      MulAtLeast(k, n);
    } else if k <= -1 {
      MulAtMost(k, n);
    }
  }

  lemma NegatedMultiple(x: int, n: int)
    requires n > 0 && x % n == 0
    ensures (-x) % n == 0
  {
    assert x == n * (x / n);
    assert -x == n * -(x / n);
    MultipleMod(-(x / n), n);
  }

  /** A remainder below the modulus is the number itself. */
  lemma SmallMod(a: int, n: int)
    requires 0 <= a < n
    ensures a % n == a
  {
  }

  /** Fewer than n consecutive non-negative values have pairwise distinct remainders mod n. */
  lemma ModDistinct(a: int, b: int, n: int)
    requires 0 <= a < b < a + n
    ensures a % n != b % n
  {
    if a % n == b % n {
      var q := b / n - a / n;
      assert b - a == n * q by {
        assert a == n * (a / n) + a % n;
        assert b == n * (b / n) + b % n;
      }
      if q >= 1 {
        MulAtLeast(q, n);
      } else if q < 0 {
        MulAtMost(q, n);
      }
    }
  }

  /** Math.abs(int): the negation of a negative value, except that Integer.MIN_VALUE has
      no 32-bit negation and comes back unchanged. */
  function Abs(x: Int32): (r: Int32)
    ensures x != MinInt ==> r >= 0 && (r == x || r == -x)
    ensures x == MinInt ==> r == MinInt
  {
    if x == MinInt then MinInt else if x < 0 then -x else x
  }
}
