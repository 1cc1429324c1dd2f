/** Unsigned 64-bit words, the `std::uint64_t` every value of the input is read into.
    Dafny integers are unbounded, so the wrap-around of `+` and `-` on the word is
    written out explicitly. */
module Words {

  const TWO_TO_THE_64: int := 0x1_0000_0000_0000_0000

  /** `std::numeric_limits<std::uint64_t>::max()` */
  const UINT64_MAX: int := TWO_TO_THE_64 - 1

  /** Half the word range: two values below it never wrap when added. */
  const TWO_TO_THE_63: int := 0x8000_0000_0000_0000

  /** One input value. */
  type Input = x: int | 0 <= x < TWO_TO_THE_64

  /** `a + b` on `std::uint64_t`: reduced modulo 2^64. */
  function Add(a: Input, b: Input): Input {
    (a + b) % TWO_TO_THE_64
  }

  /** `a - b` on `std::uint64_t`: reduced modulo 2^64 (Dafny's `%` is never negative). */
  function Sub(a: Input, b: Input): Input {
    (a - b) % TWO_TO_THE_64
  }

  /** Subtracting `a` undoes adding `a`: looking up `c - a` finds exactly the `b` with `a + b == c`. */
  lemma SubFindsAddend(a: Input, b: Input, c: Input)
    ensures Sub(c, a) == b <==> Add(a, b) == c
  {
    if a + b < TWO_TO_THE_64 {
      assert Add(a, b) == a + b;
      if c >= a {
        assert Sub(c, a) == c - a;
      } else {
        assert Sub(c, a) == c - a + TWO_TO_THE_64;
      }
    } else {
      assert Add(a, b) == a + b - TWO_TO_THE_64;
      if c >= a {
        assert Sub(c, a) == c - a;
      } else {
        assert Sub(c, a) == c - a + TWO_TO_THE_64;
      }
    }
  }

  /** Without overflow the word sum is the integer sum. */
  lemma AddWithoutWrap(a: Input, b: Input)
    requires a + b < TWO_TO_THE_64
    ensures Add(a, b) == a + b
  {
  }

  /** A non-zero multiple of `n` is at least `n` away from 0. */
  lemma MultipleAtLeast(d: int, n: nat)
    requires d >= 1
    ensures d * n >= n
  {
    assert d * n == (d - 1) * n + n;
  }

  /** Euclidean remainder from any decomposition `x == q * n + r` with `0 <= r < n`. */
  lemma RemainderOf(x: int, n: nat, q: int, r: int)
    requires n > 0 && 0 <= r < n && x == q * n + r
    ensures x % n == r
  {
    var q', r' := x / n, x % n;
    assert x == q' * n + r';
    assert (q - q') * n == q * n - q' * n;
    assert (q - q') * n == r' - r;
    if q > q' {
      MultipleAtLeast(q - q', n);
    } else if q < q' {
      MultipleAtLeast(q' - q, n);
    }
  }

  /** Numbers congruent modulo `n` stay congruent when the same amount is added. */
  lemma CongruentPlus(a: int, b: int, x: int, n: nat)
    requires n > 0 && a % n == b % n
    ensures (a + x) % n == (b + x) % n
  {
    var r := (a + x) % n;
    var qa := a / n;
    var qb := b / n;
    var q := (a + x) / n;
    assert a == qa * n + a % n && b == qb * n + a % n;
    assert a + x == q * n + r;
    assert b + x == (q + qb - qa) * n + r by {
      assert (q + qb - qa) * n == q * n + qb * n - qa * n;
    }
    RemainderOf(b + x, n, q + qb - qa, r);
  }
}
