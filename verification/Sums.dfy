/** Finite sums of reals over an integer range, and the facts about integer division and real
    products that arithmetic elsewhere rests on. */
module Sums {

  /** f(lo) + f(lo+1) + ... + f(hi-1). */
  function Sum(f: int -> real, lo: int, hi: int): real
    decreases hi - lo
  {
    if lo >= hi then 0.0 else Sum(f, lo, hi - 1) + f(hi - 1)
  }

  lemma {:induction false} SumCong(f: int -> real, g: int -> real, lo: int, hi: int)
    requires forall i | lo <= i < hi :: f(i) == g(i)
    ensures Sum(f, lo, hi) == Sum(g, lo, hi)
    decreases hi - lo
  {
    if lo < hi {
      SumCong(f, g, lo, hi - 1);
    }
  }

  /** Two sums agree term by term after shifting the index by d. */
  lemma {:induction false} SumShift(f: int -> real, g: int -> real, lo: int, hi: int, d: int)
    requires forall i | lo <= i < hi :: f(i) == g(i + d)
    ensures Sum(f, lo, hi) == Sum(g, lo + d, hi + d)
    decreases hi - lo
  {
    if lo < hi {
      SumShift(f, g, lo, hi - 1, d);
    }
  }

  lemma {:induction false} SumSplit(f: int -> real, lo: int, mid: int, hi: int)
    requires lo <= mid <= hi
    ensures Sum(f, lo, hi) == Sum(f, lo, mid) + Sum(f, mid, hi)
    decreases hi - mid
  {
    if mid < hi {
      SumSplit(f, lo, mid, hi - 1);
    }
  }

  lemma {:induction false} SumZero(f: int -> real, lo: int, hi: int)
    requires forall i | lo <= i < hi :: f(i) == 0.0
    ensures Sum(f, lo, hi) == 0.0
    decreases hi - lo
  {
    if lo < hi {
      SumZero(f, lo, hi - 1);
    }
  }

  /** A sum whose terms all vanish except at k is that one term. */
  lemma SumSingle(f: int -> real, lo: int, hi: int, k: int)
    requires lo <= k < hi
    requires forall i | lo <= i < hi && i != k :: f(i) == 0.0
    ensures Sum(f, lo, hi) == f(k)
  {
    SumSplit(f, lo, k, hi);
    SumSplit(f, k, k + 1, hi);
    SumZero(f, lo, k);
    SumZero(f, k + 1, hi);
    assert Sum(f, k, k + 1) == f(k);
  }

  lemma {:induction false} SumAdd(f: int -> real, g: int -> real, h: int -> real, lo: int, hi: int)
    requires forall i | lo <= i < hi :: h(i) == f(i) + g(i)
    ensures Sum(h, lo, hi) == Sum(f, lo, hi) + Sum(g, lo, hi)
    decreases hi - lo
  {
    if lo < hi {
      SumAdd(f, g, h, lo, hi - 1);
    }
  }

  lemma {:induction false} SumScale(c: real, f: int -> real, g: int -> real, lo: int, hi: int)
    requires forall i | lo <= i < hi :: g(i) == c * f(i)
    ensures Sum(g, lo, hi) == c * Sum(f, lo, hi)
    decreases hi - lo
  {
    if lo < hi {
      SumScale(c, f, g, lo, hi - 1);
    }
  }

  lemma {:induction false} SumMono(f: int -> real, g: int -> real, lo: int, hi: int)
    requires forall i | lo <= i < hi :: f(i) <= g(i)
    ensures Sum(f, lo, hi) <= Sum(g, lo, hi)
    decreases hi - lo
  {
    if lo < hi {
      SumMono(f, g, lo, hi - 1);
    }
  }

  lemma SumNonNegative(f: int -> real, lo: int, hi: int)
    requires forall i | lo <= i < hi :: f(i) >= 0.0
    ensures Sum(f, lo, hi) >= 0.0
  {
    var zero := i => 0.0;
    SumZero(zero, lo, hi);
    SumMono(zero, f, lo, hi);
  }

  /** Quotient and remainder are determined by the equation that defines them. */
  lemma DivModUnique(n: int, d: int, q: int, r: int)
    requires d >= 1 && n == q * d + r && 0 <= r < d
    ensures n / d == q && n % d == r
  {
    var q', r' := n / d, n % d;
    assert n == q' * d + r' by {
      assert n == d * q' + r';
    }
    if q' < q {
      MulMono(q' + 1, q, d);
      assert false;
    } else if q' > q {
      MulMono(q + 1, q', d);
      assert false;
    }
  }

  lemma MulNonNegative(a: int, b: int)
    requires a >= 0 && b >= 0
    ensures a * b >= 0
  {
  }

  lemma MulMono(a: int, b: int, c: int)
    requires a <= b && c >= 0
    ensures a * c <= b * c
  {
    MulNonNegative(b - a, c);
    assert (b - a) * c == b * c - a * c;
  }

  // ---- Signs and order of real products and quotients.

  lemma ProductNonNegative(a: real, b: real)
    requires a >= 0.0 && b >= 0.0
    ensures a * b >= 0.0
  {
  }

  lemma ProductPositive(a: real, b: real)
    requires a > 0.0 && b > 0.0
    ensures a * b > 0.0
  {
  }

  lemma ProductMono(c: real, a: real, b: real)
    requires c >= 0.0 && a <= b
    ensures c * a <= c * b
  {
  }

  lemma QuotientMono(a: real, b: real, c: real)
    requires c > 0.0
    ensures a <= b ==> a / c <= b / c
    ensures a < b ==> a / c < b / c
  {
    assert (b / c - a / c) * c == b - a;
  }

  lemma RealProduct(a: int, b: int)
    ensures a as real * b as real == (a * b) as real
  {
  }
}
