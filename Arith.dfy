/** Facts about Euclidean and truncating division, and about sequences
    without repetitions, that the solver does not find unaided. */
module Arith {

  lemma {:induction false} MulAtLeast(a: int, n: int)
    requires a >= 1 && n > 0
    ensures a * n >= n
    decreases a
  {
    if a > 1 {
      MulAtLeast(a - 1, n);
      assert a * n == (a - 1) * n + n;
    }
  }

  /// Quotient and remainder are determined by `x == q * n + r`, `0 <= r < n`.
  lemma DivModUnique(x: int, n: int, q: int, r: int)
    requires n > 0 && 0 <= r < n && x == q * n + r
    ensures x % n == r && x / n == q
  {
    var q0, r0 := x / n, x % n;
    assert x == q0 * n + r0;
    if q > q0 {
      MulAtLeast(q - q0, n);
    } else if q < q0 {
      MulAtLeast(q0 - q, n);
    }
  }

  lemma ModShift(k: int, n: int)
    requires n > 0
    ensures (k + n) % n == k % n
  {
    DivModUnique(k + n, n, k / n + 1, k % n);
  }

  /// Incrementing a counter that is `n` reduced modulo `d` gives `n + 1` reduced.
  lemma ModSucc(n: int, d: int)
    requires d > 0
    ensures (n % d + 1) % d == (n + 1) % d
  {
    var q, r := n / d, n % d;
    if r + 1 == d {
      DivModUnique(n + 1, d, q + 1, 0);
    } else {
      DivModUnique(n + 1, d, q, r + 1);
    }
  }

  lemma MulLeft(k: int, a: int, b: int)
    requires k >= 0 && a <= b
    ensures k * a <= k * b
  {
    if a < b && k > 0 {
      MulAtLeast(b - a, k);
      assert k * b - k * a == (b - a) * k;
    }
  }

  /// Swift's `/` on `Int`: the quotient is truncated toward zero.
  function TruncDiv(a: int, b: int): int
    requires b > 0
  {
    if a >= 0 then a / b else -((-a) / b)
  }

  /// Swift's `%` on `Int`: the remainder takes the sign of the dividend.
  function TruncRem(a: int, b: int): (r: int)
    requires b != 0
    ensures a >= 0 ==> 0 <= r < Abs(b)
    ensures a < 0 ==> -(Abs(b) as int) < r <= 0
  {
    if a >= 0 then a % Abs(b) else -((-a) % Abs(b))
  }

  function Abs(x: int): nat
  {
    if x < 0 then -x else x
  }

  /// A sequence without repetitions holds as many elements as its set.
  lemma {:induction false} DistinctCard(s: seq<int>)
    requires forall a, b :: 0 <= a < b < |s| ==> s[a] != s[b]
    ensures |set x | x in s| == |s|
    decreases |s|
  {
    if s != [] {
      var init := s[..|s| - 1];
      DistinctCard(init);
      assert (set x | x in s) == (set x | x in init) + {s[|s| - 1]};
      assert s[|s| - 1] !in init;
    }
  }
}
