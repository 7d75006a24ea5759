/** Small facts about multiplication and division by a variable, which the
    solver does not find on its own. */
module Arith {

  lemma MulMono(a: int, b: int, t: nat)
    ensures a <= b ==> a * t <= b * t
  {
    if a <= b {
      assert b * t == a * t + (b - a) * t;
    }
  }

  /** Position `j` of block `i` (blocks of `t` cells) has quotient `i`. */
  lemma DivLayout(i: nat, j: nat, t: nat)
    requires j < t
    ensures (i * t + j) / t == i
    ensures (i * t + j) % t == j
  {
    var a := i * t + j;
    var q := a / t;
    assert q * t <= a < q * t + t;
    MulMono(i + 1, q, t);
    MulMono(q + 1, i, t);
    assert (i + 1) * t == i * t + t;
    assert (q + 1) * t == q * t + t;
  }

  /** An index below `n` blocks of `t` cells lies in one of those blocks. */
  lemma DivBelow(k: nat, n: nat, t: nat)
    requires t > 0 && k < n * t
    ensures k / t < n
  {
    var q, r := k / t, k % t;
    assert k == q * t + r;
    MulMono(n, q, t);
  }

  /** Division by a positive real is monotone and cancels against
      multiplication. */
  lemma DivMono(a: real, b: real, d: real)
    requires d > 0.0 && a <= b
    ensures a / d <= b / d && (a / d) * d == a && d / d == 1.0 && 0.0 / d == 0.0
  {
    assert b / d - a / d == (b - a) / d;
  }
}
