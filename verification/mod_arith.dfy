/** Congruence facts for Dafny's Euclidean `%` with a positive modulus, used
    by the round-robin proofs. */
module ModArith {

  lemma MulAtLeast(a: int, m: int)
    requires a >= 1 && m > 0
    ensures a * m >= m
  {
    assert a * m == (a - 1) * m + m;
    assert (a - 1) * m >= 0;
  }

  /** Quotient and remainder are unique. */
  lemma DivModUnique(x: int, m: int, q: int, r: int)
    requires m > 0 && 0 <= r < m && x == q * m + r
    ensures x % m == r && x / m == q
  {
    var q0 := x / m;
    var r0 := x % m;
    assert x == q0 * m + r0;
    assert (q - q0) * m == r0 - r;
    if q > q0 {
      MulAtLeast(q - q0, m);
    } else if q < q0 {
      MulAtLeast(q0 - q, m);
    }
  }

  /** `a` and `b` leave the same remainder modulo `m`. */
  predicate Cong(a: int, b: int, m: int)
    requires m > 0
  {
    (a - b) % m == 0
  }

  lemma CongWitness(a: int, b: int, m: int) returns (k: int)
    requires m > 0 && Cong(a, b, m)
    ensures a - b == k * m
  {
    k := (a - b) / m;
  }

  lemma CongFromWitness(a: int, b: int, m: int, k: int)
    requires m > 0 && a - b == k * m
    ensures Cong(a, b, m)
  {
    DivModUnique(a - b, m, k, 0);
  }

  /** A number is congruent to its remainder. */
  lemma CongMod(a: int, m: int)
    requires m > 0
    ensures Cong(a, a % m, m)
  {
    CongFromWitness(a, a % m, m, a / m);
  }

  /** Two remainders that are congruent are equal. */
  lemma CongUnique(a: int, b: int, m: int)
    requires m > 0 && 0 <= a < m && 0 <= b < m && Cong(a, b, m)
    ensures a == b
  {
    var k := CongWitness(a, b, m);
    if k >= 1 {
      MulAtLeast(k, m);
    } else if k <= -1 {
      MulAtLeast(-k, m);
    }
  }

  /** `x % m` is the unique remainder congruent to `x`. */
  lemma ModOfCong(x: int, r: int, m: int)
    requires m > 0 && 0 <= r < m && Cong(x, r, m)
    ensures x % m == r
  {
    var k := CongWitness(x, r, m);
    DivModUnique(x, m, k, r);
  }

  lemma CongSym(a: int, b: int, m: int)
    requires m > 0 && Cong(a, b, m)
    ensures Cong(b, a, m)
  {
    var k := CongWitness(a, b, m);
    CongFromWitness(b, a, m, -k);
  }

  lemma CongTrans(a: int, b: int, c: int, m: int)
    requires m > 0 && Cong(a, b, m) && Cong(b, c, m)
    ensures Cong(a, c, m)
  {
    var k1 := CongWitness(a, b, m);
    var k2 := CongWitness(b, c, m);
    CongFromWitness(a, c, m, k1 + k2);
  }

  /** Congruences add. */
  lemma CongAdd(a: int, b: int, c: int, d: int, m: int)
    requires m > 0 && Cong(a, b, m) && Cong(c, d, m)
    ensures Cong(a + c, b + d, m)
  {
    var k1 := CongWitness(a, b, m);
    var k2 := CongWitness(c, d, m);
    CongFromWitness(a + c, b + d, m, k1 + k2);
  }

  /** Adding a multiple of the modulus changes nothing. */
  lemma CongShift(a: int, k: int, m: int)
    requires m > 0
    ensures Cong(a + k * m, a, m)
  {
    CongFromWitness(a + k * m, a, m, k);
  }
}
