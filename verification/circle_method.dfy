/** Index arithmetic of the circle method behind `generateRoundRobin`
    (src/pages/onboarding/TournamentFixture.tsx). With `n = m + 1` slots
    (m odd), slot 0 is fixed and every round moves the last slot's occupant
    to slot 1, shifting the others right. After `r` rounds slot `j` holds the
    team that started in slot `Pos(m, r, j)`; `Where` is the inverse. Slots
    `j` and `m - j` play each other. */
module CircleMethod {
  import opened ModArith

  predicate ValidModulus(m: int)
  {
    m >= 1 && m % 2 == 1
  }

  /** The starting slot of the team in slot `j` after `r` rotations. */
  function Pos(m: int, r: int, j: int): (e: int)
    requires m >= 1 && 0 <= j <= m
    ensures 0 <= e <= m
    ensures e == 0 <==> j == 0
  {
    if j == 0 then 0 else 1 + (j - 1 - r) % m
  }

  /** The slot, after `r` rotations, of the team that started in slot `u`. */
  function Where(m: int, r: int, u: int): (j: int)
    requires m >= 1 && 0 <= u <= m
    ensures 0 <= j <= m
    ensures j == 0 <==> u == 0
  {
    if u == 0 then 0 else 1 + (u - 1 + r) % m
  }

  lemma PosOfWhere(m: int, r: int, u: int)
    requires m >= 1 && 0 <= u <= m
    ensures Pos(m, r, Where(m, r, u)) == u
  {
    if u != 0 {
      var a := (u - 1 + r) % m;
      CongMod(u - 1 + r, m);
      var k := CongWitness(u - 1 + r, a, m);
      CongFromWitness(a - r, u - 1, m, -k);
      ModOfCong(a - r, u - 1, m);
    }
  }

  lemma WhereOfPos(m: int, r: int, j: int)
    requires m >= 1 && 0 <= j <= m
    ensures Where(m, r, Pos(m, r, j)) == j
  {
    if j != 0 {
      var b := (j - 1 - r) % m;
      CongMod(j - 1 - r, m);
      var k := CongWitness(j - 1 - r, b, m);
      CongFromWitness(b + r, j - 1, m, -k);
      ModOfCong(b + r, j - 1, m);
    }
  }

  /** Before any rotation every team is in its starting slot. */
  lemma PosAtStart(m: int, j: int)
    requires m >= 1 && 0 <= j <= m
    ensures Pos(m, 0, j) == j
  {
    if j != 0 {
      DivModUnique(j - 1, m, 0, j - 1);
    }
  }

  /** One rotation: slot 0 keeps its team, slot 1 receives the last slot's
      team, every other slot its left neighbour's. */
  lemma PosStep(m: int, r: int, j: int)
    requires m >= 1 && 0 <= j <= m
    ensures j == 0 ==> Pos(m, r + 1, j) == 0
    ensures j == 1 ==> Pos(m, r + 1, 1) == Pos(m, r, m)
    ensures j >= 2 ==> Pos(m, r + 1, j) == Pos(m, r, j - 1)
  {
    if j == 1 {
      var a := (-r - 1) % m;
      CongMod(-r - 1, m);
      CongShift(-r - 1, 1, m);
      CongTrans(m - 1 - r, -r - 1, a, m);
      ModOfCong(m - 1 - r, a, m);
    }
  }

  /** Starting slots `u` and `v` play each other in round `r`. */
  predicate Meet(m: int, r: int, u: int, v: int)
    requires m >= 1 && 0 <= u <= m && 0 <= v <= m
  {
    Where(m, r, u) + Where(m, r, v) == m
  }

  /** The round in which starting slots `u` and `v` meet. */
  function MeetRound(m: int, u: int, v: int): int
    requires ValidModulus(m) && 0 <= u <= m && 0 <= v <= m && u != v
  {
    if u == 0 then m - v
    else if v == 0 then m - u
    else ((m + 1) / 2 * (2 * m - u - v)) % m
  }

  /** The slot fixed at 0 meets `v` in round `m - v`. */
  lemma MeetWithFixed(m: int, v: int)
    requires ValidModulus(m) && 1 <= v <= m
    ensures Meet(m, m - v, 0, v)
  {
    assert (v - 1 + (m - v)) % m == m - 1 by { DivModUnique(m - 1, m, 0, m - 1); }
  }

  /** Two rotating slots `u != v` meet in round `r` exactly when
      `(u - 1) + (v - 1) + 2r` is congruent to `m - 2`. */
  lemma MeetIffSum(m: int, r: int, u: int, v: int)
    requires ValidModulus(m) && 1 <= u <= m && 1 <= v <= m && u != v
    ensures Meet(m, r, u, v) <==> Cong(u - 1 + v - 1 + 2 * r, m - 2, m)
  {
    var x, y := u - 1, v - 1;
    var a, b := (x + r) % m, (y + r) % m;
    CongMod(x + r, m);
    CongMod(y + r, m);
    CongAdd(x + r, a, y + r, b, m);
    assert Cong(x + y + 2 * r, a + b, m);
    if Meet(m, r, u, v) {
      assert a + b == m - 2;
    }
    if Cong(x + y + 2 * r, m - 2, m) {
      CongSym(x + y + 2 * r, a + b, m);
      CongTrans(a + b, x + y + 2 * r, m - 2, m);
      assert m >= 3;
      if a + b >= m {
        CongShift(a + b, -1, m);
        CongTrans(a + b - m, a + b, m - 2, m);
        CongUnique(a + b - m, m - 2, m);
        assert a == m - 1 && b == m - 1;
        CongSym(y + r, b, m);
        CongTrans(x + r, a, y + r, m);
        CongShift(x, 0, m);
        var k := CongWitness(x + r, y + r, m);
        CongFromWitness(x, y, m, k);
        CongUnique(x, y, m);
        assert false;
      } else {
        CongUnique(a + b, m - 2, m);
      }
    }
  }

  /** With m odd, doubling is invertible: `2d` divisible by `m` forces `d` to be. */
  lemma HalveCong(d: int, m: int)
    requires ValidModulus(m) && Cong(2 * d, 0, m)
    ensures Cong(d, 0, m)
  {
    var k := CongWitness(2 * d, 0, m);
    var h := (m + 1) / 2;
    assert 2 * h == m + 1;
    assert d * (m + 1) == d * m + d;
    assert h * (2 * d) == h * (k * m);
    assert d == (h * k - d) * m by {
      calc {
        (h * k - d) * m;
        == h * (k * m) - d * m;
        == h * (2 * d) - d * m;
        == (2 * h) * d - d * m;
        == (m + 1) * d - d * m;
        == d;
      }
    }
    CongFromWitness(d, 0, m, h * k - d);
  }

  lemma HalfOfSuccessor(m: int)
    requires ValidModulus(m)
    ensures 2 * ((m + 1) / 2) == m + 1
  {
    assert m == (m / 2) * 2 + 1;
    DivModUnique(m + 1, 2, m / 2 + 1, 0);
  }

  lemma TwiceProduct(h: int, kk: int, m: int)
    requires 2 * h == m + 1
    ensures h * kk + h * kk == kk + kk * m
  {
    calc {
      h * kk + h * kk;
      == (h + h) * kk;
      == (m + 1) * kk;
      == kk + kk * m;
    }
  }

  /** `(m + 1) / 2` is the inverse of 2 modulo an odd `m`. */
  lemma DoubleOfHalf(m: int, kk: int)
    requires ValidModulus(m)
    ensures Cong(2 * (((m + 1) / 2 * kk) % m), kk, m)
  {
    var h := (m + 1) / 2;
    HalfOfSuccessor(m);
    var p := h * kk;
    var r := p % m;
    CongMod(p, m);
    CongSym(p, r, m);
    CongAdd(r, p, r, p, m);
    assert p + p == kk + kk * m by { TwiceProduct(h, kk, m); }
    CongShift(kk, kk, m);
    CongTrans(r + r, p + p, kk, m);
    assert 2 * r == r + r;
  }

  lemma MeetRoundMeetsRotating(m: int, u: int, v: int)
    requires ValidModulus(m) && 1 <= u <= m && 1 <= v <= m && u != v
    ensures 0 <= MeetRound(m, u, v) < m
    ensures Meet(m, MeetRound(m, u, v), u, v)
  {
    var kk := 2 * m - u - v;
    var r := MeetRound(m, u, v);
    DoubleOfHalf(m, kk);
    CongAdd(u - 1 + v - 1, u - 1 + v - 1, 2 * r, kk, m);
    CongShift(m - 2, 1, m);
    CongTrans(u - 1 + v - 1 + 2 * r, u - 1 + v - 1 + kk, m - 2, m);
    MeetIffSum(m, r, u, v);
  }

  /** Every two distinct starting slots meet in `MeetRound`, a round in range. */
  lemma MeetRoundMeets(m: int, u: int, v: int)
    requires ValidModulus(m) && 0 <= u <= m && 0 <= v <= m && u != v
    ensures 0 <= MeetRound(m, u, v) < m
    ensures Meet(m, MeetRound(m, u, v), u, v)
  {
    if u == 0 {
      MeetWithFixed(m, v);
    } else if v == 0 {
      MeetWithFixed(m, u);
    } else {
      MeetRoundMeetsRotating(m, u, v);
    }
  }

  lemma MeetFixedUnique(m: int, w: int, r1: int, r2: int)
    requires ValidModulus(m) && 1 <= w <= m
    requires 0 <= r1 < m && 0 <= r2 < m
    requires Where(m, r1, w) == m && Where(m, r2, w) == m
    ensures r1 == r2
  {
    CongMod(w - 1 + r1, m);
    CongMod(w - 1 + r2, m);
    CongSym(w - 1 + r2, m - 1, m);
    CongTrans(w - 1 + r1, m - 1, w - 1 + r2, m);
    var k := CongWitness(w - 1 + r1, w - 1 + r2, m);
    CongFromWitness(r1, r2, m, k);
    CongUnique(r1, r2, m);
  }

  lemma MeetRotatingUnique(m: int, u: int, v: int, r1: int, r2: int)
    requires ValidModulus(m) && 1 <= u <= m && 1 <= v <= m && u != v
    requires 0 <= r1 < m && 0 <= r2 < m
    requires Cong(u - 1 + v - 1 + 2 * r1, m - 2, m) && Cong(u - 1 + v - 1 + 2 * r2, m - 2, m)
    ensures r1 == r2
  {
    CongSym(u - 1 + v - 1 + 2 * r2, m - 2, m);
    CongTrans(u - 1 + v - 1 + 2 * r1, m - 2, u - 1 + v - 1 + 2 * r2, m);
    var k := CongWitness(u - 1 + v - 1 + 2 * r1, u - 1 + v - 1 + 2 * r2, m);
    CongFromWitness(2 * (r1 - r2), 0, m, k);
    HalveCong(r1 - r2, m);
    var k2 := CongWitness(r1 - r2, 0, m);
    CongFromWitness(r1, r2, m, k2);
    CongUnique(r1, r2, m);
  }

  /** Two distinct starting slots meet in at most one round of the `m`. */
  lemma MeetRoundUnique(m: int, u: int, v: int, r1: int, r2: int)
    requires ValidModulus(m) && 0 <= u <= m && 0 <= v <= m && u != v
    requires 0 <= r1 < m && 0 <= r2 < m
    requires Meet(m, r1, u, v) && Meet(m, r2, u, v)
    ensures r1 == r2
  {
    if u == 0 {
      MeetFixedUnique(m, v, r1, r2);
    } else if v == 0 {
      MeetFixedUnique(m, u, r1, r2);
    } else {
      MeetIffSum(m, r1, u, v);
      MeetIffSum(m, r2, u, v);
      MeetRotatingUnique(m, u, v, r1, r2);
    }
  }
}
