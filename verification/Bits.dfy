/** Bitwise `and` on unbounded naturals, and the two masks flash addresses go through. */
module Bits {

  function Pow2(k: nat): (p: nat)
    ensures p >= 1
  {
    if k == 0 then 1 else 2 * Pow2(k - 1)
  }

  lemma {:induction false} Pow2Add(a: nat, b: nat)
    ensures Pow2(a + b) == Pow2(a) * Pow2(b)
  {
    if a > 0 {
      Pow2Add(a - 1, b);
      assert 2 * (Pow2(a - 1) * Pow2(b)) == 2 * Pow2(a - 1) * Pow2(b);
    }
  }

  lemma {:induction false} Pow2Word()
    ensures Pow2(32) == 0x1_0000_0000
  {
    assert Pow2(2) == 4;
    Pow2Add(2, 2);
    Pow2Add(4, 4);
    Pow2Add(8, 8);
    Pow2Add(16, 16);
  }

  function And(a: nat, b: nat): nat {
    if a == 0 || b == 0 then 0
    else 2 * And(a / 2, b / 2) + if a % 2 == 1 && b % 2 == 1 then 1 else 0
  }

  lemma {:induction false} MulAtLeast(m: int, x: int)
    requires m > 0 && x >= 1
    ensures m * x >= m
  {}

  lemma {:induction false} MulSucc(m: int, x: int)
    ensures m * (x + 1) == m * x + m
  {}

  lemma {:induction false} DivMonotone(a: nat, b: nat, m: nat)
    requires m > 0 && a <= b
    ensures a / m <= b / m
  {
    if a / m > b / m { MulAtLeast(m, a / m - b / m); }
  }

  lemma {:induction false} DivModUnique(a: int, m: int, q: int, r: int)
    requires m > 0 && a == m * q + r && 0 <= r < m
    ensures a / m == q && a % m == r
  {
    var q' := a / m;
    var d := q' - q;
    assert a == m * q' + a % m;
    assert m * q' == m * q + m * d by { assert q' == q + d; }
    if d >= 1 { MulAtLeast(m, d); }
    if d <= -1 { MulAtLeast(m, -d); }
  }

  /** The low `k` bits of `a`, and what is above them. */
  function Low(a: nat, k: nat): (r: nat)
    ensures r < Pow2(k)
  {
    if k == 0 then 0 else 2 * Low(a / 2, k - 1) + a % 2
  }

  function High(a: nat, k: nat): nat {
    if k == 0 then a else High(a / 2, k - 1)
  }

  lemma {:induction false} LowHighSum(a: nat, k: nat)
    ensures a == Pow2(k) * High(a, k) + Low(a, k)
    decreases k
  {
    if k > 0 {
      LowHighSum(a / 2, k - 1);
      DoubleMul(Pow2(k - 1), High(a, k));
    }
  }

  lemma {:induction false} DoubleMul(x: nat, y: nat)
    ensures 2 * (x * y) == (2 * x) * y
  {}

  /** Low bits and the rest are remainder and quotient. */
  lemma {:induction false} LowHigh(a: nat, k: nat)
    ensures a == Pow2(k) * High(a, k) + Low(a, k)
    ensures Low(a, k) == a % Pow2(k) && High(a, k) == a / Pow2(k)
  {
    LowHighSum(a, k);
    DivModUnique(a, Pow2(k), High(a, k), Low(a, k));
  }

  /** `a & (2^k - 1)` keeps the low `k` bits. */
  lemma {:induction false} AndLowMask(a: nat, k: nat)
    ensures And(a, Pow2(k) - 1) == Low(a, k)
    decreases k
  {
    if k > 0 {
      AndLowMask(a / 2, k - 1);
      assert (Pow2(k) - 1) / 2 == Pow2(k - 1) - 1;
    }
  }

  /** `a & 2^k` tests bit `k`. */
  lemma {:induction false} AndBit(a: nat, k: nat)
    ensures And(a, Pow2(k)) != 0 <==> High(a, k) % 2 == 1
    decreases k
  {
    if k == 0 {
      assert And(a / 2, 0) == 0;
    } else {
      AndBit(a / 2, k - 1);
      assert Pow2(k) / 2 == Pow2(k - 1);
      if a == 0 { HighZero(k); }
    }
  }

  lemma {:induction false} HighZero(k: nat)
    ensures High(0, k) == 0
  {
    if k > 0 { HighZero(k - 1); }
  }

  lemma {:induction false} AndAllOnes(a: nat, w: nat)
    requires a < Pow2(w)
    ensures And(a, Pow2(w) - 1) == a
    decreases w
  {
    AndLowMask(a, w);
    LowHigh(a, w);
    DivModUnique(a, Pow2(w), 0, a);
  }

  lemma {:induction false} Pow2Monotone(k: nat, w: nat)
    requires k <= w
    ensures Pow2(k) <= Pow2(w)
  {
    if k < w { Pow2Monotone(k, w - 1); }
  }

  /** `a & !(2^k - 1)` in a `w`-bit word rounds `a` down to a multiple of `2^k`. */
  lemma {:induction false} AndHighMask(a: nat, k: nat, w: nat)
    requires a < Pow2(w) && k <= w
    ensures Pow2(k) <= Pow2(w)
    ensures And(a, Pow2(w) - Pow2(k)) == a - Low(a, k)
    decreases k
  {
    Pow2Monotone(k, w);
    if k == 0 {
      AndAllOnes(a, w);
    } else {
      AndHighMask(a / 2, k - 1, w - 1);
      var b := Pow2(w) - Pow2(k);
      assert b / 2 == Pow2(w - 1) - Pow2(k - 1) && b % 2 == 0;
    }
  }
}
