/**
  Shifts and masks of unbounded naturals: Shr(x, k) is x >> k, Low(x, k) is x & ((1 << k) - 1).
  Or-ing in a field above the others adds it.
 */
module Bits {
  import opened Arith

  function Shr(x: nat, k: nat): (q: nat) {
    DivNonNegative(x, Pow2(k));
    x / Pow2(k)
  }

  function Low(x: nat, k: nat): (r: nat)
    ensures r < Pow2(k)
  {
    x % Pow2(k)
  }

  lemma DivNonNegative(x: nat, p: nat)
    requires p >= 1
    ensures x / p >= 0
  {
    if x / p < 0 {
      MulMono(x / p, -1, p);
    }
  }

  lemma DivUnique(x: nat, p: nat, q: nat, r: nat)
    requires p >= 1 && x == q * p + r && r < p
    ensures x / p == q && x % p == r
  {
    var d := x / p;
    assert x == d * p + x % p;
    if d < q { MulMono(d + 1, q, p); }
    if q < d { MulMono(q + 1, d, p); }
  }

  lemma Split(x: nat, k: nat)
    ensures x == Shr(x, k) * Pow2(k) + Low(x, k)
  {
  }

  lemma Unique(x: nat, k: nat, q: nat, r: nat)
    requires x == q * Pow2(k) + r && r < Pow2(k)
    ensures Shr(x, k) == q && Low(x, k) == r
  {
    DivUnique(x, Pow2(k), q, r);
  }

  lemma Small(x: nat, k: nat)
    requires x < Pow2(k)
    ensures Shr(x, k) == 0 && Low(x, k) == x
  {
    Unique(x, k, 0, x);
  }

  /** A field r below bit b, under anything. */
  lemma Field(h: nat, r: nat, a: nat, b: nat)
    requires a <= b
    ensures Low(h * Pow2(b) + r, a) == Low(r, a)
  {
    hide *;
    Split(r, a);
    Pow2Add(b - a, a);
    var p, u := Pow2(a), h * Pow2(b - a);
    MulAssoc(h, Pow2(b - a), p);
    DistributeRight(u, Shr(r, a), p);
    Unique(h * Pow2(b) + r, a, u + Shr(r, a), Low(r, a));
  }

  lemma MulAssoc(x: int, y: int, z: int)
    ensures x * (y * z) == x * y * z
  {
  }

  lemma DistributeRight(a: int, b: int, c: int)
    ensures (a + b) * c == a * c + b * c
  {
  }

  lemma LowLow(x: nat, a: nat, b: nat)
    requires a <= b
    ensures Low(Low(x, b), a) == Low(x, a)
  {
    hide *;
    Split(x, b);
    Field(Shr(x, b), Low(x, b), a, b);
  }

  lemma ShrShr(x: nat, a: nat, b: nat)
    ensures Shr(Shr(x, a), b) == Shr(x, a + b)
    ensures Low(x, a + b) == Low(Shr(x, a), b) * Pow2(a) + Low(x, a)
  {
    hide *;
    var y := Shr(x, a);
    Split(x, a);
    Split(y, b);
    Pow2Add(b, a);
    var p := Pow2(a);
    DistributeRight(Shr(y, b) * Pow2(b), Low(y, b), p);
    MulAssoc(Shr(y, b), Pow2(b), p);
    LowBound(x, a);
    LowBound(y, b);
    var r := Low(y, b) * p + Low(x, a);
    assert r < Pow2(b + a) by { MulMono(Low(y, b) + 1, Pow2(b), p); DistributeRight(Low(y, b), 1, p); }
    Unique(x, a + b, Shr(y, b), r);
  }

  lemma LowBound(x: nat, k: nat)
    ensures Low(x, k) < Pow2(k)
  {
  }

  lemma ShrBound(x: nat, a: nat, b: nat)
    requires a <= b && x < Pow2(b)
    ensures Shr(x, a) < Pow2(b - a)
  {
    hide *;
    Split(x, a);
    Pow2Add(b - a, a);
    if Shr(x, a) >= Pow2(b - a) { MulMono(Pow2(b - a), Shr(x, a), Pow2(a)); }
  }

  lemma ShrAtLeast(x: nat, e: nat, k: nat)
    requires e * Pow2(k) <= x
    ensures e <= Shr(x, k)
  {
    hide *;
    Split(x, k);
    LowBound(x, k);
    if Shr(x, k) < e {
      MulMono(Shr(x, k) + 1, e, Pow2(k));
      DistributeRight(Shr(x, k), 1, Pow2(k));
    }
  }

  lemma ShrBelow(x: nat, e: nat, k: nat)
    requires x < e * Pow2(k)
    ensures Shr(x, k) < e
  {
    hide *;
    Split(x, k);
    if e <= Shr(x, k) { MulMono(e, Shr(x, k), Pow2(k)); }
  }

  lemma Cancel(a: int, b: int, k: nat)
    requires a * Pow2(k) <= b * Pow2(k)
    ensures a <= b
  {
    if b < a {
      MulMono(b + 1, a, Pow2(k));
      DistributeRight(b, 1, Pow2(k));
    }
  }

  lemma LowAtMost(x: nat, k: nat)
    ensures Low(x, k) <= x
  {
    Split(x, k);
    assert Shr(x, k) * Pow2(k) >= 0;
  }

  /** Bitwise or. */
  function Or(x: nat, y: nat): nat {
    if x == 0 && y == 0 then 0
    else (if x % 2 == 1 || y % 2 == 1 then 1 else 0) + 2 * Or(x / 2, y / 2)
  }

  lemma {:induction false} OrZero(y: nat)
    ensures Or(0, y) == y
  {
    if y > 0 { OrZero(y / 2); }
  }

  lemma HalveField(x: nat, y: nat, k: nat)
    requires k >= 1 && x < Pow2(k)
    ensures x / 2 < Pow2(k - 1) && y * Pow2(k) == 2 * (y * Pow2(k - 1))
  {
  }

  /** Or-ing a field in above bit k adds it. */
  lemma {:induction false} OrField(x: nat, y: nat, k: nat)
    requires x < Pow2(k)
    ensures Or(x, y * Pow2(k)) == x + y * Pow2(k)
    decreases k
  {
    hide *;
    if k == 0 {
      NoneBelow(x, y);
      OrZero(y);
    } else if x != 0 || y * Pow2(k) != 0 {
      HalveField(x, y, k);
      OrField(x / 2, y, k - 1);
      OrStep(x, y * Pow2(k), y * Pow2(k - 1));
    } else {
      OrZero(0);
    }
  }

  lemma NoneBelow(x: nat, y: nat)
    requires x < Pow2(0)
    ensures x == 0 && y * Pow2(0) == y
  {
  }

  lemma OrStep(x: nat, y: nat, h: nat)
    requires y == 2 * h && (x != 0 || y != 0)
    ensures Or(x, y) == x % 2 + 2 * Or(x / 2, h)
  {
    assert y / 2 == h && y % 2 == 0;
  }

  /** Bitwise exclusive or. */
  function Xor(x: nat, y: nat): nat {
    if x == 0 && y == 0 then 0
    else (if x % 2 != y % 2 then 1 else 0) + 2 * Xor(x / 2, y / 2)
  }
}
