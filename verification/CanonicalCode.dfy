/** Canonical prefix codes from a vector of code sizes, stored bit-reversed. */
module CanonicalCode {
  // Section 3.2.2 of RFC 1951. A size of 0 marks an unused symbol; coder and decoder store the codes in the same way.

  import opened Arith
  import opened Bits

  /** How many of the first n symbols have size l. */
  function CountOf(sizes: seq<nat>, l: nat, n: nat): (c: nat)
    requires n <= |sizes|
    ensures c <= n
  {
    if n == 0 then 0 else CountOf(sizes, l, n - 1) + if sizes[n - 1] == l then 1 else 0
  }

  /** The first code of size l. */
  function FirstCode(sizes: seq<nat>, l: nat): nat {
    if l <= 1 then 0 else 2 * (FirstCode(sizes, l - 1) + CountOf(sizes, l - 1, |sizes|))
  }

  /** The code of symbol i, most significant bit first: codes of one size are given out in symbol order. */
  function Code(sizes: seq<nat>, i: nat): nat
    requires i < |sizes|
  {
    FirstCode(sizes, sizes[i]) + CountOf(sizes, sizes[i], i)
  }

  /** The first code after those of size l. */
  function EndCode(sizes: seq<nat>, l: nat): nat {
    FirstCode(sizes, l) + CountOf(sizes, l, |sizes|)
  }

  /** Kraft's sum over the symbols of sizes 1..k, in units of 2^-m. */
  function Units(sizes: seq<nat>, k: nat, m: nat): nat
    requires k <= m
  {
    if k == 0 then 0 else Units(sizes, k - 1, m) + CountOf(sizes, k, |sizes|) * Pow2(m - k)
  }

  /** No size is above m and the code is not over-subscribed. */
  ghost predicate Codable(sizes: seq<nat>, m: nat) {
    (forall i :: 0 <= i < |sizes| ==> sizes[i] <= m) && Units(sizes, m, m) <= Pow2(m)
  }

  ghost predicate Complete(sizes: seq<nat>, m: nat) {
    (forall i :: 0 <= i < |sizes| ==> sizes[i] <= m) && Units(sizes, m, m) == Pow2(m)
  }

  /** The low n bits of c in reverse order. */
  function Rev(c: nat, n: nat): (r: nat)
    ensures r < Pow2(n)
  {
    if n == 0 then 0 else (c % 2) * Pow2(n - 1) + Rev(c / 2, n - 1)
  }

  /** What is stored for symbol i. */
  function RevCode(sizes: seq<nat>, i: nat): (r: nat)
    requires i < |sizes|
    ensures r < Pow2(sizes[i])
  {
    Rev(Code(sizes, i), sizes[i])
  }

  // ----- counting

  lemma {:induction false} CountMono(sizes: seq<nat>, l: nat, a: nat, b: nat)
    requires a <= b <= |sizes|
    ensures CountOf(sizes, l, a) <= CountOf(sizes, l, b)
    ensures a < b && sizes[a] == l ==> CountOf(sizes, l, a) < CountOf(sizes, l, b)
    decreases b
  {
    if a < b {
      CountMono(sizes, l, a, b - 1);
    }
  }

  /** The k-th symbol of size l. */
  lemma {:induction false} FindRank(sizes: seq<nat>, l: nat, k: nat, n: nat) returns (i: nat)
    requires n <= |sizes| && k < CountOf(sizes, l, n)
    ensures i < n && sizes[i] == l && CountOf(sizes, l, i) == k
    decreases n
  {
    if k < CountOf(sizes, l, n - 1) {
      i := FindRank(sizes, l, k, n - 1);
    } else {
      i := n - 1;
    }
  }

  // ----- codes of different sizes lie in consecutive ranges

  /** The codes up to size l fill the code space from 0 on without gaps. */
  lemma {:induction false} EndIsUnits(sizes: seq<nat>, l: nat, m: nat)
    requires 1 <= l <= m
    ensures EndCode(sizes, l) * Pow2(m - l) == Units(sizes, l, m)
    decreases l
  {
    if l == 1 {
      assert Units(sizes, 1, m) == Units(sizes, 0, m) + CountOf(sizes, 1, |sizes|) * Pow2(m - 1);
    } else {
      EndIsUnits(sizes, l - 1, m);
      UnitsStep(sizes, l, m);
      hide *;
      EndStep(EndCode(sizes, l - 1), CountOf(sizes, l, |sizes|), m - l);
    }
  }

  lemma UnitsStep(sizes: seq<nat>, l: nat, m: nat)
    requires 2 <= l <= m
    ensures Units(sizes, l, m) == Units(sizes, l - 1, m) + CountOf(sizes, l, |sizes|) * Pow2(m - l)
    ensures EndCode(sizes, l) == 2 * EndCode(sizes, l - 1) + CountOf(sizes, l, |sizes|)
  {
  }

  lemma EndStep(e: nat, c: nat, k: nat)
    ensures (2 * e + c) * Pow2(k) == e * Pow2(k + 1) + c * Pow2(k)
  {
    DistributeRight(2 * e, c, Pow2(k));
    MulAssoc(e, 2, Pow2(k));
  }

  lemma {:induction false} UnitsMono(sizes: seq<nat>, k: nat, n: nat, m: nat)
    requires k <= n <= m
    ensures Units(sizes, k, m) <= Units(sizes, n, m)
    decreases n
  {
    if k < n {
      UnitsMono(sizes, k, n - 1, m);
      assert 0 <= CountOf(sizes, n, |sizes|) * Pow2(m - n);
    }
  }

  lemma CodeFits(sizes: seq<nat>, i: nat, m: nat)
    requires Codable(sizes, m) && i < |sizes| && sizes[i] >= 1
    ensures FirstCode(sizes, sizes[i]) <= Code(sizes, i) < EndCode(sizes, sizes[i]) <= Pow2(sizes[i])
  {
    var l := sizes[i];
    CountMono(sizes, l, i, |sizes|);
    EndIsUnits(sizes, l, m);
    UnitsMono(sizes, l, m, m);
    Pow2Add(l, m - l);
    Cancel(EndCode(sizes, l), Pow2(l), m - l);
  }

  /** Codes of a greater size begin after every shorter code, padded with zeros. */
  lemma {:induction false} RangesApart(sizes: seq<nat>, a: nat, b: nat)
    requires 1 <= a < b
    ensures EndCode(sizes, a) * Pow2(b - a) <= FirstCode(sizes, b)
    decreases b
  {
    if a + 1 == b {
      assert Pow2(1) == 2;
    } else {
      RangesApart(sizes, a, b - 1);
      assert Pow2(b - a) == 2 * Pow2(b - 1 - a);
      MulAssoc(EndCode(sizes, a), 2, Pow2(b - 1 - a));
      MulAssoc(2, EndCode(sizes, a), Pow2(b - 1 - a));
    }
  }

  /** No code is the beginning of another one. */
  lemma CodesArePrefixFree(sizes: seq<nat>, i: nat, j: nat, m: nat)
    requires Codable(sizes, m) && i < |sizes| && j < |sizes| && i != j && 1 <= sizes[i] <= sizes[j]
    ensures Shr(Code(sizes, j), sizes[j] - sizes[i]) != Code(sizes, i)
  {
    var a, b := sizes[i], sizes[j];
    CodeFits(sizes, i, m);
    CodeFits(sizes, j, m);
    if a < b {
      RangesApart(sizes, a, b);
      ShrAtLeast(Code(sizes, j), EndCode(sizes, a), b - a);
    } else {
      Unique(Code(sizes, j), 0, Code(sizes, j), 0);
      if i < j { CountMono(sizes, a, i, j); } else { CountMono(sizes, a, j, i); }
    }
  }

  // ----- bit reversal

  lemma ShrHalf(c: nat, k: nat)
    ensures Shr(c / 2, k) == Shr(c, k + 1)
  {
    assert Pow2(1) == 2;
    ShrShr(c, 1, k);
  }

  /** The low bits of a reversed code are the reversal of its high bits. */
  lemma {:induction false} RevPrefix(c: nat, n: nat, a: nat)
    requires a <= n
    ensures Low(Rev(c, n), a) == Rev(Shr(c, n - a), a)
    decreases n
  {
    if a == n {
      Small(Rev(c, n), n);
      Unique(c, 0, c, 0);
    } else {
      RevPrefix(c / 2, n - 1, a);
      ShrHalf(c, n - 1 - a);
      Field(c % 2, Rev(c / 2, n - 1), a, n - 1);
    }
  }

  lemma {:induction false} RevInjective(c: nat, d: nat, n: nat)
    requires c < Pow2(n) && d < Pow2(n) && Rev(c, n) == Rev(d, n)
    ensures c == d
  {
    if n > 0 {
      assert c % 2 == d % 2;
      RevInjective(c / 2, d / 2, n - 1);
    }
  }

  /** The bits x, read from the lowest, begin with the code of symbol i. */
  predicate Begins(sizes: seq<nat>, i: nat, x: nat)
    requires i < |sizes|
  {
    Low(x, sizes[i]) == RevCode(sizes, i)
  }

  /** As stored, no code is the beginning of another one. */
  lemma StoredCodesArePrefixFree(sizes: seq<nat>, i: nat, j: nat, m: nat)
    requires Codable(sizes, m) && i < |sizes| && j < |sizes| && i != j && 1 <= sizes[i] <= sizes[j]
    ensures Low(RevCode(sizes, j), sizes[i]) != RevCode(sizes, i)
  {
    var a, b, c := sizes[i], sizes[j], Code(sizes, j);
    assert RevCode(sizes, i) == Rev(Code(sizes, i), a) && RevCode(sizes, j) == Rev(c, b);
    hide *;
    CodeFits(sizes, i, m);
    CodeFits(sizes, j, m);
    CodesArePrefixFree(sizes, i, j, m);
    RevPrefix(c, b, a);
    ShrBound(c, b - a, b);
    if Low(Rev(c, b), a) == Rev(Code(sizes, i), a) {
      RevInjective(Shr(c, b - a), Code(sizes, i), a);
    }
  }

  /** At most one code begins the bits x. */
  lemma CodeIsUnique(sizes: seq<nat>, i: nat, j: nat, x: nat, m: nat)
    requires Codable(sizes, m) && i < |sizes| && j < |sizes| && sizes[i] >= 1 && sizes[j] >= 1
    requires Begins(sizes, i, x) && Begins(sizes, j, x)
    ensures i == j
  {
    if i != j {
      if sizes[i] <= sizes[j] {
        LowLow(x, sizes[i], sizes[j]);
        StoredCodesArePrefixFree(sizes, i, j, m);
      } else {
        LowLow(x, sizes[j], sizes[i]);
        StoredCodesArePrefixFree(sizes, j, i, m);
      }
    }
  }

  // ----- a complete code covers every bit string

  lemma {:induction false} FindSize(sizes: seq<nat>, v: nat, k: nat, m: nat) returns (l: nat)
    requires k <= m && v < Units(sizes, k, m)
    ensures 1 <= l <= k && Units(sizes, l - 1, m) <= v < Units(sizes, l, m)
  {
    if v < Units(sizes, k - 1, m) {
      l := FindSize(sizes, v, k - 1, m);
    } else {
      l := k;
    }
  }

  /** Some code begins the m-bit word v, read from the highest bit. */
  lemma CompleteCodeCovers(sizes: seq<nat>, v: nat, m: nat) returns (i: nat)
    requires Complete(sizes, m) && v < Pow2(m)
    ensures i < |sizes| && 1 <= sizes[i] <= m && Shr(v, m - sizes[i]) == Code(sizes, i)
  {
    var l := FindSize(sizes, v, m, m);
    var f, e, k := FirstCode(sizes, l), EndCode(sizes, l), m - l;
    EndIsUnits(sizes, l, m);
    if l == 1 {
      assert f == 0;
    } else {
      EndIsUnits(sizes, l - 1, m);
      EndStep(EndCode(sizes, l - 1), 0, k);
    }
    assert f * Pow2(k) <= v < e * Pow2(k);
    ShrAtLeast(v, f, k);
    ShrBelow(v, e, k);
    i := FindRank(sizes, l, Shr(v, k) - f, |sizes|);
  }

  /** With a complete code some stored code begins the bits x. */
  lemma SomeCodeBegins(sizes: seq<nat>, x: nat, m: nat) returns (i: nat)
    requires Complete(sizes, m)
    ensures i < |sizes| && sizes[i] >= 1 && Begins(sizes, i, x)
  {
    var y := Low(x, m);
    var v := Rev(y, m);
    i := CompleteCodeCovers(sizes, v, m);
    RevRev(y, m);
    RevPrefix(v, m, sizes[i]);
    LowLow(x, sizes[i], m);
  }

  lemma HalfOf(x: nat, c: nat)
    ensures (2 * x + c) / 2 == x + c / 2 && (2 * x + c) % 2 == c % 2
  {
  }

  lemma Twice(x: nat, p: nat)
    ensures x * (2 * p) == 2 * (x * p)
  {
  }

  lemma RevStep(c: nat, n: nat)
    requires n > 0
    ensures Rev(c, n) == (c % 2) * Pow2(n - 1) + Rev(c / 2, n - 1)
  {
  }

  lemma {:induction false} RevSnoc(c: nat, b: nat, n: nat)
    requires c < Pow2(n) && b < 2
    ensures Rev(b * Pow2(n) + c, n + 1) == 2 * Rev(c, n) + b
  {
    if n == 0 {
      RevStep(b * 1 + 0, 1);
      assert Rev(b, 1) == (b % 2) * 1;
    } else {
      RevSnoc(c / 2, b, n - 1);
      RevSnocStep(c, b, n, b * Pow2(n - 1), Pow2(n - 1));
    }
  }

  lemma RevSnocStep(c: nat, b: nat, n: nat, x: nat, p: nat)
    requires n > 0 && p == Pow2(n - 1) && x == b * p
    requires Rev(x + c / 2, n) == 2 * Rev(c / 2, n - 1) + b
    ensures Rev(b * Pow2(n) + c, n + 1) == 2 * Rev(c, n) + b
  {
    assert Pow2(n) == 2 * p;
    hide *;
    Twice(b, p);
    var y := 2 * x + c;
    assert b * Pow2(n) + c == y;
    HalfOf(x, c);
    RevStep(y, n + 1);
    RevStep(c, n);
    Twice(c % 2, p);
  }

  lemma {:induction false} RevRev(c: nat, n: nat)
    requires c < Pow2(n)
    ensures Rev(Rev(c, n), n) == c
  {
    if n > 0 {
      RevRev(c / 2, n - 1);
      RevSnoc(Rev(c / 2, n - 1), c % 2, n - 1);
    }
  }

  // ----- computing codes

  lemma FirstCodeStep(sizes: seq<nat>, l: nat)
    requires l >= 2
    ensures FirstCode(sizes, l) == 2 * (FirstCode(sizes, l - 1) + CountOf(sizes, l - 1, |sizes|))
  {
  }

  /** The first codes of the lengths before i. */
  ghost predicate FirstCodesTo(next: seq<nat>, sizes: seq<nat>, i: nat) {
    i <= |next| && forall l :: 1 <= l < i ==> next[l] == FirstCode(sizes, l)
  }

  lemma NextFirstCode(next: seq<nat>, sizes: seq<nat>, i: nat, j: nat, c: nat)
    requires FirstCodesTo(next, sizes, i) && 2 <= i < |next| && j == FirstCode(sizes, i - 1)
             && c == CountOf(sizes, i - 1, |sizes|)
    ensures (j + c) * 2 == FirstCode(sizes, i) && FirstCodesTo(next[i := (j + c) * 2], sizes, i + 1)
  {
    FirstCodeStep(sizes, i);
    hide FirstCode, CountOf;
  }

  lemma NoFirstCodes(next: seq<nat>, sizes: seq<nat>)
    requires |next| >= 2 && next[1] == 0
    ensures FirstCodesTo(next, sizes, 2) && FirstCode(sizes, 1) == 0
  {
  }

  /** The bits of a code in reverse order. */
  method ReverseBits(code: nat, codeSize: nat) returns (revCode: nat)
    requires code < Pow2(codeSize)
    ensures revCode == Rev(code, codeSize) < Pow2(codeSize)
  {
    revCode := 0;
    var c := code;
    var l := codeSize;
    while l > 0
      invariant 0 <= l <= codeSize
      invariant Rev(code, codeSize) == revCode * Pow2(l) + Rev(c, l)
    {
      ShiftIn(revCode, c, l);
      revCode := revCode * 2 + c % 2;
      c := c / 2;
      l := l - 1;
    }
  }

  lemma ShiftIn(r: nat, c: nat, l: nat)
    requires l > 0
    ensures r * Pow2(l) + Rev(c, l) == (2 * r + c % 2) * Pow2(l - 1) + Rev(c / 2, l - 1)
  {
    RevStep(c, l);
    Twice(r, Pow2(l - 1));
    DistributeRight(2 * r, c % 2, Pow2(l - 1));
    MulAssoc(2, r, Pow2(l - 1));
  }

  lemma CodeFits16(sizes: seq<nat>, i: nat, limit: nat)
    requires Codable(sizes, limit) && limit <= 15 && i < |sizes| && sizes[i] >= 1
    ensures 1 <= sizes[i] <= limit && Code(sizes, i) < Pow2(sizes[i]) < 0x1_0000
    ensures Code(sizes, i) == FirstCode(sizes, sizes[i]) + CountOf(sizes, sizes[i], i)
  {
    CodeFits(sizes, i, limit);
    Pow2Mono(sizes[i], 15);
    Pow2Values();
  }

  lemma RevCodeIs(sizes: seq<nat>, i: nat)
    requires i < |sizes|
    ensures RevCode(sizes, i) == Rev(Code(sizes, i), sizes[i])
  {
  }

  lemma CountStep(sizes: seq<nat>, i: nat)
    requires i < |sizes|
    ensures forall l :: CountOf(sizes, l, i + 1) == CountOf(sizes, l, i) + if l == sizes[i] then 1 else 0
  {
  }

  /** next[l] is the code that the next symbol of size l gets after the first i symbols. */
  ghost predicate NextCodes(next: seq<nat>, s: seq<nat>, i: nat, limit: nat)
    requires i <= |s|
  {
    forall l :: 1 <= l <= limit && l < |next| ==> next[l] == FirstCode(s, l) + CountOf(s, l, i)
  }
}
