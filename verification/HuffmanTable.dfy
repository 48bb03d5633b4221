/**
  Building one Huffman table of the compressor: sort the used symbols by count, compute
  minimum-redundancy lengths, limit them, hand the lengths out, and assign canonical codes.
 */
module HuffmanTable {
  import opened Arith
  import opened Bits
  import opened Huffman
  import opened MinRedundancy
  import Radix = RadixSort
  import opened CanonicalCode
  import Limit = LengthLimit

  // ----- the histogram of the lengths

  lemma KraftSnoc(l: seq<nat>, i: nat, m: nat)
    requires Bounded(l, m) && i < |l|
    ensures Bounded(l[..i], m) && Bounded(l[..i + 1], m)
    ensures Kraft(l[..i + 1], m) == Kraft(l[..i], m) + Pow2(m - l[i])
  {
    assert l[..i + 1] == l[..i] + [l[i]];
    KraftAppend(l[..i], [l[i]], m);
    assert Kraft([l[i]], m) == Pow2(m - l[i]);
  }

  /** c counts the lengths l. */
  ghost predicate Counts(c: seq<int>, l: seq<nat>) {
    |c| == 33 && Limit.NonNegative(c) && forall x :: 0 <= x <= 32 ==> c[x] == CountOf(l, x, |l|)
  }

  /** c counts the first i of the lengths k. */
  ghost predicate Counting(c: seq<int>, k: seq<nat>, i: nat) {
    && |c| == 33 && i <= |k| && Limit.NonNegative(c) && Limit.Total(c, 32) == i
    && Bounded(k[..i], 32) && Limit.Units(c, 32, 32) == Kraft(k[..i], 32)
    && forall x :: 0 <= x <= 32 ==> c[x] == CountOf(k, x, i)
  }

  lemma NothingCounted(c: seq<int>, k: seq<nat>)
    requires |c| == 33 && forall x :: 0 <= x < 33 ==> c[x] == 0
    ensures Counting(c, k, 0)
  {
    Limit.NoUnits(c, 32, 32);
  }

  lemma CountingStep(c: seq<int>, k: seq<nat>, i: nat)
    requires Counting(c, k, i) && i < |k| && Bounded(k, 32) && k[i] >= 1
    ensures Counting(c[k[i] := c[k[i]] + 1], k, i + 1)
  {
    hide Kraft;
    Limit.UnitsUpdate(c, 32, 32, k[i], c[k[i]] + 1);
    KraftSnoc(k, i, 32);
    hide Limit.Units, Limit.Total;
  }

  lemma AllCounted(c: seq<int>, k: seq<nat>)
    requires Counting(c, k, |k|)
    ensures Counts(c, k) && Limit.Total(c, 32) == |k| && Bounded(k, 32) && Limit.Units(c, 32, 32) == Kraft(k, 32)
  {
    hide Limit.Total, Limit.Units, Kraft;
    assert k[..|k|] == k;
  }

  /** Counts how often each length occurs. */
  method CountLengths(A: array<SymFreq>, n: nat, ghost k: seq<nat>) returns (numCodes: array<int>)
    requires n <= A.Length && k == Keys(A[..n]) && Bounded(k, 32) && forall i :: 0 <= i < n ==> k[i] >= 1
    ensures fresh(numCodes) && numCodes.Length == 33 && Counts(numCodes[..], k)
    ensures Limit.Total(numCodes[..], 32) == n && Limit.Units(numCodes[..], 32, 32) == Kraft(k, 32)
  {
    assert forall i :: 0 <= i < n ==> A[i].key == k[i] <= 32;
    hide *;
    numCodes := new int[33](_ => 0);
    NothingCounted(numCodes[..], k);
    for i := 0 to n
      invariant Counting(numCodes[..], k, i)
    {
      ghost var c := numCodes[..];
      CountingStep(c, k, i);
      var l := A[i].key;
      numCodes[l] := numCodes[l] + 1;
      assert numCodes[..] == c[k[i] := c[k[i]] + 1];
    }
    AllCounted(numCodes[..], k);
  }

  // ----- handing the lengths out

  ghost predicate Distinct(A: seq<SymFreq>, m: nat) {
    && (forall k :: 0 <= k < |A| ==> A[k].sym < m)
    && forall j, k :: 0 <= j < k < |A| ==> A[j].sym != A[k].sym
  }

  lemma {:induction false} CountUpdate(s: seq<nat>, i: nat, x: nat, l: nat, n: nat)
    requires i < |s| && n <= |s| && s[i] == 0 && x >= 1 && l >= 1
    ensures CountOf(s[i := x], l, n) == CountOf(s, l, n) + if i < n && l == x then 1 else 0
  {
    if n > 0 { CountUpdate(s, i, x, l, n - 1); }
  }

  lemma {:induction false} CountZeros(s: seq<nat>, l: nat, n: nat)
    requires n <= |s| && l >= 1 && forall i :: 0 <= i < n ==> s[i] == 0
    ensures CountOf(s, l, n) == 0
  {
    if n > 0 { CountZeros(s, l, n - 1); }
  }

  /** The length of the k-th lightest of n symbols when the shortest codes go to the heaviest symbols
      and c[l] symbols get length l; at most i. */
  ghost function LengthAt(c: seq<int>, n: nat, k: nat, i: nat): (l: nat)
    requires |c| == 33 && 1 <= i <= 33
    ensures 1 <= l <= i
  {
    if i == 1 then 1
    else if k < n - Limit.Total(c, i - 1) then i
    else LengthAt(c, n, k, i - 1)
  }

  /** The lengths below i, and t codes of length i, have been handed out from the end of A down to j. */
  ghost predicate HandedOut(A: seq<SymFreq>, s: seq<nat>, c: seq<int>, i: nat, t: int, j: nat)
    requires |c| == 33 && 1 <= i <= 33
  {
    && Distinct(A, |s|) && t >= 0 && j == |A| - Limit.Total(c, i - 1) - t && j <= |A|
    && (forall k :: 0 <= k < j ==> s[A[k].sym] == 0)
    && (forall k :: j <= k < |A| ==> s[A[k].sym] == LengthAt(c, |A|, k, i))
    && (forall x :: 0 <= x < |s| && Unlisted(A, x) ==> s[x] == 0)
    && (forall l :: 1 <= l <= 32 ==> CountOf(s, l, |s|) == if l < i then c[l] else if l == i then t else 0)
  }

  ghost predicate Unlisted(A: seq<SymFreq>, x: nat) {
    forall k :: 0 <= k < |A| ==> A[k].sym != x
  }

  lemma NothingHandedOut(A: seq<SymFreq>, s: seq<nat>, c: seq<int>)
    requires |c| == 33 && Distinct(A, |s|) && forall x :: 0 <= x < |s| ==> s[x] == 0
    ensures HandedOut(A, s, c, 1, 0, |A|)
  {
    forall l | 1 <= l <= 32 ensures CountOf(s, l, |s|) == 0 { CountZeros(s, l, |s|); }
  }

  lemma HandOutOne(A: seq<SymFreq>, s: seq<nat>, c: seq<int>, i: nat, t: int, j: nat)
    requires |c| == 33 && 1 <= i <= 32 && HandedOut(A, s, c, i, t, j) && j > 0
    ensures A[j - 1].sym < |s| && HandedOut(A, s[A[j - 1].sym := i], c, i, t + 1, j - 1)
  {
    var x := A[j - 1].sym;
    var r := s[x := i];
    forall k | j <= k < |A| ensures r[A[k].sym] == LengthAt(c, |A|, k, i) {
      assert A[j - 1].sym != A[k].sym;
    }
    forall k | 0 <= k < j - 1 ensures r[A[k].sym] == 0 {
      assert A[k].sym != A[j - 1].sym;
    }
    forall l | 1 <= l <= 32 ensures CountOf(r, l, |r|) == if l < i then c[l] else if l == i then t + 1 else 0 {
      CountUpdate(s, x, i, l, |s|);
    }
    assert LengthAt(c, |A|, j - 1, i) == i;
  }

  lemma NextLength(A: seq<SymFreq>, s: seq<nat>, c: seq<int>, i: nat, j: nat)
    requires |c| == 33 && 1 <= i <= 32 && HandedOut(A, s, c, i, c[i], j)
    ensures HandedOut(A, s, c, i + 1, 0, j)
  {
    assert Limit.Total(c, i) == Limit.Total(c, i - 1) + c[i];
  }

  /** Gives length i to the next numCodes[i] symbols. */
  method HandOutLength(A: array<SymFreq>, ghost n: nat, count: int, i: nat, j: nat, sizes: array<nat>,
                       ghost c: seq<int>)
    returns (j': nat)
    requires n <= A.Length && |c| == 33 && 1 <= i <= 32 && count == c[i] >= 0 && Limit.Total(c, i) <= n
    requires j <= n && HandedOut(A[..n], sizes[..], c, i, 0, j)
    modifies sizes
    ensures j' <= n && HandedOut(A[..n], sizes[..], c, i + 1, 0, j')
  {
    j' := j;
    var l := count;
    assert Limit.Total(c, i) == Limit.Total(c, i - 1) + c[i];
    while l > 0
      invariant 0 <= l <= count && j' <= n && HandedOut(A[..n], sizes[..], c, i, count - l, j')
    {
      assert j' > 0;
      hide HandedOut, Limit.Total;
      HandOutOne(A[..n], sizes[..], c, i, count - l, j');
      ghost var s := sizes[..];
      j' := j' - 1;
      sizes[A[j'].sym] := i;
      assert sizes[..] == s[A[j'].sym := i];
      l := l - 1;
    }
    NextLength(A[..n], sizes[..], c, i, j');
  }

  /** Gives the shortest lengths to the heaviest symbols. */
  method HandOutLengths(A: array<SymFreq>, n: nat, numCodes: array<int>, limit: nat, sizes: array<nat>)
    requires n <= A.Length && numCodes.Length == 33 && 1 <= limit <= 32
    requires Distinct(A[..n], sizes.Length) && Limit.NonNegative(numCodes[..]) && Limit.Total(numCodes[..], limit) == n
    requires forall x :: 0 <= x < sizes.Length ==> sizes[x] == 0
    modifies sizes
    ensures HandedOut(A[..n], sizes[..], numCodes[..], limit + 1, 0, 0)
  {
    ghost var c := numCodes[..];
    var j: nat := n;
    NothingHandedOut(A[..n], sizes[..], c);
    for i: nat := 1 to limit + 1
      invariant j <= n && HandedOut(A[..n], sizes[..], c, i, 0, j)
    {
      Limit.TotalMono(c, i, limit);
      hide HandedOut, Limit.Total;
      j := HandOutLength(A, n, numCodes[i], i, j, sizes, c);
    }
  }

  /** The lengths of a non-increasing sequence are determined by its histogram. */
  lemma {:induction false} CountUpTo(k: seq<nat>, c: seq<int>, l: nat, lo: nat, hi: nat)
    requires |c| == 33 && l <= 32 && lo <= hi <= |k| && (forall i :: 0 <= i < |k| ==> 1 <= k[i])
    requires forall x :: 1 <= x <= 32 ==> c[x] == CountOf(k, x, |k|)
    requires (forall i :: 0 <= i < lo ==> k[i] > l) && (forall i :: hi <= i < |k| ==> k[i] <= l)
    ensures |k| - hi <= Limit.Total(c, l) <= |k| - lo
  {
    CountRange(k, c, l, |k|);
    CountBelow(k, l, lo, hi, |k|);
  }

  /** How many of the first n entries are at most l. */
  ghost function Below(k: seq<nat>, l: nat, n: nat): nat
    requires n <= |k|
  {
    if n == 0 then 0 else Below(k, l, n - 1) + if 1 <= k[n - 1] <= l then 1 else 0
  }

  lemma {:induction false} CountBelow(k: seq<nat>, l: nat, lo: nat, hi: nat, n: nat)
    requires lo <= hi <= |k| && n <= |k| && (forall i :: 0 <= i < |k| ==> 1 <= k[i])
    requires (forall i :: 0 <= i < lo ==> k[i] > l) && (forall i :: hi <= i < |k| ==> k[i] <= l)
    ensures n - hi <= Below(k, l, n) && (n >= lo ==> Below(k, l, n) <= n - lo) && (n <= lo ==> Below(k, l, n) == 0)
  {
    if n > 0 { CountBelow(k, l, lo, hi, n - 1); }
  }

  lemma {:induction false} CountRange(k: seq<nat>, c: seq<int>, l: nat, n: nat)
    requires |c| == 33 && l <= 32 && n == |k|
    requires forall x :: 1 <= x <= 32 ==> c[x] == CountOf(k, x, |k|)
    ensures Limit.Total(c, l) == Below(k, l, n)
  {
    if l == 0 {
      BelowZero(k, n);
    } else {
      CountRange(k, c, l - 1, n);
      BelowStep(k, l, n);
    }
  }

  lemma {:induction false} BelowZero(k: seq<nat>, n: nat)
    requires n <= |k|
    ensures Below(k, 0, n) == 0
  {
    if n > 0 { BelowZero(k, n - 1); }
  }

  lemma {:induction false} BelowStep(k: seq<nat>, l: nat, n: nat)
    requires l >= 1 && n <= |k|
    ensures Below(k, l, n) == Below(k, l - 1, n) + CountOf(k, l, n)
  {
    if n > 0 { BelowStep(k, l, n - 1); }
  }

  lemma {:induction false} LengthAtIsKey(k: seq<nat>, c: seq<int>, j: nat, i: nat)
    requires |c| == 33 && 1 <= i <= 33 && j < |k| && 1 <= k[j] <= i && (forall x :: 0 <= x < |k| ==> 1 <= k[x])
    requires forall x, y :: 0 <= x < y < |k| ==> k[y] <= k[x]
    requires forall x :: 1 <= x <= 32 ==> c[x] == CountOf(k, x, |k|)
    ensures LengthAt(c, |k|, j, i) == k[j]
  {
    if i > 1 {
      if k[j] == i {
        CountUpTo(k, c, i - 1, j + 1, |k|);
      } else {
        CountUpTo(k, c, i - 1, 0, j);
        LengthAtIsKey(k, c, j, i - 1);
      }
    }
  }

  // ----- the codes

  /** The first code of every length, as the running value of RFC 1951, section 3.2.2, step 2. */
  method FirstCodes(numCodes: array<int>, limit: nat, ghost sizes: seq<nat>) returns (nextCode: array<nat>)
    requires numCodes.Length == 33 && 1 <= limit <= 32
    requires forall l :: 1 <= l < limit ==> numCodes[l] == CountOf(sizes, l, |sizes|)
    ensures fresh(nextCode) && nextCode.Length == 33 && FirstCodesTo(nextCode[..], sizes, limit + 1)
  {
    hide *;
    nextCode := new nat[33](_ => 0);
    var j: nat := 0;
    NoFirstCodes(nextCode[..], sizes);
    for i := 2 to limit + 1
      invariant j == FirstCode(sizes, i - 1) && FirstCodesTo(nextCode[..], sizes, i)
    {
      ghost var next := nextCode[..];
      var c: nat := numCodes[i - 1];
      NextFirstCode(next, sizes, i, j, c);
      j := (j + c) * 2;
      nextCode[i] := j;
      assert nextCode[..] == next[i := j];
    }
  }

  /** The symbols below i have their codes; the others have what they had in c0. */
  ghost predicate Coded(c: seq<nat>, c0: seq<nat>, s: seq<nat>, i: nat) {
    |c| == |c0| == |s| && forall x :: 0 <= x < |s| ==> c[x] == if s[x] == 0 || x >= i then c0[x] else RevCode(s, x)
  }

  /** Gives symbol i, if it is used, the next code of its size, stored bit-reversed. */
  method AssignCode(codes: array<nat>, nextCode: array<nat>, i: nat, codeSize: nat, ghost s: seq<nat>,
                    ghost c0: seq<nat>, ghost limit: nat)
    requires codes != nextCode && nextCode.Length == 33 && limit <= 15 && Codable(s, limit)
    requires i < |s| && codeSize == s[i]
    requires NextCodes(nextCode[..], s, i, limit) && Coded(codes[..], c0, s, i)
    modifies codes, nextCode
    ensures NextCodes(nextCode[..], s, i + 1, limit) && Coded(codes[..], c0, s, i + 1)
  {
    hide Codable, FirstCode, Code, CountOf, RevCode, Rev;
    CountStep(s, i);
    if codeSize != 0 {
      CodeFits16(s, i, limit);
      var code := nextCode[codeSize];
      nextCode[codeSize] := nextCode[codeSize] + 1;
      var revCode := ReverseBits(code, codeSize);
      RevCodeIs(s, i);
      codes[i] := U16(revCode);
    }
  }

  /** Every used symbol gets the next code of its size. */
  method AssignCodes(sizes: array<nat>, codes: array<nat>, numCodes: array<int>, limit: nat)
    requires sizes != codes && sizes.Length == codes.Length && numCodes.Length == 33 && 1 <= limit <= 15
    requires forall l :: 1 <= l < limit ==> numCodes[l] == CountOf(sizes[..], l, sizes.Length)
    requires Codable(sizes[..], limit)
    modifies codes
    ensures forall i :: 0 <= i < codes.Length ==>
                          codes[i] == if sizes[i] == 0 then old(codes[i]) else RevCode(sizes[..], i)
  {
    ghost var s, c0 := sizes[..], codes[..];
    var nextCode := FirstCodes(numCodes, limit, s);
    assert NextCodes(nextCode[..], s, 0, limit) && Coded(codes[..], c0, s, 0);
    for i := 0 to sizes.Length
      invariant NextCodes(nextCode[..], s, i, limit) && Coded(codes[..], c0, s, i)
    {
      hide *;
      AssignCode(codes, nextCode, i, sizes[i], s, c0, limit);
    }
  }

  // ----- the used symbols

  /** A lists exactly the symbols whose count is not zero, each with its count. */
  ghost predicate Lists(A: seq<SymFreq>, count: seq<nat>, n: nat)
    requires n <= |count|
  {
    && Distinct(A, n)
    && (forall k :: 0 <= k < |A| ==> A[k].key == count[A[k].sym] > 0)
    && (forall x :: 0 <= x < n && count[x] > 0 ==> exists k :: 0 <= k < |A| && A[k].sym == x)
  }

  lemma KeysSnoc(A: seq<SymFreq>, x: SymFreq)
    ensures Keys(A + [x]) == Keys(A) + [x.key] && Sum(Keys(A + [x])) == Sum(Keys(A)) + x.key
  {
    assert Keys(A + [x]) == Keys(A) + [x.key];
    SumAppend(Keys(A), [x.key]);
    assert Sum([x.key]) == x.key;
  }

  lemma ListsSnoc(A: seq<SymFreq>, count: seq<nat>, i: nat)
    requires i < |count| && Lists(A, count, i)
    ensures count[i] == 0 ==> Lists(A, count, i + 1)
    ensures count[i] != 0 ==> Lists(A + [SymFreq(count[i], i)], count, i + 1)
  {
    if count[i] != 0 {
      var B := A + [SymFreq(count[i], i)];
      forall x | 0 <= x < i + 1 && count[x] > 0 ensures exists k :: 0 <= k < |B| && B[k].sym == x {
        if x == i {
          assert B[|A|].sym == x;
        } else {
          var k :| 0 <= k < |A| && A[k].sym == x;
          assert B[k].sym == x;
        }
      }
    }
  }

  lemma {:induction false} SumSnoc(s: seq<int>, i: nat)
    requires i < |s|
    ensures Sum(s[..i + 1]) == Sum(s[..i]) + s[i]
  {
    assert s[..i + 1] == s[..i] + [s[i]];
    SumAppend(s[..i], [s[i]]);
    assert Sum([s[i]]) == s[i];
  }

  /** Collects the used symbols in symbol order. */
  method CollectUsed(symCount: array<nat>) returns (syms0: array<SymFreq>, numUsedSyms: nat)
    requires symCount.Length <= MAX_HUFF_SYMBOLS && forall i :: 0 <= i < symCount.Length ==> symCount[i] < 0x1_0000
    ensures fresh(syms0) && syms0.Length == MAX_HUFF_SYMBOLS && numUsedSyms <= symCount.Length
    ensures Lists(syms0[..numUsedSyms], symCount[..], symCount.Length)
    ensures Sum(Keys(syms0[..numUsedSyms])) == Sum(symCount[..])
  {
    ghost var count := symCount[..];
    assert forall i :: 0 <= i < symCount.Length ==> symCount[i] == count[i];
    syms0 := new SymFreq[MAX_HUFF_SYMBOLS](_ => SymFreq(0, 0));
    numUsedSyms := 0;
    NothingListed(count);
    for i := 0 to symCount.Length
      invariant numUsedSyms <= i
      invariant Collected(syms0[..numUsedSyms], count, i)
    {
      hide *;
      numUsedSyms := CollectOne(syms0, numUsedSyms, symCount[i], i, count);
    }
    AllCollected(syms0[..numUsedSyms], count);
  }

  method CollectOne(syms0: array<SymFreq>, numUsedSyms: nat, symCount: nat, i: nat, ghost count: seq<nat>)
    returns (numUsedSyms': nat)
    requires numUsedSyms <= i < |count| && numUsedSyms < syms0.Length && symCount == count[i] < 0x1_0000
    requires Collected(syms0[..numUsedSyms], count, i)
    modifies syms0
    ensures numUsedSyms' <= i + 1 && numUsedSyms' <= syms0.Length && Collected(syms0[..numUsedSyms'], count, i + 1)
  {
    hide *;
    ghost var A := syms0[..numUsedSyms];
    numUsedSyms' := numUsedSyms;
    CollectStep(A, count, i);
    if symCount != 0 {
      FitsU16(symCount);
      syms0[numUsedSyms'] := SymFreq(U16(symCount), i);
      numUsedSyms' := numUsedSyms' + 1;
      assert syms0[..numUsedSyms'] == A + [SymFreq(count[i], i)];
    }
  }

  lemma AllCollected(A: seq<SymFreq>, count: seq<nat>)
    requires Collected(A, count, |count|)
    ensures Lists(A, count, |count|) && Sum(Keys(A)) == Sum(count)
  {
    hide Lists, Sum, Keys;
    assert count[..|count|] == count;
  }

  /** The used ones among the first i symbols, and their counts. */
  ghost predicate Collected(A: seq<SymFreq>, count: seq<nat>, i: nat)
    requires i <= |count|
  {
    Lists(A, count, i) && Sum(Keys(A)) == Sum(count[..i])
  }

  lemma NothingListed(count: seq<nat>)
    ensures Collected([], count, 0)
  {
  }

  lemma FitsU16(x: nat)
    requires x < 0x1_0000
    ensures U16(x) == x
  {
  }

  lemma CollectStep(A: seq<SymFreq>, count: seq<nat>, i: nat)
    requires i < |count| && Collected(A, count, i) && count[i] < 0x1_0000
    ensures count[i] == 0 ==> Collected(A, count, i + 1)
    ensures count[i] != 0 ==> Collected(A + [SymFreq(count[i], i)], count, i + 1)
  {
    ListsSnoc(A, count, i);
    SumSnoc(count, i);
    KeysSnoc(A, SymFreq(count[i], i));
    hide Lists, Sum, Keys;
  }

  // ----- sorting does not change what is listed

  lemma {:induction false} CountKey(A: seq<SymFreq>, k: nat)
    ensures multiset(Keys(A))[k] == |Radix.WithKey(A, k)|
  {
    if A == [] {
      assert Keys(A) == [];
    } else {
      CountKey(A[1..], k);
      assert Keys(A) == [A[0].key] + Keys(A[1..]);
    }
  }

  lemma SameKeys(A: seq<SymFreq>, B: seq<SymFreq>)
    requires Radix.Stable(A, B)
    ensures multiset(Keys(A)) == multiset(Keys(B))
  {
    forall k: nat ensures multiset(Keys(A))[k] == multiset(Keys(B))[k] {
      CountKey(A, k);
      CountKey(B, k);
    }
  }

  lemma SumInsert(t: seq<nat>, k: nat, x: nat)
    requires k <= |t|
    ensures Sum(Insert(t, k, x)) == Sum(t) + x
  {
    var a, b := t[..k], t[k..];
    assert Sum([x]) == x;
    assert t == a + b;
    hide Sum;
    SumAppend(a, b);
    SumAppend(a + [x], b);
    SumAppend(a, [x]);
  }

  lemma {:induction false} SumOfSort(s: seq<nat>)
    ensures Sum(Sort(s)) == Sum(s)
  {
    if s != [] {
      SumOfSort(s[1..]);
      var t := Sort(s[1..]);
      SumInsert(t, Rank(t, s[0]), s[0]);
    }
  }

  lemma SameSum(s: seq<nat>, t: seq<nat>)
    requires multiset(s) == multiset(t)
    ensures Sum(s) == Sum(t)
  {
    SortedIsUnique(Sort(s), Sort(t));
    SumOfSort(s);
    SumOfSort(t);
  }

  lemma {:induction false} OnceOnly(A: seq<SymFreq>, m: nat, x: SymFreq)
    requires Distinct(A, m)
    ensures multiset(A)[x] <= 1
  {
    if A != [] {
      assert A == [A[0]] + A[1..];
      assert Distinct(A[1..], m);
      OnceOnly(A[1..], m, x);
      if x in A[1..] {
        var k :| 0 <= k < |A[1..]| && A[1..][k] == x;
        assert A[k + 1].sym != A[0].sym;
      }
    }
  }

  lemma TwiceThere(B: seq<SymFreq>, j: nat, k: nat)
    requires j < k < |B| && B[j] == B[k]
    ensures multiset(B)[B[j]] >= 2
  {
    assert B == B[..k] + B[k..];
    assert B[j] in B[..k];
    assert B[k] in B[k..];
    assert B[..k][j] == B[j] && B[k..][0] == B[k];
  }

  lemma ListsPermuted(A: seq<SymFreq>, B: seq<SymFreq>, count: seq<nat>)
    requires Lists(A, count, |count|) && multiset(A) == multiset(B)
    ensures Lists(B, count, |count|)
  {
    forall k | 0 <= k < |B| ensures B[k] in A { assert B[k] in multiset(B); }
    forall k | 0 <= k < |A| ensures A[k] in B { assert A[k] in multiset(A); }
    forall j, k | 0 <= j < k < |B| ensures B[j].sym != B[k].sym {
      if B[j].sym == B[k].sym {
        assert B[j] == B[k];
        TwiceThere(B, j, k);
        OnceOnly(A, |count|, B[j]);
      }
    }
    forall x | 0 <= x < |count| && count[x] > 0 ensures exists k :: 0 <= k < |B| && B[k].sym == x {
      var i :| 0 <= i < |A| && A[i].sym == x;
      var k :| 0 <= k < |B| && B[k] == A[i];
    }
  }

  // ----- the table

  /** Kraft's sum is 1 in every unit once it is 1 in one. */
  lemma CompleteAt32(l: seq<nat>)
    requires |l| >= 2 && Bounded(l, |l|) && Kraft(l, |l|) == Pow2(|l|) && Bounded(l, 32)
    ensures Kraft(l, 32) == Pow2(32)
  {
    hide *;
    var n, t := |l|, |l| + 32;
    KraftRescale(l, n, t);
    KraftRescale(l, 32, t);
    Pow2Add(32, n);
    Pow2Add(n, 32);
    var k := Kraft(l, 32);
    Cancel(k, Pow2(32), n);
    Cancel(Pow2(32), k, n);
  }

  /** The used symbols, lightest first, with their counts. */
  method SortUsed(symCount: array<nat>) returns (pSyms: array<SymFreq>, numUsedSyms: nat)
    requires symCount.Length <= MAX_HUFF_SYMBOLS && Sum(symCount[..]) < 0x1_0000
    ensures fresh(pSyms) && numUsedSyms <= pSyms.Length && numUsedSyms <= symCount.Length
    ensures Lists(pSyms[..numUsedSyms], symCount[..], symCount.Length)
    ensures Ascending(Keys(pSyms[..numUsedSyms])) && Sum(Keys(pSyms[..numUsedSyms])) < 0x1_0000
  {
    ghost var count := symCount[..];
    CountsFit(count);
    assert forall i :: 0 <= i < symCount.Length ==> symCount[i] == count[i];
    hide *;
    var syms0;
    syms0, numUsedSyms := CollectUsed(symCount);
    ghost var A := syms0[..numUsedSyms];
    KeysFit(A, count);
    assert forall i :: 0 <= i < numUsedSyms ==> syms0[i] == A[i];
    pSyms := SortListed(syms0, numUsedSyms, A, count);
    assert symCount[..] == count;
  }

  lemma CountsFit(count: seq<nat>)
    requires Sum(count) < 0x1_0000
    ensures forall i :: 0 <= i < |count| ==> count[i] < 0x1_0000
  {
    SumNonNegative(count);
  }

  method SortListed(syms0: array<SymFreq>, n: nat, ghost A: seq<SymFreq>, ghost count: seq<nat>)
    returns (pSyms: array<SymFreq>)
    requires n <= syms0.Length == MAX_HUFF_SYMBOLS && A == syms0[..n] && Lists(A, count, |count|)
    requires forall i :: 0 <= i < n ==> syms0[i].key < 0x1_0000
    modifies syms0
    ensures (pSyms == syms0 || fresh(pSyms)) && n <= pSyms.Length
    ensures Lists(pSyms[..n], count, |count|) && Ascending(Keys(pSyms[..n])) && Sum(Keys(pSyms[..n])) == Sum(Keys(A))
  {
    hide *;
    var syms1 := new SymFreq[MAX_HUFF_SYMBOLS](_ => SymFreq(0, 0));
    pSyms := Radix.RadixSortSyms(n, syms0, syms1);
    Reordered(A, pSyms[..n], count);
  }

  lemma Reordered(A: seq<SymFreq>, B: seq<SymFreq>, count: seq<nat>)
    requires Lists(A, count, |count|) && Radix.Stable(B, A) && multiset(B) == multiset(A) && Radix.AscendingKeys(B)
    ensures Lists(B, count, |count|) && Ascending(Keys(B)) && Sum(Keys(B)) == Sum(Keys(A))
  {
    hide *;
    ListsPermuted(A, B, count);
    SameKeys(B, A);
    SameSum(Keys(B), Keys(A));
    AscendingKeysOf(B);
  }

  lemma KeysFit(A: seq<SymFreq>, count: seq<nat>)
    requires Lists(A, count, |count|) && forall i :: 0 <= i < |count| ==> count[i] < 0x1_0000
    ensures forall k :: 0 <= k < |A| ==> A[k].key < 0x1_0000
  {
  }

  lemma AscendingKeysOf(A: seq<SymFreq>)
    requires Radix.AscendingKeys(A)
    ensures Ascending(Keys(A))
  {
  }

  /** What the lengths of n listed symbols must be, given the minimum-redundancy lengths l. */
  ghost predicate Histogram(c: seq<int>, l: seq<nat>, limit: nat) {
    && |c| == 33 && 1 <= limit <= 15 && Limit.NonNegative(c) && Limit.Total(c, limit) == |l|
    && (|l| >= 2 ==> Limit.Units(c, limit, limit) == Pow2(limit))
    && (|l| <= 1 ==> Limit.Units(c, limit, limit) <= Pow2(limit))
    && ((forall i :: 0 <= i < |l| ==> l[i] <= limit) ==> forall x :: 1 <= x <= 32 ==> c[x] == CountOf(l, x, |l|))
  }

  /** The histogram e comes from limiting that of the lengths l. */
  ghost predicate Source(e: seq<int>, l: seq<nat>, limit: nat) {
    |l| >= 2 && limit >= 2 ==> exists c, i: nat :: Counts(c, l) && Limit.LimitedFrom(c, e, limit, i)
  }

  lemma FewCodes(c: seq<int>, l: seq<nat>, limit: nat)
    requires Counts(c, l) && 1 <= limit <= 15 && |l| <= 1 && (|l| == 1 ==> l[0] == 1)
    ensures Histogram(c, l, limit)
  {
    forall x | 2 <= x <= 32 ensures c[x] == 0 { assert CountOf(l, x, |l|) == 0; }
    assert c[1] == |l|;
    Limit.ZeroTail(c, 1, limit);
    OneUnit(c, limit, limit);
    assert Pow2(limit - 1) <= Pow2(limit);
  }

  lemma {:induction false} OneUnit(c: seq<int>, k: nat, m: nat)
    requires |c| == 33 && 1 <= k <= m <= 32 && forall x :: 2 <= x <= 32 ==> c[x] == 0
    ensures Limit.Units(c, k, m) == c[1] * Pow2(m - 1)
  {
    if k > 1 { OneUnit(c, k - 1, m); }
  }

  /** Minimum-redundancy lengths of the listed symbols, limited. */
  method LimitedLengths(pSyms: array<SymFreq>, n: nat, limit: nat) returns (numCodes: array<int>, ghost l: seq<nat>)
    requires n <= pSyms.Length && n <= MAX_HUFF_SYMBOLS && 1 <= limit <= 15 && n <= Pow2(limit)
    requires Ascending(Keys(pSyms[..n])) && Sum(Keys(pSyms[..n])) < 0x1_0000
    requires forall k :: 0 <= k < n ==> pSyms[k].key >= 1
    modifies pSyms
    ensures fresh(numCodes) && numCodes.Length == 33 && |l| == n
    ensures MinimumRedundancy(old(Keys(pSyms[..n])), l) && (n >= 2 ==> WeightBounded(old(Keys(pSyms[..n])), l))
    ensures Histogram(numCodes[..], l, limit) && Source(numCodes[..], l, limit)
    ensures forall k :: 0 <= k < n ==> pSyms[k].sym == old(pSyms[k].sym)
  {
    ghost var w := Keys(pSyms[..n]);
    assert forall k :: 0 <= k < n ==> w[k] >= 1;
    hide *;
    CalculateMinimumRedundancy(pSyms, n);
    l := Keys(pSyms[..n]);
    LengthsFit(w, l);
    numCodes := LimitedHistogramOf(pSyms, n, limit, w, l);
  }

  /** The histogram of the lengths in pSyms, limited. */
  method LimitedHistogramOf(pSyms: array<SymFreq>, n: nat, limit: nat, ghost w: seq<nat>, ghost l: seq<nat>)
    returns (numCodes: array<int>)
    requires n <= pSyms.Length && 1 <= limit <= 15 && n <= Pow2(limit) && l == Keys(pSyms[..n]) && |w| == n
    requires Bounded(l, 32) && (forall k :: 0 <= k < n ==> l[k] >= 1) && MinimumRedundancy(w, l)
    ensures fresh(numCodes) && numCodes.Length == 33 && Histogram(numCodes[..], l, limit)
            && Source(numCodes[..], l, limit)
  {
    hide *;
    numCodes := CountLengths(pSyms, n, l);
    LimitHistogram(numCodes, n, limit, w, l);
  }

  method LimitHistogram(numCodes: array<int>, n: nat, limit: nat, ghost w: seq<nat>, ghost l: seq<nat>)
    requires numCodes.Length == 33 && 1 <= limit <= 15 && n <= Pow2(limit) && |w| == |l| == n && MinimumRedundancy(w, l)
    requires Counts(numCodes[..], l) && Bounded(l, 32)
    requires Limit.Total(numCodes[..], 32) == n && Limit.Units(numCodes[..], 32, 32) == Kraft(l, 32)
    modifies numCodes
    ensures Histogram(numCodes[..], l, limit) && Source(numCodes[..], l, limit)
  {
    ghost var c := numCodes[..];
    assert Limit.NonNegative(c);
    hide *;
    if n >= 2 {
      AtLeastTwo(w, l);
      CompleteAt32(l);
    }
    Limit.EnforceMaxCodeSize(numCodes, n, limit);
    if n <= 1 {
      JustOne(w, l);
      FewCodes(c, l, limit);
      NoSource(numCodes[..], l, limit);
    } else {
      LimitedHistogram(c, numCodes[..], l, limit);
      IsSource(c, numCodes[..], l, limit);
    }
  }

  lemma NoSource(e: seq<int>, l: seq<nat>, limit: nat)
    requires |l| <= 1
    ensures Source(e, l, limit)
  {
  }

  lemma IsSource(c: seq<int>, e: seq<int>, l: seq<nat>, limit: nat)
    requires Counts(c, l)
    requires limit >= 2 ==> exists i: nat :: Limit.LimitedFrom(c, e, limit, i)
    ensures Source(e, l, limit)
  {
    if limit >= 2 {
      var i: nat :| Limit.LimitedFrom(c, e, limit, i);
      assert Counts(c, l);
    }
  }

  lemma LengthsFit(w: seq<nat>, l: seq<nat>)
    requires MinimumRedundancy(w, l) && FibonacciBounded(w, l) && Sum(w) < 0x1_0000
    requires forall k :: 0 <= k < |w| ==> w[k] >= 1
    ensures |l| == |w| && Bounded(l, 32) && forall i :: 0 <= i < |l| ==> l[i] >= 1
  {
    if |w| >= 2 { AtMost22Bits(w, l); }
  }

  lemma AtLeastTwo(w: seq<nat>, l: seq<nat>)
    requires MinimumRedundancy(w, l) && |w| >= 2
    ensures |l| == |w| && Bounded(l, |l|) && Kraft(l, |l|) == Pow2(|l|)
  {
  }

  lemma JustOne(w: seq<nat>, l: seq<nat>)
    requires MinimumRedundancy(w, l) && |w| <= 1
    ensures |l| == |w| && (|l| == 1 ==> l[0] == 1)
  {
  }

  lemma LimitedHistogram(c: seq<int>, d: seq<int>, l: seq<nat>, limit: nat)
    requires Counts(c, l) && |d| == 33 && 1 <= limit <= 15 && |l| >= 2 && Limit.NonNegative(d)
    requires Limit.Units(d, limit, limit) == Pow2(limit) && Limit.Total(d, limit) == |l|
    requires (forall i :: limit < i <= 32 ==> c[i] == 0) ==> d == c
    ensures Histogram(d, l, limit)
  {
    if forall i :: 0 <= i < |l| ==> l[i] <= limit {
      forall x | limit < x <= 32 ensures c[x] == 0 { NoneThatLong(l, x, |l|); }
    }
  }

  lemma {:induction false} NoneThatLong(l: seq<nat>, x: nat, n: nat)
    requires n <= |l| && forall i :: 0 <= i < |l| ==> l[i] < x
    ensures CountOf(l, x, n) == 0
  {
    if n > 0 { NoneThatLong(l, x, n - 1); }
  }

  /** What one table is for the counts: used symbols have codes of at most `limit` bits, canonical and
      stored bit-reversed; two or more of them fill the code space exactly. */
  ghost predicate Table(count: seq<nat>, sizes: seq<nat>, codes: seq<nat>, limit: nat) {
    && |sizes| == |codes| == |count| && Codable(sizes, limit)
    && (forall x :: 0 <= x < |count| ==> (sizes[x] == 0 <==> count[x] == 0))
    && (forall x :: 0 <= x < |count| ==> codes[x] == if sizes[x] == 0 then 0 else RevCode(sizes, x))
  }

  /** A lists the used symbols lightest first, l their minimum-redundancy lengths. */
  ghost predicate BestLengths(count: seq<nat>, A: seq<SymFreq>, l: seq<nat>) {
    && Lists(A, count, |count|) && Ascending(Keys(A)) && MinimumRedundancy(Keys(A), l)
  }

  /** The sizes are the minimum-redundancy lengths whenever those keep to the limit. */
  ghost predicate Best(sizes: seq<nat>, A: seq<SymFreq>, l: seq<nat>, limit: nat)
    requires |l| == |A| && Distinct(A, |sizes|)
  {
    && (|A| >= 2 ==> Complete(sizes, limit))
    && ((forall k :: 0 <= k < |l| ==> l[k] <= limit) ==> forall k :: 0 <= k < |A| ==> sizes[A[k].sym] == l[k])
    && (forall j, k :: 0 <= j < k < |A| ==> sizes[A[k].sym] <= sizes[A[j].sym])
  }

  lemma {:induction false} SameUnits(sizes: seq<nat>, c: seq<int>, k: nat, m: nat)
    requires |c| == 33 && k <= m <= 32 && forall l :: 1 <= l <= k ==> c[l] == CountOf(sizes, l, |sizes|)
    ensures CanonicalCode.Units(sizes, k, m) == Limit.Units(c, k, m)
  {
    if k > 0 { SameUnits(sizes, c, k - 1, m); }
  }

  lemma {:induction false} LengthAtLimit(c: seq<int>, n: nat, k: nat, limit: nat)
    requires |c| == 33 && 1 <= limit <= 32 && Limit.Total(c, limit) == n && k < n
    ensures LengthAt(c, n, k, limit + 1) <= limit
    ensures LengthAt(c, n, k, limit + 1) == LengthAt(c, n, k, limit)
  {
  }

  lemma {:induction false} LengthAtMono(c: seq<int>, n: nat, j: nat, k: nat, i: nat)
    requires |c| == 33 && 1 <= i <= 33 && j <= k
    ensures LengthAt(c, n, k, i) <= LengthAt(c, n, j, i)
  {
    if i > 1 { LengthAtMono(c, n, j, k, i - 1); }
  }

  lemma HandedOutIsCodable(A: seq<SymFreq>, s: seq<nat>, c: seq<int>, l: seq<nat>, limit: nat)
    requires |A| == |l| && Histogram(c, l, limit) && HandedOut(A, s, c, limit + 1, 0, 0)
    ensures Codable(s, limit) && (|A| >= 2 ==> Complete(s, limit))
    ensures forall k :: 0 <= k < |A| ==> s[A[k].sym] >= 1
  {
    forall x | 0 <= x < |s| ensures s[x] <= limit {
      if !Unlisted(A, x) {
        var k :| 0 <= k < |A| && A[k].sym == x;
        LengthAtLimit(c, |A|, k, limit);
      }
    }
    SameUnits(s, c, limit, limit);
  }

  lemma HandedOutIsBest(A: seq<SymFreq>, s: seq<nat>, c: seq<int>, w: seq<nat>, l: seq<nat>, limit: nat)
    requires |A| == |l| && Histogram(c, l, limit) && HandedOut(A, s, c, limit + 1, 0, 0) && MinimumRedundancy(w, l)
    ensures Best(s, A, l, limit)
  {
    HandedOutIsCodable(A, s, c, l, limit);
    forall j, k | 0 <= j < k < |A| ensures s[A[k].sym] <= s[A[j].sym] {
      LengthAtMono(c, |A|, j, k, limit + 1);
    }
    if forall k :: 0 <= k < |l| ==> l[k] <= limit {
      forall k | 0 <= k < |A| ensures s[A[k].sym] == l[k] {
        LengthAtIsKey(l, c, k, limit + 1);
      }
    }
  }

  lemma TableOf(count: seq<nat>, A: seq<SymFreq>, s: seq<nat>, c: seq<int>, l: seq<nat>, codes: seq<nat>, limit: nat)
    requires |A| == |l| && Histogram(c, l, limit) && HandedOut(A, s, c, limit + 1, 0, 0) && Lists(A, count, |count|)
    requires |s| == |count| == |codes|
    requires forall x :: 0 <= x < |s| ==> codes[x] == if s[x] == 0 then 0 else RevCode(s, x)
    ensures Table(count, s, codes, limit)
  {
    HandedOutIsCodable(A, s, c, l, limit);
    forall x | 0 <= x < |count| ensures s[x] == 0 <==> count[x] == 0 {
      if count[x] > 0 {
        var k :| 0 <= k < |A| && A[k].sym == x;
        assert s[A[k].sym] >= 1;
      } else {
        assert Unlisted(A, x);
      }
    }
  }

  /** Computes the code sizes of a table. */
  method OptimizeSizes(symCount: array<nat>, sizes: array<nat>, limit: nat, ghost count: seq<nat>)
    returns (numCodes: array<int>, ghost A: seq<SymFreq>, ghost l: seq<nat>)
    requires count == symCount[..] && symCount.Length == sizes.Length <= MAX_HUFF_SYMBOLS && sizes != symCount
    requires 1 <= limit <= 15 && symCount.Length <= Pow2(limit) && Sum(symCount[..]) < 0x1_0000
    modifies sizes
    ensures fresh(numCodes) && BestLengths(count, A, l) && |l| == |A|
    ensures (|A| >= 2 ==> WeightBounded(Keys(A), l)) && Source(numCodes[..], l, limit)
    ensures Histogram(numCodes[..], l, limit) && HandedOut(A, sizes[..], numCodes[..], limit + 1, 0, 0)
  {
    hide *;
    var pSyms, n := SortUsed(symCount);
    A := pSyms[..n];
    ListedKeys(A, count);
    numCodes, l := SizesOf(pSyms, n, limit, sizes, A);
    BestLengthsOf(count, A, l);
  }

  method SizesOf(pSyms: array<SymFreq>, n: nat, limit: nat, sizes: array<nat>, ghost A: seq<SymFreq>)
    returns (numCodes: array<int>, ghost l: seq<nat>)
    requires n <= pSyms.Length && n <= MAX_HUFF_SYMBOLS && 1 <= limit <= 15 && n <= Pow2(limit)
    requires A == pSyms[..n] && Ascending(Keys(A)) && Sum(Keys(A)) < 0x1_0000
    requires Distinct(A, sizes.Length) && forall k :: 0 <= k < n ==> A[k].key >= 1
    modifies pSyms, sizes
    ensures fresh(numCodes) && |l| == n && MinimumRedundancy(Keys(A), l)
    ensures (n >= 2 ==> WeightBounded(Keys(A), l)) && Source(numCodes[..], l, limit)
    ensures Histogram(numCodes[..], l, limit) && HandedOut(A, sizes[..], numCodes[..], limit + 1, 0, 0)
  {
    hide *;
    assert forall k :: 0 <= k < n ==> A[k] == pSyms[k];
    numCodes, l := LimitedLengths(pSyms, n, limit);
    ghost var c := numCodes[..];
    HandOut(pSyms, n, numCodes, limit, sizes, A, l);
    assert numCodes[..] == c;
  }

  lemma ListedKeys(A: seq<SymFreq>, count: seq<nat>)
    requires Lists(A, count, |count|)
    ensures Distinct(A, |count|) && forall k :: 0 <= k < |A| ==> A[k].key >= 1
  {
  }

  method HandOut(pSyms: array<SymFreq>, n: nat, numCodes: array<int>, limit: nat, sizes: array<nat>,
                 ghost A: seq<SymFreq>, ghost l: seq<nat>)
    requires n <= pSyms.Length && |A| == n == |l| && Histogram(numCodes[..], l, limit) && Distinct(A, sizes.Length)
    requires forall k :: 0 <= k < n ==> A[k].sym == pSyms[k].sym
    modifies sizes
    ensures HandedOut(A, sizes[..], numCodes[..], limit + 1, 0, 0)
  {
    ghost var c, B := numCodes[..], pSyms[..n];
    HistogramFacts(c, l, limit);
    SameDistinct(A, B, sizes.Length);
    hide *;
    Clear(sizes);
    HandOutLengths(pSyms, n, numCodes, limit, sizes);
    SameHandedOut(B, A, sizes[..], c, limit + 1);
  }

  /** tdefl_optimize_huffman_table for a dynamic block. */
  method OptimizeHuffmanTable(symCount: array<nat>, sizes: array<nat>, codes: array<nat>, limit: nat,
                              ghost count: seq<nat>)
    returns (ghost A: seq<SymFreq>, ghost l: seq<nat>)
    requires count == symCount[..] && symCount.Length == sizes.Length == codes.Length <= MAX_HUFF_SYMBOLS
    requires sizes != codes && sizes != symCount && codes != symCount
    requires 1 <= limit <= 15 && symCount.Length <= Pow2(limit) && Sum(symCount[..]) < 0x1_0000
    modifies sizes, codes
    ensures Table(count, sizes[..], codes[..], limit)
    ensures BestLengths(count, A, l) && |l| == |A| && Distinct(A, sizes.Length) && Best(sizes[..], A, l, limit)
    ensures Limited(A, sizes[..], l, limit) && (|A| >= 2 ==> WeightBounded(Keys(A), l))
  {
    hide *;
    var numCodes;
    numCodes, A, l := OptimizeSizes(symCount, sizes, limit, count);
    ghost var c, s := numCodes[..], sizes[..];
    SizesFacts(count, A, s, c, l, limit);
    EncodeTable(sizes, codes, numCodes, limit, s, c);
    TableOf(count, A, s, c, l, codes[..], limit);
    IsLimited(A, s, c, l, limit);
  }

  /** The sizes are handed out by a histogram that comes from limiting the minimum-redundancy lengths l. */
  ghost predicate Limited(A: seq<SymFreq>, sizes: seq<nat>, l: seq<nat>, limit: nat) {
    |A| >= 2 && limit >= 2 ==>
      exists e :: Source(e, l, limit) && Histogram(e, l, limit) && HandsOut(A, sizes, e, limit)
  }

  ghost predicate HandsOut(A: seq<SymFreq>, sizes: seq<nat>, e: seq<int>, limit: nat) {
    |e| == 33 && limit <= 32 && Distinct(A, |sizes|)
        && forall k :: 0 <= k < |A| ==> sizes[A[k].sym] == LengthAt(e, |A|, k, limit + 1)
  }

  lemma IsLimited(A: seq<SymFreq>, s: seq<nat>, c: seq<int>, l: seq<nat>, limit: nat)
    requires |A| == |l| && Histogram(c, l, limit) && HandedOut(A, s, c, limit + 1, 0, 0) && Source(c, l, limit)
    ensures Limited(A, s, l, limit)
  {
    hide Source, Histogram, LengthAt;
    assert HandsOut(A, s, c, limit) by { HistogramFacts(c, l, limit); LimitAtMost(c, l, limit); }
  }

  lemma LimitAtMost(c: seq<int>, l: seq<nat>, limit: nat)
    requires Histogram(c, l, limit)
    ensures 1 <= limit <= 15
  {
  }

  lemma SizesFacts(count: seq<nat>, A: seq<SymFreq>, s: seq<nat>, c: seq<int>, l: seq<nat>, limit: nat)
    requires |A| == |l| && Histogram(c, l, limit) && HandedOut(A, s, c, limit + 1, 0, 0) && BestLengths(count, A, l)
    requires |s| == |count|
    ensures |c| == 33 && Lists(A, count, |count|) && Distinct(A, |count|)
    ensures Codable(s, limit) && Best(s, A, l, limit)
    ensures forall x :: 1 <= x < limit + 1 ==> c[x] == CountOf(s, x, |s|)
  {
    HistogramFacts(c, l, limit);
    hide *;
    BestLengthsAre(count, A, l);
    HandedOutIsCodable(A, s, c, l, limit);
    HandedOutIsBest(A, s, c, Keys(A), l, limit);
    HandedOutCounts(A, s, c, limit + 1);
  }

  method EncodeTable(sizes: array<nat>, codes: array<nat>, numCodes: array<int>, limit: nat, ghost s: seq<nat>,
                     ghost c: seq<int>)
    requires sizes != codes && sizes.Length == codes.Length && numCodes.Length == 33 && 1 <= limit <= 15
    requires s == sizes[..] && c == numCodes[..] && Codable(s, limit)
    requires forall l :: 1 <= l < limit + 1 ==> c[l] == CountOf(s, l, |s|)
    modifies codes
    ensures sizes[..] == s && codes.Length == |s|
    ensures forall x :: 0 <= x < |s| ==> codes[x] == if s[x] == 0 then 0 else RevCode(s, x)
  {
    hide *;
    Clear(codes);
    AssignCodes(sizes, codes, numCodes, limit);
  }

  lemma BestLengthsAre(count: seq<nat>, A: seq<SymFreq>, l: seq<nat>)
    requires BestLengths(count, A, l)
    ensures Lists(A, count, |count|) && Distinct(A, |count|) && MinimumRedundancy(Keys(A), l)
  {
  }

  lemma BestLengthsOf(count: seq<nat>, A: seq<SymFreq>, l: seq<nat>)
    requires Lists(A, count, |count|) && Ascending(Keys(A)) && MinimumRedundancy(Keys(A), l)
    ensures BestLengths(count, A, l)
  {
  }

  lemma HistogramFacts(c: seq<int>, l: seq<nat>, limit: nat)
    requires Histogram(c, l, limit)
    ensures |c| == 33 && Limit.NonNegative(c) && Limit.Total(c, limit) == |l|
  {
  }

  lemma SameDistinct(A: seq<SymFreq>, B: seq<SymFreq>, m: nat)
    requires Distinct(A, m) && |A| == |B| && forall k :: 0 <= k < |A| ==> A[k].sym == B[k].sym
    ensures Distinct(B, m)
  {
  }

  lemma SameHandedOut(A: seq<SymFreq>, B: seq<SymFreq>, s: seq<nat>, c: seq<int>, i: nat)
    requires |c| == 33 && 1 <= i <= 33 && HandedOut(A, s, c, i, 0, 0)
    requires |A| == |B| && forall k :: 0 <= k < |A| ==> A[k].sym == B[k].sym
    ensures HandedOut(B, s, c, i, 0, 0)
  {
    SameDistinct(A, B, |s|);
    forall x | 0 <= x < |s| && Unlisted(B, x) ensures s[x] == 0 {
      assert Unlisted(A, x);
    }
  }

  lemma HandedOutCounts(A: seq<SymFreq>, s: seq<nat>, c: seq<int>, i: nat)
    requires |c| == 33 && 1 <= i <= 33 && HandedOut(A, s, c, i, 0, 0)
    ensures forall l :: 1 <= l < i ==> c[l] == CountOf(s, l, |s|)
  {
  }

  method Clear(a: array<nat>)
    modifies a
    ensures forall x :: 0 <= x < a.Length ==> a[x] == 0
  {
    for i := 0 to a.Length
      invariant forall x :: 0 <= x < i ==> a[x] == 0
    {
      a[i] := 0;
    }
  }

  /** The same for a static block, whose sizes are given: only the codes are computed. */
  method StaticHuffmanTable(sizes: array<nat>, codes: array<nat>, limit: nat)
    requires sizes != codes && sizes.Length == codes.Length && 1 <= limit <= 15 && Codable(sizes[..], limit)
    modifies codes
    ensures forall x :: 0 <= x < codes.Length ==>
                          codes[x] == if sizes[x] == 0 then old(codes[x]) else RevCode(sizes[..], x)
  {
    ghost var s := sizes[..];
    assert forall x :: 0 <= x < sizes.Length ==> sizes[x] <= limit by {
      assert forall x :: 0 <= x < |s| ==> sizes[x] == s[x];
    }
    var numCodes := new int[33](_ => 0);
    for i := 0 to sizes.Length
      invariant forall l :: 0 <= l <= 32 ==> numCodes[l] == CountOf(s, l, i)
      invariant codes[..] == old(codes[..])
    {
      assert sizes[i] == s[i];
      numCodes[sizes[i]] := numCodes[sizes[i]] + 1;
    }
    AssignCodes(sizes, codes, numCodes, limit);
  }
}
