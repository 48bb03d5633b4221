/**
  The two-pass least-significant-byte radix sort that orders the used symbols by count before the
  code lengths are computed.
 */
module RadixSort {
  import opened MinRedundancy

  /** Byte 0 or byte 1 of a key. */
  function Digit(x: SymFreq, pass: nat): (d: nat)
    ensures d < 256
  {
    if pass == 0 then x.key % 256 else (x.key / 256) % 256
  }

  /** The members of s whose digit is b, in order. */
  function Bucket(s: seq<SymFreq>, pass: nat, b: nat): (r: seq<SymFreq>)
    ensures |r| <= |s|
  {
    if s == [] then []
    else if Digit(s[0], pass) == b then [s[0]] + Bucket(s[1..], pass, b)
    else Bucket(s[1..], pass, b)
  }

  /** The buckets below b, one after the other. */
  function Buckets(s: seq<SymFreq>, pass: nat, b: nat): seq<SymFreq> {
    if b == 0 then [] else Buckets(s, pass, b - 1) + Bucket(s, pass, b - 1)
  }

  /** The members of s with key k, in order. */
  function WithKey(s: seq<SymFreq>, k: nat): seq<SymFreq> {
    if s == [] then []
    else if s[0].key == k then [s[0]] + WithKey(s[1..], k)
    else WithKey(s[1..], k)
  }

  ghost predicate Stable(s: seq<SymFreq>, t: seq<SymFreq>) {
    forall k :: WithKey(s, k) == WithKey(t, k)
  }

  predicate AscendingKeys(s: seq<SymFreq>) {
    forall i, j :: 0 <= i < j < |s| ==> s[i].key <= s[j].key
  }

  // ----- buckets

  lemma {:induction false} BucketAppend(s: seq<SymFreq>, t: seq<SymFreq>, pass: nat, b: nat)
    ensures Bucket(s + t, pass, b) == Bucket(s, pass, b) + Bucket(t, pass, b)
  {
    if s == [] {
      assert s + t == t;
    } else {
      assert (s + t)[1..] == s[1..] + t;
      BucketAppend(s[1..], t, pass, b);
    }
  }

  lemma BucketSnoc(s: seq<SymFreq>, i: nat, pass: nat, b: nat)
    requires i < |s|
    ensures Bucket(s[..i + 1], pass, b)
         == if Digit(s[i], pass) == b then Bucket(s[..i], pass, b) + [s[i]] else Bucket(s[..i], pass, b)
  {
    assert s[..i + 1] == s[..i] + [s[i]];
    BucketAppend(s[..i], [s[i]], pass, b);
    assert Bucket([s[i]], pass, b) == if Digit(s[i], pass) == b then [s[i]] else [];
  }

  lemma {:induction false} BucketPrefix(s: seq<SymFreq>, i: nat, pass: nat, b: nat)
    requires i <= |s|
    ensures |Bucket(s[..i], pass, b)| <= |Bucket(s, pass, b)|
    ensures i < |s| && Digit(s[i], pass) == b ==> |Bucket(s[..i], pass, b)| < |Bucket(s, pass, b)|
  {
    assert s == s[..i] + s[i..];
    BucketAppend(s[..i], s[i..], pass, b);
  }

  lemma {:induction false} BucketsCons(x: SymFreq, t: seq<SymFreq>, pass: nat, b: nat)
    ensures |Buckets([x] + t, pass, b)| == |Buckets(t, pass, b)| + if Digit(x, pass) < b then 1 else 0
  {
    if b > 0 {
      BucketsCons(x, t, pass, b - 1);
      assert ([x] + t)[1..] == t;
    }
  }

  lemma {:induction false} BucketsLength(s: seq<SymFreq>, pass: nat)
    ensures |Buckets(s, pass, 256)| == |s|
  {
    if s == [] {
      EmptyBuckets(pass, 256);
    } else {
      hide *;
      BucketsLength(s[1..], pass);
      assert s == [s[0]] + s[1..];
      BucketsCons(s[0], s[1..], pass, 256);
    }
  }

  lemma {:induction false} EmptyBuckets(pass: nat, b: nat)
    ensures Buckets([], pass, b) == []
  {
    if b > 0 { EmptyBuckets(pass, b - 1); }
  }

  lemma {:induction false} BucketsMono(s: seq<SymFreq>, pass: nat, b: nat, c: nat)
    requires b <= c
    ensures Buckets(s, pass, b) <= Buckets(s, pass, c)
    decreases c
  {
    if b < c { BucketsMono(s, pass, b, c - 1); }
  }

  lemma {:induction false} BucketMembers(s: seq<SymFreq>, pass: nat, b: nat)
    ensures forall x :: x in Bucket(s, pass, b) ==> x in s && Digit(x, pass) == b
  {
    if s != [] { BucketMembers(s[1..], pass, b); }
  }

  // ----- order: a pass by the high byte over a sequence ordered by the low byte

  predicate AscendingLow(s: seq<SymFreq>) {
    forall i, j :: 0 <= i < j < |s| ==> s[i].key % 256 <= s[j].key % 256
  }

  lemma {:induction false} BucketKeepsOrder(s: seq<SymFreq>, pass: nat, b: nat)
    requires AscendingLow(s)
    ensures AscendingLow(Bucket(s, pass, b))
  {
    if s != [] {
      BucketKeepsOrder(s[1..], pass, b);
      BucketMembers(s[1..], pass, b);
      var r := Bucket(s[1..], pass, b);
      forall j | 0 <= j < |r| ensures s[0].key % 256 <= r[j].key % 256 {
        assert r[j] in s[1..];
      }
    }
  }

  lemma {:induction false} LowPassOrders(s: seq<SymFreq>, b: nat)
    ensures AscendingLow(Buckets(s, 0, b))
    ensures forall x :: x in Buckets(s, 0, b) ==> x in s && x.key % 256 < b
  {
    if b > 0 {
      LowPassOrders(s, b - 1);
      BucketMembers(s, 0, b - 1);
      var p, q := Buckets(s, 0, b - 1), Bucket(s, 0, b - 1);
      var r: seq<SymFreq> := p + q;
      forall i, j | 0 <= i < j < |r| ensures r[i].key % 256 <= r[j].key % 256 {
        if i < |p| { assert r[i] in p; } else { assert r[i] in q; }
        if j >= |p| { assert r[j] in q; }
      }
    }
  }

  lemma SplitKey(a: nat, b: nat)
    requires a < 0x1_0000 && b < 0x1_0000
    requires a / 256 < b / 256 || (a / 256 == b / 256 && a % 256 <= b % 256)
    ensures a <= b
  {
  }

  lemma {:induction false} HighPassOrders(s: seq<SymFreq>, b: nat)
    requires AscendingLow(s) && b <= 256 && forall x :: x in s ==> x.key < 0x1_0000
    ensures AscendingKeys(Buckets(s, 1, b))
    ensures forall x :: x in Buckets(s, 1, b) ==> x in s && x.key / 256 < b
  {
    if b > 0 {
      HighPassOrders(s, b - 1);
      BucketMembers(s, 1, b - 1);
      BucketKeepsOrder(s, 1, b - 1);
      var p, q := Buckets(s, 1, b - 1), Bucket(s, 1, b - 1);
      forall x | x in q ensures x in s && x.key / 256 == b - 1 {
        assert x.key < 0x1_0000;
      }
      var r: seq<SymFreq> := p + q;
      forall i, j | 0 <= i < j < |r| ensures r[i].key <= r[j].key {
        if i < |p| { assert r[i] in p; } else { assert r[i] in q; }
        if j >= |p| {
          assert r[j] in q;
          SplitKey(r[i].key, r[j].key);
        }
      }
    }
  }

  // ----- stability

  lemma {:induction false} WithKeyAppend(s: seq<SymFreq>, t: seq<SymFreq>, k: nat)
    ensures WithKey(s + t, k) == WithKey(s, k) + WithKey(t, k)
  {
    if s == [] {
      assert s + t == t;
    } else {
      assert (s + t)[1..] == s[1..] + t;
      WithKeyAppend(s[1..], t, k);
    }
  }

  lemma {:induction false} WithKeyOfBucket(s: seq<SymFreq>, pass: nat, b: nat, k: nat)
    ensures WithKey(Bucket(s, pass, b), k) == if Digit(SymFreq(k, 0), pass) == b then WithKey(s, k) else []
  {
    if s != [] {
      WithKeyOfBucket(s[1..], pass, b, k);
      var r := Bucket(s[1..], pass, b);
      assert ([s[0]] + r)[1..] == r;
    }
  }

  lemma {:induction false} WithKeyOfBuckets(s: seq<SymFreq>, pass: nat, b: nat, k: nat)
    ensures WithKey(Buckets(s, pass, b), k) == if Digit(SymFreq(k, 0), pass) < b then WithKey(s, k) else []
  {
    if b > 0 {
      WithKeyOfBuckets(s, pass, b - 1, k);
      WithKeyAppend(Buckets(s, pass, b - 1), Bucket(s, pass, b - 1), k);
      WithKeyOfBucket(s, pass, b - 1, k);
    }
  }

  lemma PassIsStable(s: seq<SymFreq>, pass: nat)
    ensures Stable(Buckets(s, pass, 256), s)
  {
    forall k ensures WithKey(Buckets(s, pass, 256), k) == WithKey(s, k) {
      WithKeyOfBuckets(s, pass, 256, k);
    }
  }

  lemma {:induction false} CountWithKey(s: seq<SymFreq>, x: SymFreq)
    ensures multiset(s)[x] == multiset(WithKey(s, x.key))[x]
  {
    if s != [] {
      CountWithKey(s[1..], x);
      assert s == [s[0]] + s[1..];
    }
  }

  /** A stable rearrangement is a permutation. */
  lemma StableIsPermutation(s: seq<SymFreq>, t: seq<SymFreq>)
    requires Stable(s, t)
    ensures multiset(s) == multiset(t)
  {
    forall x: SymFreq ensures multiset(s)[x] == multiset(t)[x] {
      CountWithKey(s, x);
      CountWithKey(t, x);
      assert WithKey(s, x.key) == WithKey(t, x.key);
    }
  }

  // ----- one distribution pass

  /** Where bucket b starts in the output. */
  ghost function Start(s: seq<SymFreq>, pass: nat, b: nat): nat {
    |Buckets(s, pass, b)|
  }

  lemma StartBounds(s: seq<SymFreq>, pass: nat, b: nat, i: nat)
    requires b < 256 && i <= |s|
    ensures Start(s, pass, b) + |Bucket(s[..i], pass, b)| <= Start(s, pass, b + 1) <= |s|
    ensures i < |s| && Digit(s[i], pass) == b ==>
              Start(s, pass, b) + |Bucket(s[..i], pass, b)| < Start(s, pass, b + 1)
  {
    BucketPrefix(s, i, pass, b);
    BucketsMono(s, pass, b + 1, 256);
    BucketsLength(s, pass);
  }

  lemma StartsApart(s: seq<SymFreq>, pass: nat, b: nat, c: nat)
    requires b < c
    ensures Start(s, pass, b + 1) <= Start(s, pass, c)
  {
    BucketsMono(s, pass, b + 1, c);
  }

  /** The part of bucket b that the first i members of s fill is in place. */
  ghost predicate Filled(s: seq<SymFreq>, pass: nat, i: nat, t: seq<SymFreq>, b: nat)
    requires i <= |s|
  {
    var start, part := Start(s, pass, b), Bucket(s[..i], pass, b);
    start + |part| <= |t| && t[start..start + |part|] == part
  }

  ghost predicate AllFilled(s: seq<SymFreq>, pass: nat, i: nat, t: seq<SymFreq>)
    requires i <= |s|
  {
    forall b :: 0 <= b < 256 ==> Filled(s, pass, i, t, b)
  }

  lemma {:induction false} FilledIsBuckets(s: seq<SymFreq>, pass: nat, t: seq<SymFreq>, b: nat)
    requires |t| == |s| && b <= 256 && AllFilled(s, pass, |s|, t)
    ensures Start(s, pass, b) <= |t| && t[..Start(s, pass, b)] == Buckets(s, pass, b)
  {
    BucketsLength(s, pass);
    BucketsMono(s, pass, b, 256);
    if b > 0 {
      FilledIsBuckets(s, pass, t, b - 1);
      assert Filled(s, pass, |s|, t, b - 1);
      assert s[..|s|] == s;
      var a, c := Start(s, pass, b - 1), Start(s, pass, b);
      assert t[..c] == t[..a] + t[a..c];
    }
  }

  lemma PlaceOne(s: seq<SymFreq>, pass: nat, i: nat, t: seq<SymFreq>, b: nat)
    requires i < |s| == |t| && b < 256 && Filled(s, pass, i, t, b)
    ensures var d := Digit(s[i], pass); var at := Start(s, pass, d) + |Bucket(s[..i], pass, d)|;
            at < |t| && Filled(s, pass, i + 1, t[at := s[i]], b)
  {
    var d := Digit(s[i], pass);
    var at := Start(s, pass, d) + |Bucket(s[..i], pass, d)|;
    StartBounds(s, pass, d, i);
    StartBounds(s, pass, b, i);
    BucketSnoc(s, i, pass, b);
    if b < d { StartsApart(s, pass, b, d); }
    if d < b { StartsApart(s, pass, d, b); }
  }

  /** The offsets of one pass: where each bucket starts. */
  method BucketOffsets(hist: array<nat>, pass: nat, ghost s: seq<SymFreq>) returns (offsets: array<nat>)
    requires pass < 2 && hist.Length == 512
    requires forall b :: 256 * pass <= b < 256 * pass + 256 ==> hist[b] == |Bucket(s, pass, b - 256 * pass)|
    ensures fresh(offsets) && offsets.Length == 256
    ensures forall b :: 0 <= b < 256 ==> offsets[b] == Start(s, pass, b)
  {
    offsets := new nat[256];
    var curOfs := 0;
    for i := 0 to 256
      invariant curOfs == Start(s, pass, i)
      invariant forall b :: 0 <= b < i ==> offsets[b] == Start(s, pass, b)
    {
      offsets[i] := curOfs;
      curOfs := curOfs + hist[256 * pass + i];
    }
  }

  /** One pass: move every element to the next place of its bucket. */
  method DistributePass(cur: array<SymFreq>, dst: array<SymFreq>, n: nat, pass: nat, hist: array<nat>)
    requires n <= cur.Length && n <= dst.Length && cur != dst && pass < 2 && hist.Length == 512
    requires forall b :: 256 * pass <= b < 256 * pass + 256 ==> hist[b] == |Bucket(cur[..n], pass, b - 256 * pass)|
    modifies dst
    ensures dst[..n] == Buckets(old(cur[..n]), pass, 256)
    ensures forall k :: n <= k < dst.Length ==> dst[k] == old(dst[k])
  {
    ghost var s := cur[..n];
    var offsets := BucketOffsets(hist, pass, s);
    forall b | 0 <= b < 256 ensures Filled(s, pass, 0, dst[..n], b) {
      StartBounds(s, pass, b, 0);
    }
    hide AllFilled, Start, Bucket;
    for i := 0 to n
      invariant forall b :: 0 <= b < 256 ==> offsets[b] == Start(s, pass, b) + |Bucket(s[..i], pass, b)|
      invariant AllFilled(s, pass, i, dst[..n])
      invariant forall k :: n <= k < dst.Length ==> dst[k] == old(dst[k])
    {
      var d := Digit(cur[i], pass);
      assert cur[i] == s[i];
      var at := offsets[d];
      PlaceAll(s, pass, i, dst[..n], at);
      ghost var u := dst[..n][at := s[i]];
      dst[at] := cur[i];
      assert dst[..n] == u;
      offsets[d] := at + 1;
    }
    FilledIsBuckets(s, pass, dst[..n], 256);
    BucketsLength(s, pass);
  }

  lemma PlaceAll(s: seq<SymFreq>, pass: nat, i: nat, t: seq<SymFreq>, at: nat)
    requires i < |s| == |t| && AllFilled(s, pass, i, t)
    requires at == Start(s, pass, Digit(s[i], pass)) + |Bucket(s[..i], pass, Digit(s[i], pass))|
    ensures at < |t| && AllFilled(s, pass, i + 1, t[at := s[i]])
    ensures forall b :: 0 <= b < 256 ==>
              |Bucket(s[..i + 1], pass, b)| == |Bucket(s[..i], pass, b)| + if b == Digit(s[i], pass) then 1 else 0
  {
    hide Filled, Start, Bucket, Digit;
    PlaceOne(s, pass, i, t, Digit(s[i], pass));
    var u, j := t[at := s[i]], i + 1;
    forall b | 0 <= b < 256 ensures Filled(s, pass, j, u, b) {
      PlaceOne(s, pass, i, t, b);
    }
    forall b | 0 <= b < 256
      ensures |Bucket(s[..j], pass, b)| == |Bucket(s[..i], pass, b)| + if b == Digit(s[i], pass) then 1 else 0
    {
      BucketSnoc(s, i, pass, b);
    }
  }

  /** Both byte histograms of the keys, the high byte from entry 256 on. */
  method CountDigits(n: nat, syms: array<SymFreq>) returns (hist: array<nat>)
    requires n <= syms.Length
    ensures fresh(hist) && hist.Length == 512
    ensures forall b :: 0 <= b < 256 ==> hist[b] == |Bucket(syms[..n], 0, b)|
    ensures forall b :: 256 <= b < 512 ==> hist[b] == |Bucket(syms[..n], 1, b - 256)|
  {
    ghost var s := syms[..n];
    hist := new nat[512](_ => 0);
    for i := 0 to n
      invariant forall b :: 0 <= b < 256 ==> hist[b] == |Bucket(s[..i], 0, b)|
      invariant forall b :: 256 <= b < 512 ==> hist[b] == |Bucket(s[..i], 1, b - 256)|
      invariant syms[..n] == s
    {
      var freq := syms[i].key;
      assert syms[i] == s[i];
      forall b, p | 0 <= b < 256 && 0 <= p < 2
        ensures |Bucket(s[..i + 1], p, b)| == |Bucket(s[..i], p, b)| + if b == Digit(s[i], p) then 1 else 0
      {
        BucketSnoc(s, i, p, b);
      }
      hist[freq % 256] := hist[freq % 256] + 1;
      hist[256 + (freq / 256) % 256] := hist[256 + (freq / 256) % 256] + 1;
    }
    assert s[..n] == s;
  }

  /** tdefl_radix_sort_syms: counts both bytes, skips the high pass when every high byte is zero. */
  method RadixSortSyms(n: nat, syms0: array<SymFreq>, syms1: array<SymFreq>) returns (r: array<SymFreq>)
    requires n <= syms0.Length && n <= syms1.Length && syms0 != syms1
    requires forall i :: 0 <= i < n ==> syms0[i].key < 0x1_0000
    modifies syms0, syms1
    ensures r == syms0 || r == syms1
    ensures AscendingKeys(r[..n]) && Stable(r[..n], old(syms0[..n]))
    ensures multiset(r[..n]) == multiset(old(syms0[..n]))
  {
    ghost var s := syms0[..n];
    var hist := CountDigits(n, syms0);
    var totalPasses := 2;
    while totalPasses > 1 && n == hist[(totalPasses - 1) * 256]
      invariant 1 <= totalPasses <= 2
      invariant totalPasses == 1 ==> hist[256] == n
      decreases totalPasses
    {
      totalPasses := totalPasses - 1;
    }
    DistributePass(syms0, syms1, n, 0, hist);
    ghost var t := syms1[..n];
    PassIsStable(s, 0);
    LowPassOrders(s, 256);
    r := syms1;
    if totalPasses > 1 {
      SameCounts(t, s);
      DistributePass(syms1, syms0, n, 1, hist);
      PassIsStable(t, 1);
      HighPassOrders(t, 256);
      r := syms0;
    } else {
      OneHighByte(s);
      LowIsEnough(t, s);
    }
    assert Stable(r[..n], s);
    StableIsPermutation(r[..n], s);
  }

  /** A permutation has the same high-byte counts. */
  lemma SameCounts(t: seq<SymFreq>, s: seq<SymFreq>)
    requires Stable(t, s) && (forall x :: x in t ==> x in s)
    ensures forall b :: 0 <= b < 256 ==> |Bucket(t, 1, b)| == |Bucket(s, 1, b)|
  {
    StableIsPermutation(t, s);
    forall b | 0 <= b < 256 ensures |Bucket(t, 1, b)| == |Bucket(s, 1, b)| {
      BucketIsMultiset(t, s, 1, b);
    }
  }

  lemma {:induction false} BucketIsMultiset(t: seq<SymFreq>, s: seq<SymFreq>, pass: nat, b: nat)
    requires multiset(t) == multiset(s)
    ensures multiset(Bucket(t, pass, b)) == multiset(Bucket(s, pass, b))
    ensures |Bucket(t, pass, b)| == |Bucket(s, pass, b)|
  {
    forall x: SymFreq ensures multiset(Bucket(t, pass, b))[x] == multiset(Bucket(s, pass, b))[x] {
      CountInBucket(t, pass, b, x);
      CountInBucket(s, pass, b, x);
    }
    assert |Bucket(t, pass, b)| == |multiset(Bucket(t, pass, b))|;
  }

  lemma {:induction false} CountInBucket(s: seq<SymFreq>, pass: nat, b: nat, x: SymFreq)
    ensures multiset(Bucket(s, pass, b))[x] == if Digit(x, pass) == b then multiset(s)[x] else 0
  {
    if s != [] {
      CountInBucket(s[1..], pass, b, x);
      assert s == [s[0]] + s[1..];
    }
  }

  /** If bucket 0 of the high byte holds everything, every key is below 256. */
  lemma {:induction false} OneHighByte(s: seq<SymFreq>)
    requires |Bucket(s, 1, 0)| == |s| && forall x :: x in s ==> x.key < 0x1_0000
    ensures forall x :: x in s ==> x.key < 256
  {
    if s != [] {
      assert Digit(s[0], 1) == 0;
      OneHighByte(s[1..]);
      assert s[0].key < 0x1_0000;
    }
  }

  lemma LowIsEnough(t: seq<SymFreq>, s: seq<SymFreq>)
    requires AscendingLow(t) && (forall x :: x in t ==> x in s) && forall x :: x in s ==> x.key < 256
    ensures AscendingKeys(t)
  {
    forall i, j | 0 <= i < j < |t| ensures t[i].key <= t[j].key {
      assert t[i] in t && t[j] in t;
    }
  }
}
