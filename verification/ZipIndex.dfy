/** The name index of a ZIP reader: heap sort, binary search and scan. */
module ZipIndex {
  // The file indices are sorted by case-folded name; names[i] is the name of file i.

  import opened BitStream

  type Name = seq<Byte>

  /** MZ_TOLOWER. */
  function Lower(c: Byte): (r: Byte)
    ensures !(65 <= r <= 90)
  {
    if 65 <= c <= 90 then c - 65 + 97 else c
  }

  /** The same byte, or the two cases of one letter. */
  predicate SameLetter(a: Byte, b: Byte) {
    a == b || (65 <= a <= 90 && b == a + 32) || (65 <= b <= 90 && a == b + 32)
  }

  /** Folding makes the two cases of a letter equal, and nothing else. */
  lemma LowerTells(a: Byte, b: Byte)
    ensures Lower(a) == Lower(b) <==> SameLetter(a, b)
  {
  }

  lemma FoldTells(a: Name, b: Name)
    ensures Fold(a) == Fold(b) <==> |a| == |b| && forall k :: 0 <= k < |a| ==> SameLetter(a[k], b[k])
  {
    if Fold(a) == Fold(b) {
      forall k | 0 <= k < |a| ensures SameLetter(a[k], b[k]) {
        assert Fold(a)[k] == Lower(a[k]) && Fold(b)[k] == Lower(b[k]);
      }
    }
  }

  function Fold(n: Name): (r: Name)
    ensures |r| == |n|
  {
    seq(|n|, i requires 0 <= i < |n| => Lower(n[i]))
  }

  /** Lexicographic order. */
  predicate LexLess(a: Name, b: Name)
    decreases |a|
  {
    if b == [] then false else if a == [] then true
    else if a[0] != b[0] then a[0] < b[0] else LexLess(a[1..], b[1..])
  }

  lemma {:induction false} LexTrichotomy(a: Name, b: Name)
    ensures a == b || LexLess(a, b) || LexLess(b, a)
    ensures a == b ==> !LexLess(a, b)
    ensures LexLess(a, b) ==> !LexLess(b, a)
    decreases |a|
  {
    if a != [] && b != [] {
      LexTrichotomy(a[1..], b[1..]);
      assert a == [a[0]] + a[1..] && b == [b[0]] + b[1..];
    }
  }

  /** "Not less" is transitive. */
  lemma {:induction false} LexTransitive(a: Name, b: Name, c: Name)
    requires !LexLess(b, a) && !LexLess(c, b)
    ensures !LexLess(c, a)
    decreases |a|
  {
    if a != [] && b != [] && c != [] && a[0] == b[0] == c[0] { LexTransitive(a[1..], b[1..], c[1..]); }
  }

  /** Where two names agree, the order is that of the rest. */
  lemma {:induction false} LexSkip(a: Name, b: Name, k: nat)
    requires k <= |a| && k <= |b| && a[..k] == b[..k]
    ensures LexLess(a, b) == LexLess(a[k..], b[k..])
    ensures a == b <==> a[k..] == b[k..]
    decreases k
  {
    if k == 0 {
      assert a[0..] == a && b[0..] == b;
    } else {
      assert a[0] == a[..k][0] && b[0] == b[..k][0];
      assert a[1..][..k - 1] == a[..k][1..] && b[1..][..k - 1] == b[..k][1..];
      LexSkip(a[1..], b[1..], k - 1);
      assert a[1..][k - 1..] == a[k..] && b[1..][k - 1..] == b[k..];
      assert a == a[..k] + a[k..] && b == b[..k] + b[k..];
    }
  }

  /** The comparison loop: how far two names agree, up to the length of the shorter one. */
  method Agree(l: Name, r: Name) returns (k: nat)
    ensures k <= |l| && k <= |r| && Fold(l)[..k] == Fold(r)[..k]
    ensures k < |l| && k < |r| ==> Lower(l[k]) != Lower(r[k])
  {
    k := 0;
    var e := if |l| < |r| then |l| else |r|;
    while k < e
      invariant k <= e && Fold(l)[..k] == Fold(r)[..k]
    {
      if Lower(l[k]) != Lower(r[k]) { break; }
      assert Fold(l)[..k + 1] == Fold(l)[..k] + [Lower(l[k])] && Fold(r)[..k + 1] == Fold(r)[..k] + [Lower(r[k])];
      k := k + 1;
    }
  }

  lemma Decided(l: Name, r: Name, k: nat)
    requires k <= |l| && k <= |r| && Fold(l)[..k] == Fold(r)[..k]
    requires k < |l| && k < |r| ==> Lower(l[k]) != Lower(r[k])
    ensures LexLess(Fold(l), Fold(r)) == if k == |l| || k == |r| then |l| < |r| else Lower(l[k]) < Lower(r[k])
    ensures LexLess(Fold(r), Fold(l)) == if k == |l| || k == |r| then |r| < |l| else Lower(r[k]) < Lower(l[k])
    ensures Fold(l) == Fold(r) <==> k == |l| == |r|
  {
    LexSkip(Fold(l), Fold(r), k);
    LexSkip(Fold(r), Fold(l), k);
    if k < |l| && k < |r| {
      assert Fold(l)[k..][0] == Lower(l[k]) && Fold(r)[k..][0] == Lower(r[k]);
    }
  }

  /** mz_zip_reader_filename_less. */
  method FilenameLess(names: seq<Name>, l: nat, r: nat) returns (less: bool)
    requires l < |names| && r < |names|
    ensures less == Less(names, l, r)
  {
    var k := Agree(names[l], names[r]);
    Decided(names[l], names[r], k);
    hide *;
    less := if k == |names[l]| || k == |names[r]| then |names[l]| < |names[r]|
            else Lower(names[l][k]) < Lower(names[r][k]);
    LessIs(names, l, r);
  }

  /** The name of file i comes before that of file j. */
  ghost predicate Less(names: seq<Name>, i: nat, j: nat)
    requires i < |names| && j < |names|
  {
    LexLess(Fold(names[i]), Fold(names[j]))
  }

  lemma LessIs(names: seq<Name>, i: nat, j: nat)
    requires i < |names| && j < |names|
    ensures Less(names, i, j) == LexLess(Fold(names[i]), Fold(names[j]))
  {
  }

  lemma LessTransitive(names: seq<Name>, i: nat, j: nat, k: nat)
    requires i < |names| && j < |names| && k < |names| && !Less(names, j, i) && !Less(names, k, j)
    ensures !Less(names, k, i)
  {
    LexTransitive(Fold(names[i]), Fold(names[j]), Fold(names[k]));
  }

  lemma LessTotal(names: seq<Name>, i: nat, j: nat)
    requires i < |names| && j < |names|
    ensures Less(names, i, j) ==> !Less(names, j, i)
  {
    LexTrichotomy(Fold(names[i]), Fold(names[j]));
  }

  // ----- heap sort

  ghost predicate Indices(names: seq<Name>, s: seq<nat>) {
    forall k :: 0 <= k < |s| ==> s[k] < |names|
  }

  function Parent(c: nat): nat
    requires c > 0
  {
    (c - 1) / 2
  }

  /** s[p] is not less than s[c]. */
  ghost predicate Over(names: seq<Name>, s: seq<nat>, p: nat, c: nat)
    requires p < |s| && c < |s| && Indices(names, s)
  {
    !Less(names, s[p], s[c])
  }

  /** Below hi, every parent from lo on is over its children. */
  ghost predicate Heap(names: seq<Name>, s: seq<nat>, lo: nat, hi: nat) {
    && Indices(names, s) && hi <= |s|
    && forall c :: 0 < c < hi && lo <= Parent(c) ==> Over(names, s, Parent(c), c)
  }

  /** A heap except that the root may be under its children, which are under the root's own parent. */
  ghost predicate Sifting(names: seq<Name>, s: seq<nat>, lo: nat, hi: nat, root: nat) {
    && Indices(names, s) && hi <= |s| && lo <= root < hi
    && (forall c :: 0 < c < hi && lo <= Parent(c) != root ==> Over(names, s, Parent(c), c))
    && (forall c :: 0 < c < hi && Parent(c) == root && root > 0 && lo <= Parent(root) ==>
        Over(names, s, Parent(root), c))
  }

  lemma SiftSwap(names: seq<Name>, s: seq<nat>, lo: nat, hi: nat, root: nat, child: nat, s': seq<nat>)
    requires Sifting(names, s, lo, hi, root) && 0 < child < hi && Parent(child) == root
    requires Less(names, s[root], s[child]) && forall c :: 0 < c < hi && Parent(c) == root ==> Over(names, s, child, c)
    requires |s'| == |s| && s' == s[root := s[child]][child := s[root]]
    ensures Sifting(names, s', lo, hi, child)
  {
    hide Less;
    forall c | 0 < c < hi && lo <= Parent(c) != child ensures Over(names, s', Parent(c), c) {
      if Parent(c) == root {
        if c == child { LessTotal(names, s[root], s[child]); } else { assert Over(names, s, child, c); }
      } else if c == root {
        assert Over(names, s, Parent(root), child);
      } else {
        assert Over(names, s, Parent(c), c);
      }
    }
    forall c | 0 < c < hi && Parent(c) == child ensures Over(names, s', root, c) {
      assert Over(names, s, Parent(c), c);
    }
  }

  lemma SiftDone(names: seq<Name>, s: seq<nat>, lo: nat, hi: nat, root: nat)
    requires Sifting(names, s, lo, hi, root) && forall c :: 0 < c < hi && Parent(c) == root ==> Over(names, s, root, c)
    ensures Heap(names, s, lo, hi)
  {
    hide Less, Over;
  }

  lemma SwapKeeps(s: seq<nat>, i: nat, j: nat, hi: nat, s': seq<nat>)
    requires i < hi && j < hi <= |s| && s' == s[i := s[j]][j := s[i]]
    ensures multiset(s'[..hi]) == multiset(s[..hi]) && s'[hi..] == s[hi..]
  {
    assert s'[..hi] == s[..hi][i := s[..hi][j]][j := s[..hi][i]];
  }

  /** Swaps two entries. */
  method Swap(idx: array<nat>, i: nat, j: nat)
    requires i < idx.Length && j < idx.Length
    modifies idx
    ensures idx[..] == old(idx[..])[i := old(idx[..])[j]][j := old(idx[..])[i]]
  {
    idx[i], idx[j] := idx[j], idx[i];
  }

  /** The inner loop of both phases: moves an entry down until no child is over it. */
  method SiftDown(names: seq<Name>, idx: array<nat>, start: nat, hi: nat)
    requires start < hi <= idx.Length && Sifting(names, idx[..], start, hi, start)
    modifies idx
    ensures Heap(names, idx[..], start, hi)
    ensures multiset(idx[..][..hi]) == old(multiset(idx[..][..hi])) && idx[..][hi..] == old(idx[..][hi..])
  {
    var root := start;
    ghost var s0 := idx[..];
    while 2 * root + 1 < hi
      invariant start <= root < hi && Sifting(names, idx[..], start, hi, root)
      invariant multiset(idx[..][..hi]) == multiset(s0[..hi]) && idx[..][hi..] == s0[hi..]
      decreases hi - root
    {
      hide *;
      ghost var s := idx[..];
      var child := LargerChild(names, idx, root, hi, start, s);
      SiftingIs(names, s, start, hi, root);
      assert idx[root] == s[root] && idx[child] == s[child];
      var less := FilenameLess(names, idx[root], idx[child]);
      if !less {
        NoChildOver(names, s, root, child, hi);
        SiftDone(names, s, start, hi, root);
        return;
      }
      Swap(idx, root, child);
      SiftSwap(names, s, start, hi, root, child, idx[..]);
      SwapKeeps(s, root, child, hi, idx[..]);
      root := child;
    }
    Childless(names, idx[..], start, hi, root);
  }

  lemma SiftingIs(names: seq<Name>, s: seq<nat>, lo: nat, hi: nat, root: nat)
    requires Sifting(names, s, lo, hi, root)
    ensures Indices(names, s) && hi <= |s| && lo <= root < hi && forall k :: 0 <= k < |s| ==> s[k] < |names|
  {
  }

  lemma Childless(names: seq<Name>, s: seq<nat>, lo: nat, hi: nat, root: nat)
    requires Sifting(names, s, lo, hi, root) && 2 * root + 1 >= hi
    ensures Heap(names, s, lo, hi)
  {
    SiftDone(names, s, lo, hi, root);
  }

  lemma NoChildOver(names: seq<Name>, s: seq<nat>, root: nat, child: nat, hi: nat)
    requires Indices(names, s) && root < hi <= |s| && child < hi && !Less(names, s[root], s[child])
    requires forall c :: 0 < c < hi && Parent(c) == root ==> Over(names, s, child, c)
    ensures forall c :: 0 < c < hi && Parent(c) == root ==> Over(names, s, root, c)
  {
    hide Less;
    forall c | 0 < c < hi && Parent(c) == root ensures Over(names, s, root, c) {
      assert Over(names, s, child, c);
      LessTransitive(names, s[c], s[child], s[root]);
    }
  }

  /** The child that is not less than the other one, if there is another one. */
  method LargerChild(names: seq<Name>, idx: array<nat>, root: nat, hi: nat, ghost lo: nat, ghost s: seq<nat>)
    returns (child: nat)
    requires s == idx[..] && Sifting(names, s, lo, hi, root) && 2 * root + 1 < hi <= |s| && Indices(names, s)
    ensures 0 < child < hi && Parent(child) == root && root < child
    ensures forall c :: 0 < c < hi && Parent(c) == root ==> Over(names, s, child, c)
  {
    hide Less, Sifting;
    child := 2 * root + 1;
    assert forall k :: 0 <= k < |s| ==> idx[k] == s[k] < |names|;
    LessTotal(names, s[child], s[child]);
    if child + 1 < hi {
      var less := FilenameLess(names, idx[child], idx[child + 1]);
      LessTotal(names, s[child], s[child + 1]);
      LessTotal(names, s[child + 1], s[child + 1]);
      if less { child := child + 1; }
    }
  }

  /** The root of a heap is over all of it. */
  lemma {:induction false} RootIsOver(names: seq<Name>, s: seq<nat>, hi: nat, k: nat)
    requires Heap(names, s, 0, hi) && k < hi
    ensures Over(names, s, 0, k)
    decreases k
  {
    if k == 0 {
      LessTotal(names, s[0], s[0]);
    } else {
      RootIsOver(names, s, hi, Parent(k));
      assert Over(names, s, Parent(k), k);
      LessTransitive(names, s[k], s[Parent(k)], s[0]);
    }
  }

  /** From hi on the entries are in order, and over all entries before. */
  ghost predicate SortedFrom(names: seq<Name>, s: seq<nat>, hi: nat) {
    Indices(names, s) && forall i, j :: 0 <= i < j < |s| && hi <= j ==> Over(names, s, j, i)
  }

  /** The entries behind stay sorted when those before are permuted. */
  lemma PrefixPermuted(names: seq<Name>, s: seq<nat>, s': seq<nat>, hi: nat)
    requires SortedFrom(names, s, hi) && hi <= |s| == |s'| && multiset(s'[..hi]) == multiset(s[..hi])
             && s'[hi..] == s[hi..]
    ensures SortedFrom(names, s', hi)
  {
    forall i | 0 <= i < |s'|
        ensures exists k :: 0 <= k < |s| && s[k] == s'[i] && (i < hi ==> k < hi) && (i >= hi ==> k == i) {
      SameSource(s, s', hi, i);
    }
    forall i, j | 0 <= i < j < |s'| && hi <= j
        ensures s'[j] < |names| && s'[i] < |names| && !Less(names, s'[j], s'[i]) {
      var k :| 0 <= k < |s| && s[k] == s'[i] && (i < hi ==> k < hi) && (i >= hi ==> k == i);
      assert s'[j] == s'[hi..][j - hi] == s[hi..][j - hi] == s[j];
      assert Over(names, s, j, k);
    }
  }

  lemma SameSource(s: seq<nat>, s': seq<nat>, hi: nat, i: nat)
    requires hi <= |s| == |s'| && multiset(s'[..hi]) == multiset(s[..hi]) && s'[hi..] == s[hi..] && i < |s'|
    ensures exists k :: 0 <= k < |s| && s[k] == s'[i] && (i < hi ==> k < hi) && (i >= hi ==> k == i)
  {
    if i < hi {
      assert s'[..hi][i] in multiset(s'[..hi]);
      var k :| 0 <= k < hi && s[..hi][k] == s'[i];
      assert s[k] == s'[i];
    } else {
      assert s'[i] == s'[hi..][i - hi] == s[hi..][i - hi] == s[i];
    }
  }

  lemma NoParentsYet(names: seq<Name>, s: seq<nat>)
    requires Indices(names, s) && |s| >= 2
    ensures Heap(names, s, (|s| - 2) / 2 + 1, |s|)
  {
  }

  lemma StartSift(names: seq<Name>, s: seq<nat>, lo: nat, hi: nat)
    requires Heap(names, s, lo + 1, hi) && lo < hi
    ensures Sifting(names, s, lo, hi, lo)
  {
    hide Over;
  }

  /** The largest entry goes behind the heap. */
  lemma RootOut(names: seq<Name>, s: seq<nat>, end: nat, s': seq<nat>)
    requires 0 < end < |s| && Heap(names, s, 0, end + 1) && SortedFrom(names, s, end + 1)
    requires s' == s[end := s[0]][0 := s[end]]
    ensures Sifting(names, s', 0, end, 0) && SortedFrom(names, s', end) && multiset(s') == multiset(s)
  {
    forall k: nat | k < end + 1 ensures Over(names, s, 0, k) { RootIsOver(names, s, end + 1, k); }
    hide Less;
    forall c | 0 < c < end && Parent(c) != 0 ensures Over(names, s', Parent(c), c) {
      assert Over(names, s, Parent(c), c);
    }
    forall i, j | 0 <= i < j < |s'| && end <= j ensures Over(names, s', j, i) {
      if j == end {
        assert Over(names, s, 0, if i == 0 then end else i);
      } else {
        assert Over(names, s, j, if i == 0 then end else if i == end then 0 else i);
      }
    }
  }

  /** Sorted by folded name. */
  ghost predicate Sorted(names: seq<Name>, s: seq<nat>) {
    SortedFrom(names, s, 0)
  }

  lemma IndicesPermuted(names: seq<Name>, s: seq<nat>, s': seq<nat>)
    requires Indices(names, s) && multiset(s') == multiset(s)
    ensures Indices(names, s')
  {
    forall k | 0 <= k < |s'| ensures s'[k] < |names| {
      assert s'[k] in multiset(s');
      assert s'[k] in multiset(s);
    }
  }

  lemma WholePermuted(s: seq<nat>, s': seq<nat>, hi: nat)
    requires hi <= |s| == |s'| && multiset(s'[..hi]) == multiset(s[..hi]) && s'[hi..] == s[hi..]
    ensures multiset(s') == multiset(s)
  {
    assert s == s[..hi] + s[hi..] && s' == s'[..hi] + s'[hi..];
  }

  lemma OneIsSorted(names: seq<Name>, s: seq<nat>)
    requires Indices(names, s)
    ensures |s| <= 1 ==> Sorted(names, s)
    ensures SortedFrom(names, s, 1) ==> Sorted(names, s)
    ensures SortedFrom(names, s, |s|)
  {
  }

  /** mz_zip_reader_sort_central_dir_offsets_by_filename. */
  method SortIndices(names: seq<Name>, idx: array<nat>)
    requires Indices(names, idx[..])
    modifies idx
    ensures Sorted(names, idx[..]) && multiset(idx[..]) == old(multiset(idx[..]))
  {
    hide *;
    var size := idx.Length;
    ghost var s0 := idx[..];
    OneIsSorted(names, s0);
    if size <= 1 { return; }
    Heapify(names, idx);
    OneIsSorted(names, idx[..]);
    var end := size - 1;
    while end > 0
      invariant 0 <= end < size && Heap(names, idx[..], 0, end + 1) && SortedFrom(names, idx[..], end + 1)
      invariant multiset(idx[..]) == multiset(s0)
    {
      ghost var s := idx[..];
      Swap(idx, end, 0);
      ghost var t := idx[..];
      RootOut(names, s, end, t);
      SiftDown(names, idx, 0, end);
      PrefixPermuted(names, t, idx[..], end);
      WholePermuted(t, idx[..], end);
      end := end - 1;
    }
    SortedIndices(names, idx[..], 1);
    OneIsSorted(names, idx[..]);
  }

  lemma SortedIndices(names: seq<Name>, s: seq<nat>, hi: nat)
    requires SortedFrom(names, s, hi)
    ensures Indices(names, s)
  {
  }

  /** The first phase. */
  method Heapify(names: seq<Name>, idx: array<nat>)
    requires Indices(names, idx[..]) && idx.Length >= 2
    modifies idx
    ensures Heap(names, idx[..], 0, idx.Length) && multiset(idx[..]) == old(multiset(idx[..]))
            && Indices(names, idx[..])
  {
    hide *;
    var size := idx.Length;
    ghost var s0 := idx[..];
    NoParentsYet(names, idx[..]);
    var start := (size - 2) / 2;
    while true
      invariant 0 <= start < size && Heap(names, idx[..], start + 1, size) && multiset(idx[..]) == multiset(s0)
      decreases start
    {
      ghost var s := idx[..];
      StartSift(names, s, start, size);
      SiftDown(names, idx, start, size);
      WholePermuted(s, idx[..], size);
      if start == 0 { break; }
      start := start - 1;
    }
    IndicesPermuted(names, s0, idx[..]);
  }

  // ----- locating a file

  /** File i has the name, up to case. */
  ghost predicate Matches(names: seq<Name>, i: nat, name: Name) {
    i < |names| && Fold(names[i]) == Fold(name)
  }

  /** A file has the name exactly if both are equally long and agree byte by byte, but for the case of letters. */
  lemma MatchesExactly(names: seq<Name>, i: nat, name: Name)
    ensures Matches(names, i, name) <==>
            && i < |names| && |names[i]| == |name|
            && forall k :: 0 <= k < |name| ==> SameLetter(names[i][k], name[k])
  {
    hide SameLetter, Fold;
    if i < |names| { FoldTells(names[i], name); }
  }

  ghost predicate InDirectory(names: seq<Name>, name: Name) {
    exists i: nat :: Matches(names, i, name)
  }

  /** The name as the binary search takes it: its length is cast to 32 bits. */
  function Cut(name: Name): (r: Name)
    ensures |r| < 0x1_0000_0000 && (|name| < 0x1_0000_0000 ==> r == name)
  {
    name[..|name| % 0x1_0000_0000]
  }

  /** The int that a 32-bit difference is read as. */
  function AsInt(x: int): int {
    var w := x % 0x1_0000_0000;
    if w < 0x8000_0000 then w else w - 0x1_0000_0000
  }

  lemma AsIntIs(x: int)
    requires -0x1_0000_0000 < x < 0x8000_0000
    ensures x >= -0x8000_0000 ==> AsInt(x) == x
    ensures AsInt(x) == 0 <==> x == 0
  {
  }

  /** mz_zip_filename_compare with the cut name: negative, zero or positive. The difference of the lengths wraps around
      when the name has more than 2^31 bytes, but it is 0 only for equal lengths. */
  method FilenameCompare(names: seq<Name>, l: nat, name: Name) returns (comp: int)
    requires l < |names| && |names[l]| <= 0xFFFF && |name| < 0x1_0000_0000
    ensures |name| <= 0x8000_0000 ==> (comp < 0 <==> LexLess(Fold(names[l]), Fold(name)))
    ensures comp == 0 <==> Matches(names, l, name)
  {
    var k := Agree(names[l], name);
    Decided(names[l], name, k);
    LexTrichotomy(Fold(names[l]), Fold(name));
    AsIntIs(|names[l]| - |name|);
    comp := if k == |names[l]| || k == |name| then AsInt(|names[l]| - |name|)
            else Lower(names[l][k]) - Lower(name[k]);
  }

  /** Where the name can still be: in the sorted indices, nothing before l or behind h has it. */
  ghost predicate Narrowed(names: seq<Name>, s: seq<nat>, name: Name, l: int, h: int) {
    && 0 <= l && h < |s| && Indices(names, s)
    && forall k :: 0 <= k < |s| && !(l <= k <= h) ==> !Matches(names, s[k], name)
  }

  lemma Narrow(names: seq<Name>, s: seq<nat>, name: Name, l: int, h: int, m: int)
    requires Narrowed(names, s, name, l, h) && Sorted(names, s) && l <= m <= h && !Matches(names, s[m], name)
    ensures if LexLess(Fold(names[s[m]]), Fold(name)) then Narrowed(names, s, name, m + 1, h)
            else Narrowed(names, s, name, l, m - 1)
  {
    var before := LexLess(Fold(names[s[m]]), Fold(name));
    LexTrichotomy(Fold(names[s[m]]), Fold(name));
    forall k | 0 <= k < |s| && (if before then k < m else k > m) ensures !Matches(names, s[k], name) {
      if before { assert Over(names, s, m, k); } else { assert Over(names, s, k, m); }
    }
  }

  /** mz_zip_locate_file_binary_search: it looks for the cut name, and finds it exactly if it is there. */
  method LocateBinary(names: seq<Name>, sorted: seq<nat>, name: Name) returns (found: bool, index: nat)
    requires Sorted(names, sorted) && forall i: nat :: i < |names| ==> i in sorted
    requires forall i :: 0 <= i < |names| ==> |names[i]| <= 0xFFFF
    ensures found <==> InDirectory(names, Cut(name))
    ensures found ==> Matches(names, index, Cut(name))
  {
    var filename := Cut(name);
    var l, h := 0, |sorted| - 1;
    found, index := false, 0;
    if |filename| > 0xFFFF { TooLong(names, filename); }
    while l <= h
      invariant Narrowed(names, sorted, filename, l, h) && h >= -1 && l <= |sorted|
      decreases h - l + 1
    {
      var m := l + (h - l) / 2;
      var comp := FilenameCompare(names, sorted[m], filename);
      if comp == 0 { return true, sorted[m]; }
      if |filename| <= 0xFFFF {
        Narrow(names, sorted, filename, l, h, m);
      } else {
        NarrowAny(names, sorted, filename, l, h, m);
      }
      hide *;
      if comp < 0 { l := m + 1; } else { h := m - 1; }
    }
    NotThere(names, sorted, filename, l, h);
  }

  /** A name that is too long for the directory can be looked for in any direction. */
  lemma NarrowAny(names: seq<Name>, s: seq<nat>, name: Name, l: int, h: int, m: int)
    requires Narrowed(names, s, name, l, h) && l <= m <= h && !InDirectory(names, name)
    ensures Narrowed(names, s, name, m + 1, h) && Narrowed(names, s, name, l, m - 1)
  {
  }

  /** Cutting makes a difference: a name of 2^32 + 1 bytes is taken for its first byte. */
  lemma CutNameIsFound(names: seq<Name>, name: Name)
    requires names == [[97]] && |name| == 0x1_0000_0001 && name[0] == 97
    ensures InDirectory(names, Cut(name)) && !InDirectory(names, name)
  {
    assert Cut(name) == [97];
    assert Matches(names, 0, Cut(name));
    TooLong(names, name);
  }

  lemma NotThere(names: seq<Name>, s: seq<nat>, name: Name, l: int, h: int)
    requires Narrowed(names, s, name, l, h) && l > h && forall i: nat :: i < |names| ==> i in s
    ensures !InDirectory(names, name)
  {
    forall i: nat | i < |names| ensures !Matches(names, i, name) {
      assert i in s;
      var k :| 0 <= k < |s| && s[k] == i;
    }
  }

  lemma TooLong(names: seq<Name>, name: Name)
    requires |name| > 0xFFFF && forall i :: 0 <= i < |names| ==> |names[i]| <= 0xFFFF
    ensures !InDirectory(names, name)
  {
    forall i: nat | i < |names| ensures !Matches(names, i, name) {
      assert |Fold(names[i])| < |Fold(name)|;
    }
  }

  /** The scan of mz_zip_reader_locate_file_v2 without flags and comment: the first file with the name. */
  method LocateLinear(names: seq<Name>, name: Name) returns (found: bool, index: nat)
    requires forall i :: 0 <= i < |names| ==> |names[i]| <= 0xFFFF
    ensures found <==> InDirectory(names, name)
    ensures found ==> Matches(names, index, name) && forall i: nat :: i < index ==> !Matches(names, i, name)
  {
    found, index := false, 0;
    if |name| > 0xFFFF {
      TooLong(names, name);
      return;
    }
    var fileIndex: nat := 0;
    while fileIndex < |names|
      invariant fileIndex <= |names| && forall i: nat :: i < fileIndex ==> !Matches(names, i, name)
    {
      if |names[fileIndex]| == |name| {
        var equal := StringEqual(name, names[fileIndex]);
        if equal {
          assert Matches(names, fileIndex, name);
          return true, fileIndex;
        }
      }
      fileIndex := fileIndex + 1;
    }
  }

  /** mz_zip_string_equal, ignoring case. */
  method StringEqual(a: Name, b: Name) returns (equal: bool)
    requires |a| == |b|
    ensures equal <==> Fold(a) == Fold(b)
  {
    for i := 0 to |a|
      invariant forall k :: 0 <= k < i ==> Fold(a)[k] == Fold(b)[k]
    {
      if Lower(a[i]) != Lower(b[i]) {
        assert Fold(a)[i] != Fold(b)[i];
        return false;
      }
    }
    return true;
  }

  /** Sorting the indices and searching them, next to the scan: both find the name or neither does, unless the name has
      2^32 bytes or more and what is left of it is in the directory. */
  method LocateBothWays(names: seq<Name>, name: Name) returns (binary: bool, linear: bool, i: nat, j: nat)
    requires forall k :: 0 <= k < |names| ==> |names[k]| <= 0xFFFF
    ensures binary == linear <==> |name| < 0x1_0000_0000 || !InDirectory(names, Cut(name))
    ensures binary && linear ==> i < |names| && j < |names| && Fold(names[i]) == Fold(names[j]) == Fold(name)
  {
    var idx := new nat[|names|](k => k);
    AllIndices(names, idx[..]);
    ghost var s := idx[..];
    SortIndices(names, idx);
    StillAll(names, s, idx[..]);
    hide Sorted, Indices, Cut;
    binary, i := LocateBinary(names, idx[..], name);
    linear, j := LocateLinear(names, name);
    if |name| > 0xFFFF { TooLong(names, name); }
  }

  lemma AllIndices(names: seq<Name>, s: seq<nat>)
    requires |s| == |names| && forall k :: 0 <= k < |s| ==> s[k] == k
    ensures Indices(names, s)
  {
  }

  lemma StillAll(names: seq<Name>, s: seq<nat>, s': seq<nat>)
    requires |s| == |names| && (forall k :: 0 <= k < |s| ==> s[k] == k) && multiset(s') == multiset(s)
    ensures forall i: nat :: i < |names| ==> i in s'
  {
    forall i: nat | i < |names| ensures i in s' {
      assert s[i] in multiset(s);
      assert i in multiset(s');
    }
  }
}
