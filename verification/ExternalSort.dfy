/** The distributed external sort: buffered runs and a k-way merge. */
module ExternalSort {
  // The ranks cut the file into slices, read each slice through a buffer, sort it and write it as a run through another
  // buffer; then one process merges all runs with a heap.

  import Bits

  ghost predicate Sorted(s: seq<int>) {
    forall i, j :: 0 <= i < j < |s| ==> s[i] <= s[j]
  }

  function Insert(s: seq<int>, x: int): seq<int> {
    if s == [] then [x] else if x <= s[0] then [x] + s else [s[0]] + Insert(s[1..], x)
  }

  /** The library's sort. */
  function SortOf(s: seq<int>): seq<int> {
    if s == [] then [] else Insert(SortOf(s[1..]), s[0])
  }

  lemma {:induction false} InsertAdds(s: seq<int>, x: int)
    ensures multiset(Insert(s, x)) == multiset(s) + multiset{x}
  {
    if s != [] && x > s[0] {
      InsertAdds(s[1..], x);
      assert s == [s[0]] + s[1..];
    }
  }

  lemma {:induction false} InsertSorts(s: seq<int>, x: int)
    requires Sorted(s)
    ensures Sorted(Insert(s, x))
  {
    if s != [] && x > s[0] {
      var t := Insert(s[1..], x);
      InsertSorts(s[1..], x);
      InsertAdds(s[1..], x);
      hide Insert;
      forall i | 0 <= i < |t| ensures s[0] <= t[i] {
        assert t[i] in multiset(t);
        assert t[i] in multiset(s[1..]) || t[i] == x;
      }
      Prepend(s[0], t);
    }
  }

  lemma Prepend(x: int, t: seq<int>)
    requires Sorted(t) && forall i :: 0 <= i < |t| ==> x <= t[i]
    ensures Sorted([x] + t)
  {
  }

  lemma {:induction false} SortSorts(s: seq<int>)
    ensures Sorted(SortOf(s)) && multiset(SortOf(s)) == multiset(s)
  {
    if s != [] {
      SortSorts(s[1..]);
      InsertSorts(SortOf(s[1..]), s[0]);
      InsertAdds(SortOf(s[1..]), s[0]);
      assert s == [s[0]] + s[1..];
    }
  }

  function Min(a: nat, b: nat): nat {
    if a < b then a else b
  }

  /** The elements from `from` up to before `to`, as far as the file has them. */
  function Part(file: seq<int>, from: nat, to: nat): seq<int>
    requires from <= to
  {
    file[Min(from, |file|)..Min(to, |file|)]
  }

  /** Reads a slice through a buffer of bufferSize elements, until its end or a short read. */
  method ReadSlice(file: seq<int>, startOffset: nat, endOffset: nat, bufferSize: nat) returns (bigVect: seq<int>)
    requires bufferSize > 0 && startOffset <= endOffset && startOffset <= |file|
    ensures bigVect == Part(file, startOffset, endOffset)
  {
    var bufferRead := new int[bufferSize];
    bigVect := [];
    var currentOffset := startOffset;
    while currentOffset < endOffset
      invariant startOffset <= currentOffset <= Min(endOffset, |file|)
      invariant bigVect == file[startOffset..currentOffset]
    {
      var elementsToRead := if endOffset - currentOffset < bufferSize then endOffset - currentOffset else bufferSize;
      var elementsRead := ReadAt(file, currentOffset, bufferRead, elementsToRead);
      for i := 0 to elementsRead
        invariant bigVect == file[startOffset..currentOffset + i]
        invariant bufferRead[..elementsRead] == file[currentOffset..currentOffset + elementsRead]
      {
        assert bufferRead[i] == bufferRead[..elementsRead][i];
        bigVect := bigVect + [bufferRead[i]];
      }
      currentOffset := currentOffset + elementsRead;
      if elementsRead < bufferSize { break; }
    }
  }

  /** Reading at an offset delivers what was asked for, or all that is left. */
  method ReadAt(file: seq<int>, offset: nat, buffer: array<int>, wanted: nat) returns (count: nat)
    requires offset <= |file| && wanted <= buffer.Length
    modifies buffer
    ensures count == Min(wanted, |file| - offset) && buffer[..count] == file[offset..offset + count]
  {
    count := Min(wanted, |file| - offset);
    for i := 0 to count
      invariant buffer[..i] == file[offset..offset + i]
    {
      buffer[i] := file[offset + i];
    }
  }

  /** Writes a run through a buffer that is flushed when it is full or the run ends. */
  method WriteRun(bigVect: seq<int>, bufferSize: nat) returns (tmpFile: seq<int>)
    requires bufferSize > 0
    ensures tmpFile == bigVect
  {
    var bufferWrit := new int[bufferSize];
    tmpFile := [];
    for i := 0 to |bigVect|
      invariant Flushed(bigVect[..i], tmpFile, bufferWrit[..], i, i == |bigVect|)
    {
      Slot(i, bufferSize);
      ghost var B := bufferWrit[..];
      bufferWrit[i % bufferSize] := bigVect[i];
      assert bigVect[..i + 1] == bigVect[..i] + [bigVect[i]];
      assert bufferWrit[..] == B[i % bufferSize := bigVect[i]];
      Buffered(bigVect[..i], tmpFile, B, i, bigVect[i]);
      if (i + 1) % bufferSize == 0 || i == |bigVect| - 1 {
        tmpFile := tmpFile + bufferWrit[..i % bufferSize + 1];
      }
    }
    assert bigVect[..|bigVect|] == bigVect;
  }

  /** Of the i elements written so far, all but the last incomplete buffer are in the file. */
  ghost predicate Flushed(written: seq<int>, file: seq<int>, buffer: seq<int>, i: nat, last: bool)
    requires |buffer| > 0
  {
    && |written| == i
    && if last then file == written
       else i % |buffer| <= |buffer| && written == file + buffer[..i % |buffer|]
  }

  lemma Slot(i: nat, size: nat)
    requires size > 0
    ensures i % size < size
    ensures (i + 1) % size == if i % size + 1 == size then 0 else i % size + 1
  {
    var q, r := i / size, i % size;
    assert i == q * size + r;
    if r + 1 == size {
      Bits.DistributeRight(q, 1, size);
      Bits.DivNonNegative(i, size);
      Bits.DivUnique(i + 1, size, q + 1, 0);
    } else {
      Bits.DivNonNegative(i, size);
      Bits.DivUnique(i + 1, size, q, r + 1);
    }
  }

  /** One more element in the buffer; if it is flushed now, everything is in the file. */
  lemma Buffered(written: seq<int>, file: seq<int>, buffer: seq<int>, i: nat, x: int)
    requires |buffer| > 0 && Flushed(written, file, buffer, i, false)
    ensures var k, b := i % |buffer|, buffer[i % |buffer| := x];
            && k + 1 <= |b| && written + [x] == file + b[..k + 1]
            && Flushed(written + [x], file + b[..k + 1], b, i + 1, true)
            && ((i + 1) % |b| == 0 ==> Flushed(written + [x], file + b[..k + 1], b, i + 1, false))
            && ((i + 1) % |b| != 0 ==> Flushed(written + [x], file, b, i + 1, false))
  {
    Slot(i, |buffer|);
    var k, b := i % |buffer|, buffer[i % |buffer| := x];
    assert b[..k + 1] == buffer[..k] + [x];
    assert b[..0] == [];
  }

  // ----- sorted runs

  /** Slice number q of the file. */
  function Slice(file: seq<int>, sliceSize: nat, q: nat): seq<int> {
    SliceStep(sliceSize, q);
    Part(file, q * sliceSize, (q + 1) * sliceSize)
  }

  lemma SliceStep(sliceSize: nat, q: nat)
    ensures q * sliceSize <= (q + 1) * sliceSize == q * sliceSize + sliceSize
  {
  }

  /** What one rank reads in turn l. */
  function RankSlice(file: seq<int>, sliceSize: nat, rank: nat, mpiSize: nat, l: nat): seq<int> {
    Slice(file, sliceSize, rank + mpiSize * l)
  }

  /** The runs stand for slices rank, rank + mpiSize, ... as far as the file goes. */
  ghost predicate RunsOf(file: seq<int>, sliceSize: nat, rank: nat, mpiSize: nat, runs: seq<seq<int>>) {
    forall l :: 0 <= l < |runs| ==> runs[l] == SortOf(RankSlice(file, sliceSize, rank, mpiSize, l)) && runs[l] != []
  }

  /** sortedRuns of one rank: a sorted run for each of its slices that is inside the file. */
  method SortedRuns(file: seq<int>, sliceSize: nat, maxLoop: nat, rank: nat, mpiSize: nat, readSize: nat,
                    writeSize: nat)
    returns (runs: seq<seq<int>>)
    requires sliceSize > 0 && readSize > 0 && writeSize > 0
    ensures RunsOf(file, sliceSize, rank, mpiSize, runs) && |runs| <= maxLoop
    ensures forall l: nat :: |runs| <= l < maxLoop ==> RankSlice(file, sliceSize, rank, mpiSize, l) == []
  {
    runs := [];
    for l := 0 to maxLoop
      invariant |runs| == l && RunsOf(file, sliceSize, rank, mpiSize, runs)
    {
      hide *;
      var startOffset := sliceSize * (rank + mpiSize * l);
      if startOffset >= |file| {
        LaterSlices(file, sliceSize, rank, mpiSize, l, maxLoop);
        break;
      }
      var bigVect := ReadSlice(file, startOffset, startOffset + sliceSize, readSize);
      SliceIs(file, sliceSize, rank, mpiSize, l, startOffset);
      ghost var slice := bigVect;
      bigVect := SortOf(bigVect);
      NotEmpty(slice);
      var run := WriteRun(bigVect, writeSize);
      RunsMore(file, sliceSize, rank, mpiSize, runs, run);
      runs := runs + [run];
    }
  }

  lemma SliceIs(file: seq<int>, sliceSize: nat, rank: nat, mpiSize: nat, l: nat, startOffset: nat)
    requires startOffset == sliceSize * (rank + mpiSize * l) < |file| && sliceSize > 0
    ensures RankSlice(file, sliceSize, rank, mpiSize, l) == Part(file, startOffset, startOffset + sliceSize) != []
  {
    SliceStep(sliceSize, rank + mpiSize * l);
  }

  lemma NotEmpty(s: seq<int>)
    requires s != []
    ensures SortOf(s) != []
  {
    SortSorts(s);
    assert s[0] in multiset(SortOf(s));
  }

  lemma RunsMore(file: seq<int>, sliceSize: nat, rank: nat, mpiSize: nat, runs: seq<seq<int>>, run: seq<int>)
    requires RunsOf(file, sliceSize, rank, mpiSize, runs)
             && run == SortOf(RankSlice(file, sliceSize, rank, mpiSize, |runs|)) && run != []
    ensures RunsOf(file, sliceSize, rank, mpiSize, runs + [run])
  {
  }

  lemma LaterSlices(file: seq<int>, sliceSize: nat, rank: nat, mpiSize: nat, l: nat, maxLoop: nat)
    requires sliceSize * (rank + mpiSize * l) >= |file|
    ensures forall m: nat :: l <= m < maxLoop ==> RankSlice(file, sliceSize, rank, mpiSize, m) == []
  {
    forall m: nat | l <= m < maxLoop ensures RankSlice(file, sliceSize, rank, mpiSize, m) == [] {
      Bits.DistributeRight(l, m - l, mpiSize);
      Times(rank + mpiSize * l, rank + mpiSize * m, sliceSize);
      SliceStep(sliceSize, rank + mpiSize * m);
    }
  }

  lemma Times(a: int, b: int, c: nat)
    requires a <= b
    ensures a * c <= b * c
  {
  }

  // ----- the slices make up the file

  /** The elements of the slices from a up to before b. */
  function Slices(file: seq<int>, sliceSize: nat, a: nat, b: nat): multiset<int>
    requires a <= b
    decreases b
  {
    if a == b then multiset{} else Slices(file, sliceSize, a, b - 1) + multiset(Slice(file, sliceSize, b - 1))
  }

  lemma {:induction false} SlicesAre(file: seq<int>, sliceSize: nat, q: nat)
    ensures Slices(file, sliceSize, 0, q) == multiset(file[..Min(q * sliceSize, |file|)])
  {
    if q > 0 {
      SlicesAre(file, sliceSize, q - 1);
      SliceStep(sliceSize, q - 1);
      var a, b := Min((q - 1) * sliceSize, |file|), Min(q * sliceSize, |file|);
      assert file[..b] == file[..a] + file[a..b];
    }
  }

  /** The slices of one rank. */
  function RankSlices(file: seq<int>, sliceSize: nat, rank: nat, mpiSize: nat, loops: nat): multiset<int> {
    if loops == 0 then multiset{}
    else
      RankSlices(file, sliceSize, rank, mpiSize, loops - 1)
      + multiset(RankSlice(file, sliceSize, rank, mpiSize, loops - 1))
  }

  function AllRanks(file: seq<int>, sliceSize: nat, ranks: nat, mpiSize: nat, loops: nat): multiset<int> {
    if ranks == 0 then multiset{}
    else AllRanks(file, sliceSize, ranks - 1, mpiSize, loops) + RankSlices(file, sliceSize, ranks - 1, mpiSize, loops)
  }

  lemma {:induction false} SlicesSplit(file: seq<int>, sliceSize: nat, a: nat, b: nat)
    requires a <= b
    ensures Slices(file, sliceSize, 0, b) == Slices(file, sliceSize, 0, a) + Slices(file, sliceSize, a, b)
    decreases b
  {
    if a < b { SlicesSplit(file, sliceSize, a, b - 1); }
  }

  lemma {:induction false} OneMoreLoop(file: seq<int>, sliceSize: nat, ranks: nat, mpiSize: nat, loops: nat)
    ensures AllRanks(file, sliceSize, ranks, mpiSize, loops + 1)
            == AllRanks(file, sliceSize, ranks, mpiSize, loops)
                + Slices(file, sliceSize, mpiSize * loops, mpiSize * loops + ranks)
  {
    hide *;
    var k := mpiSize * loops;
    if ranks == 0 {
      NoRanks(file, sliceSize, mpiSize, loops);
      NoRanks(file, sliceSize, mpiSize, loops + 1);
      NoSlices(file, sliceSize, k);
    } else {
      OneMoreLoop(file, sliceSize, ranks - 1, mpiSize, loops);
      OneMoreRank(file, sliceSize, ranks, mpiSize, loops);
      OneMoreRank(file, sliceSize, ranks, mpiSize, loops + 1);
      OneMoreTurn(file, sliceSize, ranks - 1, mpiSize, loops);
      OneMoreSlice(file, sliceSize, k, k + ranks);
      assert k + ranks - 1 == ranks - 1 + k;
      Regroup(AllRanks(file, sliceSize, ranks - 1, mpiSize, loops), Slices(file, sliceSize, k, k + ranks - 1),
              RankSlices(file, sliceSize, ranks - 1, mpiSize, loops), multiset(Slice(file, sliceSize, k + ranks - 1)));
    }
  }

  lemma Regroup(a: multiset<int>, b: multiset<int>, c: multiset<int>, d: multiset<int>)
    ensures (a + b) + (c + d) == (a + c) + (b + d)
  {
  }

  lemma NoRanks(file: seq<int>, sliceSize: nat, mpiSize: nat, loops: nat)
    ensures AllRanks(file, sliceSize, 0, mpiSize, loops) == multiset{}
  {
  }

  lemma NoSlices(file: seq<int>, sliceSize: nat, k: nat)
    ensures Slices(file, sliceSize, k, k) == multiset{}
  {
  }

  lemma OneMoreRank(file: seq<int>, sliceSize: nat, ranks: nat, mpiSize: nat, loops: nat)
    requires ranks > 0
    ensures AllRanks(file, sliceSize, ranks, mpiSize, loops)
            == AllRanks(file, sliceSize, ranks - 1, mpiSize, loops)
                + RankSlices(file, sliceSize, ranks - 1, mpiSize, loops)
  {
  }

  lemma OneMoreTurn(file: seq<int>, sliceSize: nat, rank: nat, mpiSize: nat, loops: nat)
    ensures RankSlices(file, sliceSize, rank, mpiSize, loops + 1)
            == RankSlices(file, sliceSize, rank, mpiSize, loops)
                + multiset(Slice(file, sliceSize, rank + mpiSize * loops))
  {
    assert RankSlices(file, sliceSize, rank, mpiSize, loops + 1)
           == RankSlices(file, sliceSize, rank, mpiSize, loops)
               + multiset(RankSlice(file, sliceSize, rank, mpiSize, loops));
  }

  lemma OneMoreSlice(file: seq<int>, sliceSize: nat, a: nat, b: nat)
    requires a < b
    ensures Slices(file, sliceSize, a, b) == Slices(file, sliceSize, a, b - 1) + multiset(Slice(file, sliceSize, b - 1))
  {
  }

  lemma {:induction false} NoLoops(file: seq<int>, sliceSize: nat, ranks: nat, mpiSize: nat)
    ensures AllRanks(file, sliceSize, ranks, mpiSize, 0) == multiset{}
  {
    if ranks > 0 { NoLoops(file, sliceSize, ranks - 1, mpiSize); }
  }

  /** Rank by rank or slice by slice: the same elements. */
  lemma {:induction false} RanksAreSlices(file: seq<int>, sliceSize: nat, mpiSize: nat, loops: nat)
    ensures AllRanks(file, sliceSize, mpiSize, mpiSize, loops) == Slices(file, sliceSize, 0, mpiSize * loops)
    decreases loops
  {
    hide *;
    if loops == 0 {
      NoLoops(file, sliceSize, mpiSize, mpiSize);
      NoSlices(file, sliceSize, 0);
      assert mpiSize * loops == 0;
    } else {
      var k := mpiSize * (loops - 1);
      TurnStep(mpiSize, loops);
      RanksAreSlices(file, sliceSize, mpiSize, loops - 1);
      OneMoreLoop(file, sliceSize, mpiSize, mpiSize, loops - 1);
      SlicesSplit(file, sliceSize, k, k + mpiSize);
    }
  }

  lemma TurnStep(mpiSize: nat, loops: nat)
    requires loops > 0
    ensures mpiSize * loops == mpiSize * (loops - 1) + mpiSize
  {
  }

  /** The slices that main chooses cover the file. */
  lemma SlicesCover(file: seq<int>, mpiSize: nat, ram: nat, sliceSize: nat, loops: nat)
    requires mpiSize > 0 && ram > 0
    requires if |file| / mpiSize >= ram then sliceSize == ram && loops == |file| / (ram * mpiSize) + 1
             else sliceSize == |file| / mpiSize + 1 && loops == 1
    ensures mpiSize * loops * sliceSize >= |file|
  {
    if |file| / mpiSize >= ram {
      var w := ram * mpiSize;
      Times(1, ram, mpiSize);
      assert |file| == (|file| / w) * w + |file| % w;
      assert loops * w == (|file| / w) * w + w by { Bits.DistributeRight(|file| / w, 1, w); }
      Shuffle(mpiSize, loops, ram);
    } else {
      assert |file| == (|file| / mpiSize) * mpiSize + |file| % mpiSize;
      assert mpiSize * sliceSize == (|file| / mpiSize) * mpiSize + mpiSize;
    }
  }

  lemma Shuffle(a: nat, b: nat, c: nat)
    ensures a * b * c == b * (c * a)
  {
  }

  /** All ranks together hold each element of the file exactly once. */
  lemma PartitionOfFile(file: seq<int>, mpiSize: nat, sliceSize: nat, loops: nat)
    requires mpiSize * loops * sliceSize >= |file|
    ensures AllRanks(file, sliceSize, mpiSize, mpiSize, loops) == multiset(file)
  {
    hide *;
    RanksAreSlices(file, sliceSize, mpiSize, loops);
    SlicesAre(file, sliceSize, mpiSize * loops);
    MinIs(mpiSize * loops * sliceSize, |file|);
    assert file[..|file|] == file;
  }

  lemma MinIs(a: nat, b: nat)
    requires a >= b
    ensures Min(a, b) == b
  {
  }

  // ----- the merge

  function Total(runs: seq<seq<int>>): multiset<int> {
    if runs == [] then multiset{} else multiset(runs[0]) + Total(runs[1..])
  }

  /** What is left of the runs behind the given positions. */
  function Remaining(runs: seq<seq<int>>, nxt: seq<nat>): multiset<int>
    requires |nxt| == |runs| && forall r :: 0 <= r < |runs| ==> nxt[r] <= |runs[r]|
  {
    if runs == [] then multiset{} else multiset(runs[0][nxt[0]..]) + Remaining(runs[1..], nxt[1..])
  }

  lemma RemainingCons(runs: seq<seq<int>>, nxt: seq<nat>)
    requires |nxt| == |runs| > 0 && forall r :: 0 <= r < |runs| ==> nxt[r] <= |runs[r]|
    ensures Remaining(runs, nxt) == multiset(runs[0][nxt[0]..]) + Remaining(runs[1..], nxt[1..])
  {
  }

  lemma {:induction false} RemainingStep(runs: seq<seq<int>>, nxt: seq<nat>, r: nat)
    requires |nxt| == |runs| && (forall q :: 0 <= q < |runs| ==> nxt[q] <= |runs[q]|) && r < |runs|
             && nxt[r] < |runs[r]|
    ensures Remaining(runs, nxt) == Remaining(runs, nxt[r := nxt[r] + 1]) + multiset{runs[r][nxt[r]]}
  {
    hide *;
    var nxt' := nxt[r := nxt[r] + 1];
    RemainingCons(runs, nxt);
    RemainingCons(runs, nxt');
    if r == 0 {
      HeadOff(runs[0], nxt[0]);
      assert nxt'[1..] == nxt[1..];
    } else {
      assert nxt'[1..] == nxt[1..][r - 1 := nxt[r] + 1];
      RemainingStep(runs[1..], nxt[1..], r - 1);
    }
  }

  lemma HeadOff(s: seq<int>, k: nat)
    requires k < |s|
    ensures multiset(s[k..]) == multiset(s[k + 1..]) + multiset{s[k]}
  {
    assert s[k..] == [s[k]] + s[k + 1..];
  }

  lemma {:induction false} NothingRemains(runs: seq<seq<int>>, nxt: seq<nat>)
    requires |nxt| == |runs| && forall q :: 0 <= q < |runs| ==> nxt[q] == |runs[q]|
    ensures Remaining(runs, nxt) == multiset{}
  {
    if runs != [] {
      NothingRemains(runs[1..], nxt[1..]);
      assert runs[0][nxt[0]..] == [];
    }
  }

  lemma {:induction false} AllRemains(runs: seq<seq<int>>, nxt: seq<nat>)
    requires |nxt| == |runs| && forall q :: 0 <= q < |runs| ==> nxt[q] == 0
    ensures Remaining(runs, nxt) == Total(runs)
  {
    if runs != [] {
      AllRemains(runs[1..], nxt[1..]);
      assert runs[0][0..] == runs[0];
    }
  }

  /** The heap holds the next element of every run that is not used up, together with the number of the run. */
  ghost predicate Heads(runs: seq<seq<int>>, nxt: seq<nat>, heap: set<(int, nat)>) {
    && |nxt| == |runs| && (forall r :: 0 <= r < |runs| ==> nxt[r] <= |runs[r]|)
    && forall p :: p in heap <==> p.1 < |runs| && nxt[p.1] < |runs[p.1]| && p.0 == runs[p.1][nxt[p.1]]
  }

  /** The order of the heap: by value, then by number. */
  predicate AtMost(p: (int, nat), q: (int, nat)) {
    p.0 < q.0 || (p.0 == q.0 && p.1 <= q.1)
  }

  predicate IsLeast(heap: set<(int, nat)>, p: (int, nat)) {
    p in heap && forall q :: q in heap ==> AtMost(p, q)
  }

  lemma LeastExists(heap: set<(int, nat)>) returns (p: (int, nat))
    requires heap != {}
    ensures IsLeast(heap, p)
    decreases heap
  {
    var q :| q in heap;
    var rest := heap - {q};
    if rest == {} {
      p := q;
      forall r | r in heap ensures AtMost(p, r) { assert r == q || r in rest; }
    } else {
      var p' := LeastExists(rest);
      p := if AtMost(q, p') then q else p';
      forall r | r in heap ensures AtMost(p, r) {
        assert r == q || r in rest;
        if r != q { assert AtMost(p', r); }
      }
    }
  }

  /** minHeap.top(). */
  method Top(heap: set<(int, nat)>) returns (p: (int, nat))
    requires heap != {}
    ensures IsLeast(heap, p)
  {
    ghost var l := LeastExists(heap);
    p :| p in heap && IsLeast(heap, p);
  }

  ghost predicate Below(written: seq<int>, heap: set<(int, nat)>) {
    forall k, p :: 0 <= k < |written| && p in heap ==> written[k] <= p.0
  }

  /** What has been put out is sorted, below everything in the heap, and together with what remains it is everything. */
  ghost predicate Merged(runs: seq<seq<int>>, nxt: seq<nat>, heap: set<(int, nat)>, written: seq<int>) {
    && Heads(runs, nxt, heap) && Sorted(written)
    && Below(written, heap)
    && multiset(written) + Remaining(runs, nxt) == Total(runs)
  }

  lemma MergeOne(runs: seq<seq<int>>, nxt: seq<nat>,
                 heap: set<(int, nat)>, written: seq<int>, top: (int, nat), heap': set<(int, nat)>)
    requires forall r :: 0 <= r < |runs| ==> Sorted(runs[r])
    requires Merged(runs, nxt, heap, written) && IsLeast(heap, top)
    requires var r, n := top.1, nxt[top.1] + 1;
             heap' == heap - {top} + if n < |runs[r]| then {(runs[r][n], r)} else {}
    ensures Merged(runs, nxt[top.1 := nxt[top.1] + 1], heap', written + [top.0])
    ensures |Remaining(runs, nxt[top.1 := nxt[top.1] + 1])| < |Remaining(runs, nxt)|
  {
    hide *;
    MergedIs(runs, nxt, heap, written, top);
    var r := top.1;
    var nxt' := nxt[r := nxt[r] + 1];
    RemainingStep(runs, nxt, r);
    HeadsStep(runs, nxt, heap, top, heap');
    HeadsBound(runs, nxt', heap');
    LeastStays(runs, nxt, heap, top, heap');
    BelowHeap(written, heap, top, heap');
    SortedSnoc(written, top.0);
    assert multiset(written + [top.0]) == multiset(written) + multiset{top.0};
    IsMerged(runs, nxt', heap', written + [top.0]);
  }

  lemma MergedIs(runs: seq<seq<int>>, nxt: seq<nat>, heap: set<(int, nat)>, written: seq<int>, top: (int, nat))
    requires Merged(runs, nxt, heap, written) && IsLeast(heap, top)
    ensures Heads(runs, nxt, heap) && |nxt| == |runs| && (forall r :: 0 <= r < |runs| ==> nxt[r] <= |runs[r]|)
            && Sorted(written)
    ensures top in heap && top.1 < |runs| && nxt[top.1] < |runs[top.1]| && top.0 == runs[top.1][nxt[top.1]]
    ensures Below(written, heap) && multiset(written) + Remaining(runs, nxt) == Total(runs)
  {
  }

  lemma IsMerged(runs: seq<seq<int>>, nxt: seq<nat>, heap: set<(int, nat)>, written: seq<int>)
    requires |nxt| == |runs| && forall r :: 0 <= r < |runs| ==> nxt[r] <= |runs[r]|
    requires Heads(runs, nxt, heap) && Sorted(written) && Below(written, heap)
    requires multiset(written) + Remaining(runs, nxt) == Total(runs)
    ensures Merged(runs, nxt, heap, written)
  {
  }

  lemma HeadsBound(runs: seq<seq<int>>, nxt: seq<nat>, heap: set<(int, nat)>)
    requires Heads(runs, nxt, heap)
    ensures |nxt| == |runs| && forall r :: 0 <= r < |runs| ==> nxt[r] <= |runs[r]|
  {
  }

  /** The element that follows the least one is not less. */
  lemma LeastStays(runs: seq<seq<int>>, nxt: seq<nat>, heap: set<(int, nat)>, top: (int, nat), heap': set<(int, nat)>)
    requires (forall r :: 0 <= r < |runs| ==> Sorted(runs[r])) && IsLeast(heap, top)
    requires top.1 < |runs| && |nxt| == |runs| && nxt[top.1] < |runs[top.1]| && top.0 == runs[top.1][nxt[top.1]]
    requires var r, n := top.1, nxt[top.1] + 1;
             heap' == heap - {top} + if n < |runs[r]| then {(runs[r][n], r)} else {}
    ensures forall p :: p in heap' ==> top.0 <= p.0
  {
    var r, n := top.1, nxt[top.1] + 1;
    assert n < |runs[r]| ==> runs[r][nxt[r]] <= runs[r][n];
  }

  lemma SortedSnoc(s: seq<int>, x: int)
    requires Sorted(s) && forall k :: 0 <= k < |s| ==> s[k] <= x
    ensures Sorted(s + [x])
  {
  }

  lemma BelowHeap(written: seq<int>, heap: set<(int, nat)>, top: (int, nat), heap': set<(int, nat)>)
    requires Below(written, heap) && top in heap && forall p :: p in heap' ==> top.0 <= p.0
    ensures forall k :: 0 <= k < |written| ==> written[k] <= top.0
    ensures Below(written + [top.0], heap')
  {
  }

  lemma HeadsStep(runs: seq<seq<int>>, nxt: seq<nat>, heap: set<(int, nat)>, top: (int, nat), heap': set<(int, nat)>)
    requires Heads(runs, nxt, heap) && top in heap
    requires var r, n := top.1, nxt[top.1] + 1;
             heap' == heap - {top} + if n < |runs[r]| then {(runs[r][n], r)} else {}
    ensures Heads(runs, nxt[top.1 := nxt[top.1] + 1], heap')
  {
    var r := top.1;
    var nxt' := nxt[r := nxt[r] + 1];
    forall p: (int, nat)
        ensures p in heap' <==> p.1 < |runs| && nxt'[p.1] < |runs[p.1]| && p.0 == runs[p.1][nxt'[p.1]] {
      if p.1 == r { assert p in heap ==> p == top; }
    }
  }

  /** The read positions of the run files: one element of each run that is not used up is in the heap. */
  ghost predicate ReadUpTo(runs: seq<seq<int>>, nxt: seq<nat>, pos: seq<nat>) {
    && |pos| == |nxt| == |runs|
    && forall r :: 0 <= r < |runs| ==>
       nxt[r] <= |runs[r]| && pos[r] == if nxt[r] < |runs[r]| then nxt[r] + 1 else |runs[r]|
  }

  /** kMerge: the merged file is sorted and holds exactly the elements of the runs. */
  method KMerge(runs: seq<seq<int>>, bufferSize: nat) returns (finalFile: seq<int>)
    requires bufferSize > 0 && forall r :: 0 <= r < |runs| ==> Sorted(runs[r])
    ensures Sorted(finalFile) && multiset(finalFile) == Total(runs)
  {
    hide *;
    ghost var nxt: seq<nat>;
    var heap, pos;
    heap, pos, nxt := FirstHeads(runs);
    var bufferWrit := new int[bufferSize];
    finalFile := [];
    ghost var written: seq<int> := [];
    var i: nat := 0;
    NothingWritten(bufferWrit[..]);
    while heap != {}
      invariant Merged(runs, nxt, heap, written) && ReadUpTo(runs, nxt, pos)
      invariant bufferWrit.Length > 0 && Flushed(written, finalFile, bufferWrit[..], i, heap == {})
      invariant |nxt| == |runs| && forall r :: 0 <= r < |runs| ==> nxt[r] <= |runs[r]|
      decreases |Remaining(runs, nxt)|
    {
      var top := Top(heap);
      MergedIs(runs, nxt, heap, written, top);
      var heap';
      heap', pos := NextFromRun(runs, pos, heap, top, nxt);
      MergeOne(runs, nxt, heap, written, top, heap');
      finalFile := PutOut(bufferWrit, finalFile, i, top.0, heap' == {}, written);
      nxt := nxt[top.1 := nxt[top.1] + 1];
      written := written + [top.0];
      heap := heap';
      i := i + 1;
    }
    AllMerged(runs, nxt, heap, written);
    AllFlushed(written, finalFile, bufferWrit[..], i);
  }

  /** The top of the heap is replaced by the next element of its run, or dropped if there is none. */
  method NextFromRun(runs: seq<seq<int>>, pos: seq<nat>, heap: set<(int, nat)>, top: (int, nat), ghost nxt: seq<nat>)
    returns (heap': set<(int, nat)>, pos': seq<nat>)
    requires ReadUpTo(runs, nxt, pos) && top.1 < |runs| == |nxt| && nxt[top.1] < |runs[top.1]|
    ensures var r, n := top.1, nxt[top.1] + 1;
            heap' == heap - {top} + if n < |runs[r]| then {(runs[r][n], r)} else {}
    ensures ReadUpTo(runs, nxt[top.1 := nxt[top.1] + 1], pos')
  {
    heap', pos' := heap - {top}, pos;
    if pos[top.1] < |runs[top.1]| {
      heap' := heap' + {(runs[top.1][pos[top.1]], top.1)};
      pos' := pos[top.1 := pos[top.1] + 1];
    }
  }

  /** Element number i goes into the buffer, which is written out when it is full or the heap is empty. */
  method PutOut(bufferWrit: array<int>, finalFile: seq<int>, i: nat, x: int, last: bool, ghost written: seq<int>)
    returns (finalFile': seq<int>)
    requires bufferWrit.Length > 0 && Flushed(written, finalFile, bufferWrit[..], i, false)
    modifies bufferWrit
    ensures Flushed(written + [x], finalFile', bufferWrit[..], i + 1, last)
  {
    hide *;
    ghost var B := bufferWrit[..];
    Buffered(written, finalFile, B, i, x);
    Slot(i, bufferWrit.Length);
    bufferWrit[i % bufferWrit.Length] := x;
    assert bufferWrit[..] == B[i % bufferWrit.Length := x];
    finalFile' := finalFile;
    if (i + 1) % bufferWrit.Length == 0 || last {
      finalFile' := finalFile + bufferWrit[..i % bufferWrit.Length + 1];
    }
  }

  lemma NothingWritten(buffer: seq<int>)
    requires |buffer| > 0
    ensures Flushed([], [], buffer, 0, true) && Flushed([], [], buffer, 0, false)
  {
    Slot(0, |buffer|);
    assert 0 % |buffer| == 0 by { Bits.DivUnique(0, |buffer|, 0, 0); }
    assert buffer[..0] == [];
  }

  lemma AllFlushed(written: seq<int>, file: seq<int>, buffer: seq<int>, i: nat)
    requires |buffer| > 0 && Flushed(written, file, buffer, i, true)
    ensures file == written
  {
  }

  lemma AllMerged(runs: seq<seq<int>>, nxt: seq<nat>, heap: set<(int, nat)>, written: seq<int>)
    requires Merged(runs, nxt, heap, written) && heap == {}
    ensures Sorted(written) && multiset(written) == Total(runs)
  {
    forall q | 0 <= q < |runs| ensures nxt[q] == |runs[q]| {
      HeadIsThere(runs, nxt, heap, q);
    }
    NothingRemains(runs, nxt);
  }

  lemma HeadIsThere(runs: seq<seq<int>>, nxt: seq<nat>, heap: set<(int, nat)>, q: nat)
    requires Heads(runs, nxt, heap) && q < |runs|
    ensures nxt[q] == |runs[q]| || heap != {}
  {
    if nxt[q] < |runs[q]| { assert (runs[q][nxt[q]], q) in heap; }
  }

  /** The first element of every run goes into the heap. */
  method FirstHeads(runs: seq<seq<int>>) returns (heap: set<(int, nat)>, pos: seq<nat>, ghost nxt: seq<nat>)
    ensures Merged(runs, nxt, heap, []) && ReadUpTo(runs, nxt, pos)
    ensures |nxt| == |runs| && forall r :: 0 <= r < |runs| ==> nxt[r] <= |runs[r]|
  {
    heap := {};
    pos := seq(|runs|, _ => 0);
    nxt := seq(|runs|, _ => 0);
    for r := 0 to |runs|
      invariant |pos| == |runs| && forall q :: 0 <= q < |runs| ==> pos[q] == if q < r && 0 < |runs[q]| then 1 else 0
      invariant forall p :: p in heap <==> p.1 < r && 0 < |runs[p.1]| && p.0 == runs[p.1][0]
    {
      if pos[r] < |runs[r]| {
        heap := heap + {(runs[r][pos[r]], r)};
        pos := pos[r := pos[r] + 1];
      }
    }
    AllRemains(runs, nxt);
  }

  // ----- the program

  lemma {:induction false} TotalAppend(a: seq<seq<int>>, b: seq<seq<int>>)
    ensures Total(a + b) == Total(a) + Total(b)
  {
    if a == [] {
      assert a + b == b;
    } else {
      assert (a + b)[1..] == a[1..] + b;
      TotalAppend(a[1..], b);
    }
  }

  lemma {:induction false} TotalOfRank(file: seq<int>, sliceSize: nat, rank: nat, mpiSize: nat, runs: seq<seq<int>>,
                                       loops: nat)
    requires RunsOf(file, sliceSize, rank, mpiSize, runs) && |runs| <= loops
    requires forall l: nat :: |runs| <= l < loops ==> RankSlice(file, sliceSize, rank, mpiSize, l) == []
    ensures Total(runs) == RankSlices(file, sliceSize, rank, mpiSize, loops)
    ensures forall l :: 0 <= l < |runs| ==> Sorted(runs[l])
    decreases loops
  {
    hide *;
    if loops == 0 {
      NothingOfRank(file, sliceSize, rank, mpiSize, runs);
    } else {
      RankMore(file, sliceSize, rank, mpiSize, loops);
      if |runs| == loops {
        var k := loops - 1;
        LastRun(file, sliceSize, rank, mpiSize, runs, k);
        TotalOfRank(file, sliceSize, rank, mpiSize, runs[..k], k);
        TotalSnoc(runs, k);
        SortSorts(RankSlice(file, sliceSize, rank, mpiSize, k));
        forall l | 0 <= l < |runs| ensures Sorted(runs[l]) {
          if l < k { assert runs[..k][l] == runs[l]; }
        }
      } else {
        TotalOfRank(file, sliceSize, rank, mpiSize, runs, loops - 1);
        assert RankSlice(file, sliceSize, rank, mpiSize, loops - 1) == [];
      }
    }
  }

  lemma NothingOfRank(file: seq<int>, sliceSize: nat, rank: nat, mpiSize: nat, runs: seq<seq<int>>)
    requires runs == []
    ensures Total(runs) == RankSlices(file, sliceSize, rank, mpiSize, 0)
  {
  }

  lemma LastRun(file: seq<int>, sliceSize: nat, rank: nat, mpiSize: nat, runs: seq<seq<int>>, k: nat)
    requires RunsOf(file, sliceSize, rank, mpiSize, runs) && |runs| == k + 1
    ensures runs[k] == SortOf(RankSlice(file, sliceSize, rank, mpiSize, k))
            && RunsOf(file, sliceSize, rank, mpiSize, runs[..k])
  {
  }

  lemma RankMore(file: seq<int>, sliceSize: nat, rank: nat, mpiSize: nat, loops: nat)
    requires loops > 0
    ensures RankSlices(file, sliceSize, rank, mpiSize, loops)
            == RankSlices(file, sliceSize, rank, mpiSize, loops - 1)
                + multiset(RankSlice(file, sliceSize, rank, mpiSize, loops - 1))
  {
  }

  lemma TotalSnoc(runs: seq<seq<int>>, k: nat)
    requires |runs| == k + 1
    ensures Total(runs) == Total(runs[..k]) + multiset(runs[k])
  {
    assert runs == runs[..k] + [runs[k]];
    TotalAppend(runs[..k], [runs[k]]);
    assert [runs[k]][1..] == [];
  }

  /** One element of a list more or less. */
  lemma TotalWithout(runs: seq<seq<int>>, i: nat, rest: seq<seq<int>>)
    requires i < |runs| && rest == runs[..i] + runs[i + 1..]
    ensures Total(runs) == Total(rest) + multiset(runs[i])
    ensures multiset(runs) == multiset(rest) + multiset{runs[i]}
  {
    assert runs == runs[..i] + ([runs[i]] + runs[i + 1..]);
    TotalAppend(runs[..i], [runs[i]] + runs[i + 1..]);
    TotalAppend([runs[i]], runs[i + 1..]);
    TotalAppend(runs[..i], runs[i + 1..]);
    assert [runs[i]][1..] == [];
  }

  /** The runs in whatever order the directory lists them. */
  lemma {:induction false} TotalOfListing(runs: seq<seq<int>>, listed: seq<seq<int>>)
    requires multiset(runs) == multiset(listed)
    ensures Total(runs) == Total(listed)
    decreases |runs|
  {
    if runs == [] {
      assert |multiset(listed)| == 0;
    } else {
      hide *;
      assert runs[0] in multiset(listed);
      var i :| 0 <= i < |listed| && listed[i] == runs[0];
      var rest := listed[..i] + listed[i + 1..];
      assert runs[1..] == runs[..0] + runs[0 + 1..];
      TotalWithout(listed, i, rest);
      TotalWithout(runs, 0, runs[1..]);
      SameRest(multiset(runs[1..]), multiset(rest), runs[0]);
      TotalOfListing(runs[1..], rest);
    }
  }

  lemma SameRest<T>(a: multiset<T>, b: multiset<T>, x: T)
    requires a + multiset{x} == b + multiset{x}
    ensures a == b
  {
    assert a == (a + multiset{x}) - multiset{x} && b == (b + multiset{x}) - multiset{x};
  }

  /** The whole program: for every file, number of ranks, memory size and buffer sizes, and whatever order the
      run files are listed in, the final file is the sorted input. */
  method SortFile(file: seq<int>, mpiSize: nat, ramNum: nat, readSize: nat, writeSize: nat)
    returns (finalFile: seq<int>)
    requires mpiSize > 0 && ramNum > 0 && readSize > 0 && writeSize > 0
    ensures Sorted(finalFile) && multiset(finalFile) == multiset(file)
  {
    var sliceSize, maxLoop := Slicing(file, mpiSize, ramNum);
    var runs := AllRuns(file, sliceSize, maxLoop, mpiSize, readSize, writeSize);
    PartitionOfFile(file, mpiSize, sliceSize, maxLoop);
    hide *;
    ListingExists(runs);
    var listed :| Listing(listed, runs);
    ListingIs(listed, runs);
    TotalOfListing(runs, listed);
    forall r | 0 <= r < |listed| ensures Sorted(listed[r]) {
      assert listed[r] in multiset(listed);
      assert listed[r] in multiset(runs);
    }
    finalFile := KMerge(listed, writeSize);
  }

  /** The run files in some order. */
  predicate Listing(listed: seq<seq<int>>, runs: seq<seq<int>>) {
    multiset(listed) == multiset(runs)
  }

  lemma ListingExists(runs: seq<seq<int>>)
    ensures exists listed :: Listing(listed, runs)
  {
    assert Listing(runs, runs);
  }

  lemma ListingIs(listed: seq<seq<int>>, runs: seq<seq<int>>)
    requires Listing(listed, runs)
    ensures multiset(listed) == multiset(runs)
  {
  }

  /** The load balancer in main. */
  method Slicing(file: seq<int>, mpiSize: nat, ramNum: nat) returns (sliceSize: nat, maxLoop: nat)
    requires mpiSize > 0 && ramNum > 0
    ensures sliceSize > 0 && mpiSize * maxLoop * sliceSize >= |file| && sliceSize <= ramNum
  {
    var slices := mpiSize;
    Bits.DivNonNegative(|file|, mpiSize);
    sliceSize, maxLoop := |file| / slices, 1;
    if sliceSize >= ramNum {
      RamSlices(ramNum, mpiSize);
      Bits.DivNonNegative(|file|, ramNum * mpiSize);
      maxLoop := |file| / (ramNum * mpiSize) + 1;
      sliceSize := ramNum;
    } else {
      sliceSize := sliceSize + 1;
    }
    SlicesCover(file, mpiSize, ramNum, sliceSize, maxLoop);
  }

  /** The sorted runs of all ranks. */
  method AllRuns(file: seq<int>, sliceSize: nat, maxLoop: nat, mpiSize: nat, readSize: nat, writeSize: nat)
    returns (runs: seq<seq<int>>)
    requires sliceSize > 0 && readSize > 0 && writeSize > 0
    ensures Total(runs) == AllRanks(file, sliceSize, mpiSize, mpiSize, maxLoop)
            && forall r :: 0 <= r < |runs| ==> Sorted(runs[r])
  {
    runs := [];
    for rank := 0 to mpiSize
      invariant Total(runs) == AllRanks(file, sliceSize, rank, mpiSize, maxLoop)
                && forall r :: 0 <= r < |runs| ==> Sorted(runs[r])
    {
      hide *;
      var more := SortedRuns(file, sliceSize, maxLoop, rank, mpiSize, readSize, writeSize);
      TotalOfRank(file, sliceSize, rank, mpiSize, more, maxLoop);
      TotalAppend(runs, more);
      OneMoreRank(file, sliceSize, rank + 1, mpiSize, maxLoop);
      runs := runs + more;
    }
  }

  lemma RamSlices(ram: nat, mpiSize: nat)
    requires ram > 0 && mpiSize > 0
    ensures ram * mpiSize > 0
  {
    Times(1, ram, mpiSize);
  }
}
