/** The hash chains of the compressor: what they hold, and where a search along them leads. */
module HashChain {
  // A chain links the positions whose next three bytes have the same hash, the latest first. The links are positions
  // in 16 bits; 0 ends a chain.

  import opened Arith
  import opened Bits
  import opened Wrappers
  import opened BitStream
  import opened LzMatching

  type U16 = x: int | 0 <= x < 0x1_0000

  const LZ_HASH_BITS := 15
  const LZ_HASH_SIZE := 32768

  function HashStep(h: nat, c: Byte): (r: nat)
    ensures r < LZ_HASH_SIZE
  {
    Pow2Values();
    Low(Xor(h * 32, c), LZ_HASH_BITS)
  }

  function HashTwo(a: nat, b: nat): nat {
    Xor(a * 32, b)
  }

  // ----- the hash rolls on from byte to byte

  lemma {:induction false} XorLow(x: nat, y: nat, k: nat)
    ensures Xor(x, y) % Pow2(k) == Xor(x % Pow2(k), y % Pow2(k))
  {
    if k == 0 {
      assert Pow2(0) == 1;
    } else {
      XorLow(x / 2, y / 2, k - 1);
      HalfLow(x, Pow2(k - 1));
      HalfLow(y, Pow2(k - 1));
      XorStep(x, y);
      HalfLow(Xor(x, y), Pow2(k - 1));
      XorStep(x % Pow2(k), y % Pow2(k));
    }
  }

  lemma XorStep(x: nat, y: nat)
    ensures Xor(x, y) % 2 == (if x % 2 != y % 2 then 1 else 0) && Xor(x, y) / 2 == Xor(x / 2, y / 2)
  {
  }

  lemma HalfLow(x: nat, m: nat)
    requires m > 0
    ensures x % (2 * m) % 2 == x % 2 && x % (2 * m) / 2 == x / 2 % m
  {
    var q, r := x / 2 / m, x / 2 % m;
    assert x == (2 * m) * q + (2 * r + x % 2) by {
      assert x / 2 == m * q + r;
      MulAssoc(2, m, q);
    }
    DivUnique(x, 2 * m, q, 2 * r + x % 2);
  }

  lemma {:induction false} XorZero(y: nat)
    ensures Xor(0, y) == y
  {
    if y > 0 { XorZero(y / 2); }
  }

  lemma {:induction false} XorTells(x: nat, y: nat, z: nat)
    requires Xor(x, y) == Xor(x, z)
    ensures y == z
    decreases y + z
  {
    XorStep(x, y);
    XorStep(x, z);
    if y + z > 0 { XorTells(x / 2, y / 2, z / 2); }
  }

  lemma {:induction false} XorSwap(x: nat, y: nat)
    ensures Xor(x, y) == Xor(y, x)
    decreases x + y
  {
    if x + y > 0 { XorSwap(x / 2, y / 2); }
  }

  lemma PowersAre()
    ensures Pow2(5) == 32 && Pow2(8) == 256 && Pow2(10) == 1024 && Pow2(15) == 32768
  {
    assert Pow2(1) == 2 && Pow2(3) == 8 && Pow2(5) == 4 * Pow2(3) && Pow2(7) == 4 * Pow2(5) && Pow2(9) == 4 * Pow2(7);
    assert Pow2(11) == 4 * Pow2(9) && Pow2(13) == 4 * Pow2(11) && Pow2(15) == 4 * Pow2(13);
  }

  lemma StepIs(h: nat, c: Byte)
    ensures HashStep(h, c) == Xor(h % 1024 * 32, c)
  {
    PowersAre();
    assert HashStep(h, c) == Xor(h * 32, c) % Pow2(15);
    hide *;
    XorLow(h * 32, c, 15);
    TimesLow(h, 1024);
    SmallLow(c, 32768);
  }

  lemma TwoIs(a: nat, b: Byte)
    ensures HashTwo(a, b) % 1024 == Xor(a % 32 * 32, b) && HashTwo(a, b) % 32 == b % 32
  {
    PowersAre();
    assert HashTwo(a, b) == Xor(a * 32, b);
    hide *;
    XorLow(a * 32, b, 10);
    TimesLow(a, 32);
    SmallLow(b, 1024);
    XorLow(a * 32, b, 5);
    TimesLow(a, 1);
    XorZero(b % 32);
  }

  lemma TimesLow(h: nat, m: nat)
    requires m > 0
    ensures h * 32 % (m * 32) == h % m * 32
  {
    var q, r := h / m, h % m;
    DivNonNegative(h, m);
    assert h * 32 == q * (m * 32) + r * 32 by { MulAssoc(q, m, 32); }
    DivUnique(h * 32, m * 32, q, r * 32);
  }

  lemma SmallLow(c: nat, m: nat)
    requires c < m
    ensures c % m == c
  {
  }

  /** The rolling hash keeps up with the last two bytes. */
  lemma HashRolls(h: nat, a: Byte, b: Byte, c: Byte)
    requires h % 1024 == HashTwo(a, b) % 1024
    ensures HashStep(h, c) == HashStep(HashTwo(a, b), c) && HashStep(h, c) % 1024 == HashTwo(b, c) % 1024
  {
    hide *;
    StepIs(h, c);
    StepIs(HashTwo(a, b), c);
    TwoIs(a, b);
    TwoIs(b, c);
    PowersAre();
    XorLow(h % 1024 * 32, c, 10);
    TimesLow(h % 1024, 32);
    SmallLow(c, 1024);
    LowOfLow(h, HashTwo(a, b), b);
  }

  lemma LowOfLow(h: nat, x: nat, b: nat)
    requires h % 1024 == x % 1024 && x % 32 == b % 32
    ensures h % 1024 % 32 == b % 32
  {
    var q, r := x / 1024, x % 1024;
    DivNonNegative(x, 1024);
    DivNonNegative(r, 32);
    DivUnique(x, 32, q * 32 + r / 32, r % 32);
  }

  /** What the hash tells apart: any two last or middle bytes, and the low five bits of the first. */
  lemma HashTells(a: Byte, b: Byte, c: Byte, x: Byte)
    ensures HashStep(HashTwo(a, b), c) == HashStep(HashTwo(a, b), x) ==> c == x
    ensures HashStep(HashTwo(a, b), c) == HashStep(HashTwo(a, x), c) ==> b == x
    ensures HashStep(HashTwo(a, b), c) == HashStep(HashTwo(x, b), c) <==> a % 32 == x % 32
  {
    hide *;
    var h, g, k := HashTwo(a, b), HashTwo(a, x), HashTwo(x, b);
    StepIs(h, c);
    StepIs(h, x);
    StepIs(g, c);
    StepIs(k, c);
    TwoIs(a, b);
    TwoIs(a, x);
    TwoIs(x, b);
    if HashStep(h, c) == HashStep(h, x) { XorTells(h % 1024 * 32, c, x); }
    if HashStep(h, c) == HashStep(g, c) {
      SameFirst(h % 1024 * 32, g % 1024 * 32, c);
      XorTells(a % 32 * 32, b, x);
    }
    if HashStep(h, c) == HashStep(k, c) {
      SameFirst(h % 1024 * 32, k % 1024 * 32, c);
      SameFirst(a % 32 * 32, x % 32 * 32, b);
    }
  }

  lemma SameFirst(x: nat, y: nat, z: nat)
    requires Xor(x, z) == Xor(y, z)
    ensures x == y
  {
    XorSwap(x, z);
    XorSwap(y, z);
    XorTells(z, x, y);
  }

  // ----- what the links are

  /** The hash of the three bytes at a position. */
  function HashAt(data: seq<Byte>, p: nat): (h: nat)
    requires p + 2 < |data|
    ensures h < LZ_HASH_SIZE
  {
    HashStep(HashTwo(data[p], data[p + 1]), data[p + 2])
  }

  datatype Links = Links(next: seq<U16>, hash: seq<U16>)

  predicate Sized(l: Links) {
    |l.next| == 32768 && |l.hash| == LZ_HASH_SIZE
  }

  /** Position p becomes the head of its chain. */
  function Inserted(l: Links, data: seq<Byte>, p: nat): (r: Links)
    requires Sized(l) && p + 2 < |data|
    ensures Sized(r)
  {
    var h := HashAt(data, p);
    Links(l.next[p % 32768 := l.hash[h]], l.hash[h := p % 0x1_0000])
  }

  /** The positions from `base` up to n have been inserted one after the other. */
  ghost function Linked(start: Links, data: seq<Byte>, base: nat, n: nat): (r: Links)
    requires Sized(start) && (n <= base || n + 2 <= |data|)
    ensures Sized(r)
    decreases n
  {
    if n <= base then start else Inserted(Linked(start, data, base, n - 1), data, n - 1)
  }

  /** All positions from `base` on that have three bytes. */
  ghost function Chains(start: Links, data: seq<Byte>, base: nat): (r: Links)
    requires Sized(start)
    ensures Sized(r)
  {
    Linked(start, data, base, if |data| >= 2 then |data| - 2 else 0)
  }

  lemma {:induction false} LinkedExtends(start: Links, data: seq<Byte>, more: seq<Byte>, base: nat, n: nat)
    requires Sized(start) && (n <= base || n + 2 <= |data|)
    ensures Linked(start, data + more, base, n) == Linked(start, data, base, n)
    decreases n
  {
    if n > base { LinkedExtends(start, data, more, base, n - 1); }
  }

  /** One more byte: the position that has three bytes now goes into its chain. */
  lemma ChainsSnoc(start: Links, data: seq<Byte>, c: Byte, base: nat)
    requires Sized(start)
    ensures |data| < base + 2 ==> Chains(start, data + [c], base) == Chains(start, data, base)
    ensures |data| >= base + 2 ==>
            Chains(start, data + [c], base) == Inserted(Chains(start, data, base), data + [c], |data| - 2)
  {
    if |data| >= base + 2 { LinkedExtends(start, data, [c], base, |data| - 2); }
    hide Inserted;
  }

  /** The latest position before n, from `base` on, with a given hash. */
  ghost function Latest(data: seq<Byte>, base: nat, n: nat, h: nat): Option<nat>
    requires n <= base || n + 2 <= |data|
    decreases n
  {
    if n <= base then None else if HashAt(data, n - 1) == h then Some(n - 1) else Latest(data, base, n - 1, h)
  }

  lemma {:induction false} LatestIs(data: seq<Byte>, base: nat, n: nat, h: nat)
    requires n <= base || n + 2 <= |data|
    ensures match Latest(data, base, n, h)
            case None => forall q: nat :: base <= q < n ==> HashAt(data, q) != h
            case Some(q) => base <= q < n && HashAt(data, q) == h && forall r: nat :: q < r < n ==> HashAt(data, r) != h
    decreases n
  {
    if n > base && HashAt(data, n - 1) != h { LatestIs(data, base, n - 1, h); }
  }

  /** How a position is stored; where there is none, what was there at the start. */
  ghost function EntryOf(start: Links, o: Option<nat>, h: nat): U16
    requires Sized(start) && h < LZ_HASH_SIZE
  {
    match o case None => start.hash[h] case Some(q) => q % 0x1_0000
  }

  /** The head of a chain is the latest position with its hash. */
  lemma {:induction false} HeadIsLatest(start: Links, data: seq<Byte>, base: nat, n: nat, h: nat)
    requires Sized(start) && (n <= base || n + 2 <= |data|) && h < LZ_HASH_SIZE
    ensures Linked(start, data, base, n).hash[h] == EntryOf(start, Latest(data, base, n, h), h)
    decreases n
  {
    hide HashAt;
    if n > base { HeadIsLatest(start, data, base, n - 1, h); }
  }

  /** From each position the chain leads to the latest one before it with its hash. */
  lemma {:induction false} NextIsLatest(start: Links, data: seq<Byte>, base: nat, n: nat, p: nat)
    requires Sized(start) && n + 2 <= |data| && base <= p < n <= p + 32768
    ensures Linked(start, data, base, n).next[p % 32768]
            == EntryOf(start, Latest(data, base, p, HashAt(data, p)), HashAt(data, p))
    decreases n
  {
    hide HashAt;
    if n == p + 1 {
      HeadIsLatest(start, data, base, p, HashAt(data, p));
    } else {
      NextIsLatest(start, data, base, n - 1, p);
      OtherSlot(p, n - 1);
    }
  }

  /** The (k + 1)-st latest position before p with the same hash. */
  ghost function Earlier(data: seq<Byte>, base: nat, p: nat, k: nat): (r: Option<nat>)
    requires p + 2 < |data|
    ensures r.Some? ==> base <= r.value < p && HashAt(data, r.value) == HashAt(data, p)
  {
    if k == 0 then
      LatestIs(data, base, p, HashAt(data, p));
      Latest(data, base, p, HashAt(data, p))
    else match Earlier(data, base, p, k - 1)
      case None => None
      case Some(q) =>
        LatestIs(data, base, q, HashAt(data, p));
        Latest(data, base, q, HashAt(data, p))
  }

  // ----- where a search along them leads

  /** The distance a chain entry stands for: a 16-bit difference. */
  function EntryDist(lookaheadPos: nat, entry: nat): nat {
    (lookaheadPos - entry) % 0x1_0000
  }

  /** Where the chain is after k candidates. */
  ghost function ChainPos(chain: seq<U16>, pos: nat, k: nat): (p: nat)
    requires |chain| == 32768 && pos < 32768
    ensures p < 32768
  {
    if k == 0 then pos else chain[ChainPos(chain, pos, k - 1)] % 32768
  }

  /** How far back candidate k is. */
  ghost function ChainDist(chain: seq<U16>, lookaheadPos: nat, pos: nat, k: nat): nat
    requires |chain| == 32768 && pos < 32768
  {
    EntryDist(lookaheadPos, chain[ChainPos(chain, pos, k)])
  }

  /** Candidate k is on the chain, and it and all candidates before it are within reach. */
  ghost predicate OnChain(chain: seq<U16>, lookaheadPos: nat, maxDist: nat, pos: nat, k: nat)
    requires |chain| == 32768 && pos < 32768
  {
    && (k > 0 ==> OnChain(chain, lookaheadPos, maxDist, pos, k - 1))
    && chain[ChainPos(chain, pos, k)] != 0 && 1 <= ChainDist(chain, lookaheadPos, pos, k) <= maxDist
  }

  lemma {:induction false} ChainEnds(chain: seq<U16>, lookaheadPos: nat, maxDist: nat, pos: nat, k: nat, j: nat)
    requires |chain| == 32768 && pos < 32768 && !OnChain(chain, lookaheadPos, maxDist, pos, k) && k <= j
    ensures !OnChain(chain, lookaheadPos, maxDist, pos, j)
    decreases j
  {
    if k < j { ChainEnds(chain, lookaheadPos, maxDist, pos, k, j - 1); }
  }

  /** There are k + 1 earlier positions with the same hash, within reach, and none that is stored as 0. */
  ghost predicate Leads(data: seq<Byte>, base: nat, p: nat, reach: nat, k: nat)
    requires p + 2 < |data|
  {
    && (k > 0 ==> Leads(data, base, p, reach, k - 1))
    && match Earlier(data, base, p, k) case None => false case Some(q) => p - q <= reach && q % 0x1_0000 != 0
  }

  /** They are the candidates on the chain, the nearest first. */
  lemma {:induction false} CandidatesAre(start: Links, data: seq<Byte>, base: nat, p: nat, reach: nat, k: nat)
    requires Sized(start) && base <= p && p + 2 < |data| && reach + (|data| - p) <= 32768
    requires Leads(data, base, p, reach, k)
    ensures var chain, pos, q := Chains(start, data, base).next, p % 32768, Earlier(data, base, p, k).value;
            && ChainPos(chain, pos, k + 1) == q % 32768 && ChainDist(chain, p % 0x1_0000_0000, pos, k) == p - q
            && OnChain(chain, p % 0x1_0000_0000, reach, pos, k)
  {
    hide *;
    var from := EarlierFrom(data, base, p, reach, k);
    var q := Earlier(data, base, p, k).value;
    var chain := Chains(start, data, base).next;
    DistanceIs(p, q);
    if k > 0 { CandidatesAre(start, data, base, p, reach, k - 1); }
    NextIsLatest(start, data, base, |data| - 2, from);
    NextEntry(start, data, base, p, from, q);
    NextOnChain(chain, p % 0x1_0000_0000, reach, p % 32768, k, from, q, p - q);
  }

  lemma NextEntry(start: Links, data: seq<Byte>, base: nat, p: nat, from: nat, q: nat)
    requires Sized(start) && base <= from <= p && p + 2 < |data|
    requires Latest(data, base, from, HashAt(data, p)) == Some(q) && HashAt(data, from) == HashAt(data, p)
    requires Linked(start, data, base, |data| - 2).next[from % 32768]
             == EntryOf(start, Latest(data, base, from, HashAt(data, from)), HashAt(data, from))
    ensures var chain := Chains(start, data, base).next; |chain| == 32768 && chain[from % 32768] == q % 0x1_0000
  {
    hide HashAt, Linked, Latest;
  }

  lemma NextOnChain(chain: seq<U16>, lookaheadPos: nat, maxDist: nat, pos: nat, k: nat, from: nat, q: nat, d: nat)
    requires |chain| == 32768 && pos < 32768 && chain[from % 32768] == q % 0x1_0000 != 0 && 1 <= d <= maxDist
    requires if k == 0 then pos == from % 32768
             else ChainPos(chain, pos, k) == from % 32768 && OnChain(chain, lookaheadPos, maxDist, pos, k - 1)
    requires EntryDist(lookaheadPos, q % 0x1_0000) == d && q % 0x1_0000 % 32768 == q % 32768
    ensures ChainPos(chain, pos, k + 1) == q % 32768 && ChainDist(chain, lookaheadPos, pos, k) == d
            && OnChain(chain, lookaheadPos, maxDist, pos, k)
  {
    assert ChainPos(chain, pos, k) == from % 32768;
    hide EntryDist;
  }

  /** Where candidate k is linked from. */
  lemma EarlierFrom(data: seq<Byte>, base: nat, p: nat, reach: nat, k: nat) returns (from: nat)
    requires base <= p && p + 2 < |data| && Leads(data, base, p, reach, k)
    ensures from == if k == 0 then p else Earlier(data, base, p, k - 1).value
    ensures base <= from <= p && p - from <= reach && HashAt(data, from) == HashAt(data, p)
    ensures Earlier(data, base, p, k) == Latest(data, base, from, HashAt(data, p)) && Earlier(data, base, p, k).Some?
    ensures k > 0 ==> Leads(data, base, p, reach, k - 1)
    ensures var q := Earlier(data, base, p, k).value; base <= q < p && p - q <= reach && q % 0x1_0000 != 0
  {
    from := if k == 0 then p else Earlier(data, base, p, k - 1).value;
    hide HashAt, Latest;
  }

  lemma DistanceIs(p: nat, q: nat)
    requires 0 < p - q < 0x1_0000
    ensures EntryDist(p % 0x1_0000_0000, q % 0x1_0000) == p - q && q % 0x1_0000 % 32768 == q % 32768
    ensures p % 0x1_0000_0000 % 32768 == p % 32768
  {
    Nested(p, 0x2_0000, 32768);
    Nested(p, 0x1_0000, 0x1_0000);
    Nested(q, 2, 32768);
    var x, y := p % 0x1_0000_0000, q % 0x1_0000;
    assert x % 0x1_0000 == p % 0x1_0000;
    SameRemainder(p, q, x, y);
  }

  lemma Nested(n: nat, a: nat, m: nat)
    requires a > 0 && m > 0
    ensures n % (a * m) % m == n % m
  {
    hide *;
    var r := n % (a * m);
    DivNonNegative(n, a * m);
    DivNonNegative(r, m);
    assert n == (n / (a * m) * a + r / m) * m + r % m by {
      assert n == n / (a * m) * (a * m) + r;
      MulAssoc(n / (a * m), a, m);
      DistributeRight(n / (a * m) * a, r / m, m);
    }
    DivUnique(n, m, n / (a * m) * a + r / m, r % m);
  }

  lemma SameRemainder(p: nat, q: nat, x: nat, y: nat)
    requires 0 < p - q < 0x1_0000 && x % 0x1_0000 == p % 0x1_0000 && y == q % 0x1_0000
    ensures (x - y) % 0x1_0000 == p - q
  {
  }

  /** None of the first v candidates is a longer match. */
  ghost predicate NoneLonger(chain: seq<U16>, lookaheadPos: nat, pos: nat, v: nat, data: seq<Byte>, done: nat, len: nat)
    requires |chain| == 32768 && pos < 32768
  {
    forall k: nat :: k < v ==> NoLonger(data, done, ChainDist(chain, lookaheadPos, pos, k), len)
  }

  lemma NoCandidates(chain: seq<U16>, lookaheadPos: nat, maxDist: nat, pos: nat, data: seq<Byte>, done: nat, len: nat)
    requires |chain| == 32768 && pos < 32768
    ensures NoneLonger(chain, lookaheadPos, pos, 0, data, done, len) && ChainPos(chain, pos, 0) == pos
    ensures Visited(chain, lookaheadPos, maxDist, pos, 0)
  {
  }

  /** The first v candidates are all on the chain. */
  ghost predicate Visited(chain: seq<U16>, lookaheadPos: nat, maxDist: nat, pos: nat, v: nat)
    requires |chain| == 32768 && pos < 32768
  {
    v > 0 ==> OnChain(chain, lookaheadPos, maxDist, pos, v - 1)
  }

  lemma NextCandidate(chain: seq<U16>, lookaheadPos: nat, maxDist: nat, pos: nat, v: nat)
    requires |chain| == 32768 && pos < 32768
    ensures var entry := chain[ChainPos(chain, pos, v)];
            Visited(chain, lookaheadPos, maxDist, pos, v) && entry != 0
                && 1 <= EntryDist(lookaheadPos, entry) <= maxDist
            ==> Visited(chain, lookaheadPos, maxDist, pos, v + 1)
    ensures var entry := chain[ChainPos(chain, pos, v)];
            && ChainDist(chain, lookaheadPos, pos, v) == EntryDist(lookaheadPos, entry)
            && ChainPos(chain, pos, v + 1) == entry % 32768
            && (entry == 0 || !(1 <= EntryDist(lookaheadPos, entry) <= maxDist) ==>
                  !OnChain(chain, lookaheadPos, maxDist, pos, v))
  {
  }

  lemma OneCandidateMore(chain: seq<U16>, lookaheadPos: nat, pos: nat, v: nat, data: seq<Byte>, done: nat, len: nat,
                         len': nat)
    requires |chain| == 32768 && pos < 32768 && NoneLonger(chain, lookaheadPos, pos, v, data, done, len) && len <= len'
    requires NoLonger(data, done, ChainDist(chain, lookaheadPos, pos, v), len')
    ensures NoneLonger(chain, lookaheadPos, pos, v + 1, data, done, len')
  {
    forall k: nat | k < v + 1 ensures NoLonger(data, done, ChainDist(chain, lookaheadPos, pos, k), len') {
      if k < v { NoLongerGrows(data, done, ChainDist(chain, lookaheadPos, pos, k), len, len'); }
    }
  }

  /** No match is longer than the lookahead. */
  lemma NoneBeyond(data: seq<Byte>, done: nat, d: nat, len: nat)
    requires done + len == |data|
    ensures NoLonger(data, done, d, len)
  {
  }

  // ----- how far the search goes

  /** Before a candidate is looked at: the length to beat, the units of the budget counted down, of three probes each,
      and how many candidates the present unit has passed over. */
  datatype Progress = Progress(len: nat, used: nat, passed: nat)

  /** A candidate hits if it agrees in the byte behind the length to beat and in the one before that. */
  predicate Hit(data: seq<Byte>, done: nat, d: nat, len: nat) {
    && 1 <= len && d <= done && done + len < |data|
    && data[done + len] == data[done - d + len] && data[done + len - 1] == data[done - d + len - 1]
  }

  /** The length of a candidate that is longer, or else the one to beat. */
  ghost function Longer(data: seq<Byte>, done: nat, d: nat, len: nat): nat
    decreases |data| - len
  {
    if MatchAt(data, done, d, len + 1) then Longer(data, done, d, len + 1) else len
  }

  lemma {:induction false} LongerIs(data: seq<Byte>, done: nat, d: nat, len: nat, l: nat)
    requires MatchAt(data, done, d, l) && NoLonger(data, done, d, l)
    ensures Longer(data, done, d, len) == if l > len then l else len
    decreases |data| - len
  {
    if len < l { LongerIs(data, done, d, len + 1, l); }
  }

  /** One candidate more: a unit of the budget ends with a hit, or when three have been passed over. */
  ghost function PassedOn(data: seq<Byte>, done: nat, d: nat, p: Progress): Progress {
    if Hit(data, done, d, p.len) then Progress(Longer(data, done, d, p.len), p.used + 1, 0)
    else if p.passed == 2 then Progress(p.len, p.used + 1, 0)
    else Progress(p.len, p.used, p.passed + 1)
  }

  ghost function Before(chain: seq<U16>, lookaheadPos: nat, pos: nat, data: seq<Byte>, done: nat, len0: nat, k: nat)
    : Progress
    requires |chain| == 32768 && pos < 32768
  {
    if k == 0 then Progress(len0, 1, 0)
    else PassedOn(data, done, ChainDist(chain, lookaheadPos, pos, k - 1),
                  Before(chain, lookaheadPos, pos, data, done, len0, k - 1))
  }

  lemma FirstBefore(chain: seq<U16>, lookaheadPos: nat, pos: nat, data: seq<Byte>, done: nat, len0: nat)
    requires |chain| == 32768 && pos < 32768
    ensures Before(chain, lookaheadPos, pos, data, done, len0, 0) == Progress(len0, 1, 0)
  {
  }

  /** What one candidate more makes of it. */
  lemma NextBefore(chain: seq<U16>, lookaheadPos: nat, pos: nat, data: seq<Byte>, done: nat, len0: nat, k: nat)
    requires |chain| == 32768 && pos < 32768
    ensures var d, p := ChainDist(chain, lookaheadPos, pos, k), Before(chain, lookaheadPos, pos, data, done, len0, k);
            Before(chain, lookaheadPos, pos, data, done, len0, k + 1)
            == if Hit(data, done, d, p.len) then Progress(Longer(data, done, d, p.len), p.used + 1, 0)
               else if p.passed == 2 then Progress(p.len, p.used + 1, 0)
               else Progress(p.len, p.used, p.passed + 1)
  {
    hide Hit, Longer, ChainDist;
  }

  /** Each unit leads to one candidate at least, and to three at most. */
  lemma {:induction false} UnitsAre(chain: seq<U16>, lookaheadPos: nat, pos: nat, data: seq<Byte>, done: nat, len0: nat,
                                    k: nat)
    requires |chain| == 32768 && pos < 32768
    ensures var p := Before(chain, lookaheadPos, pos, data, done, len0, k);
            p.passed <= 2 && 1 <= p.used <= k + 1 && k <= 3 * (p.used - 1) + p.passed
  {
    hide Hit, Longer, ChainDist;
    if k > 0 { UnitsAre(chain, lookaheadPos, pos, data, done, len0, k - 1); }
  }

  lemma {:induction false} UnitsGrow(chain: seq<U16>, lookaheadPos: nat, pos: nat, data: seq<Byte>, done: nat,
                                     len0: nat, j: nat, k: nat)
    requires |chain| == 32768 && pos < 32768 && j < k
    ensures var p, q := Before(chain, lookaheadPos, pos, data, done, len0, j),
                        Before(chain, lookaheadPos, pos, data, done, len0, k);
            p.used < q.used || (p.used == q.used && p.passed < q.passed)
  {
    hide Hit, Longer, ChainDist;
    if j < k - 1 { UnitsGrow(chain, lookaheadPos, pos, data, done, len0, j, k - 1); }
  }

  /** What holds when the search is over: the chain has ended, the budget is spent, or nothing can be longer. */
  lemma SearchOver(chain: seq<U16>, lookaheadPos: nat, maxDist: nat, pos: nat, data: seq<Byte>, done: nat, dist: nat,
                   len: nat, v: nat, best: nat, len0: nat, budget: nat)
    requires |chain| == 32768 && pos < 32768 && NoneLonger(chain, lookaheadPos, pos, v, data, done, len)
    requires FromChain(chain, lookaheadPos, pos, data, done, dist, len, v, best)
    requires Visited(chain, lookaheadPos, maxDist, pos, v)
    requires var p := Before(chain, lookaheadPos, pos, data, done, len0, v);
             && p.len == len && p.used <= budget && (p.used == budget ==> p.passed == 0)
             && (done + len == |data| || !OnChain(chain, lookaheadPos, maxDist, pos, v) || p.used == budget)
    requires done + len == |data| ==> v == best + 1
    ensures Searched(chain, lookaheadPos, maxDist, pos, data, done, dist, len, v, best, len0, budget)
  {
    hide OnChain, NoLonger, ChainDist, Before;
    UnitsAre(chain, lookaheadPos, pos, data, done, len0, v);
    forall k: nat | k + 1 < budget && OnChain(chain, lookaheadPos, maxDist, pos, k)
      ensures NoLonger(data, done, ChainDist(chain, lookaheadPos, pos, k), len)
    {
      if done + len == |data| {
        NoneBeyond(data, done, ChainDist(chain, lookaheadPos, pos, k), len);
      } else if v <= k && !OnChain(chain, lookaheadPos, maxDist, pos, v) {
        ChainEnds(chain, lookaheadPos, maxDist, pos, v, k);
      }
    }
  }

  /** No candidate on the chain within reach is a longer match, as far as the budget of probes must lead. */
  ghost predicate Longest(chain: seq<U16>, lookaheadPos: nat, maxDist: nat, pos: nat, data: seq<Byte>, done: nat,
                          len: nat, budget: nat)
    requires |chain| == 32768 && pos < 32768
  {
    forall k: nat :: k + 1 < budget && OnChain(chain, lookaheadPos, maxDist, pos, k) ==>
      NoLonger(data, done, ChainDist(chain, lookaheadPos, pos, k), len)
  }

  /** What the search has found: the first of the longest of the candidates visited. It goes on until nothing can be
      longer, the chain ends, or the budget is spent, and no further. */
  ghost predicate Searched(chain: seq<U16>, lookaheadPos: nat, maxDist: nat, pos: nat, data: seq<Byte>, done: nat,
                           dist: nat, len: nat, visited: nat, best: nat, len0: nat, budget: nat)
    requires |chain| == 32768 && pos < 32768
  {
    && FromChain(chain, lookaheadPos, pos, data, done, dist, len, visited, best) && visited <= 3 * (budget - 1)
    && Visited(chain, lookaheadPos, maxDist, pos, visited)
    && NoneLonger(chain, lookaheadPos, pos, visited, data, done, len)
    && Stopped(chain, lookaheadPos, maxDist, pos, data, done, len, visited, best, len0, budget)
    && Longest(chain, lookaheadPos, maxDist, pos, data, done, len, budget)
  }

  ghost predicate Stopped(chain: seq<U16>, lookaheadPos: nat, maxDist: nat, pos: nat, data: seq<Byte>, done: nat,
                          len: nat, visited: nat, best: nat, len0: nat, budget: nat)
    requires |chain| == 32768 && pos < 32768
  {
    var p := Before(chain, lookaheadPos, pos, data, done, len0, visited);
    && p.len == len && p.used <= budget && (p.used == budget ==> p.passed == 0)
    && (done + len == |data| ==> visited == best + 1)
    && (done + len == |data| || !OnChain(chain, lookaheadPos, maxDist, pos, visited) || p.used == budget)
  }

  /** The chain, the length to beat and the budget determine what is found. */
  lemma FoundIsDetermined(chain: seq<U16>, lookaheadPos: nat, maxDist: nat, pos: nat, data: seq<Byte>, done: nat,
                          dist: nat, len: nat, v: nat, best: nat, dist': nat, len': nat, v': nat, best': nat, len0: nat,
                          budget: nat)
    requires |chain| == 32768 && pos < 32768 && done + len0 < |data|
    requires Searched(chain, lookaheadPos, maxDist, pos, data, done, dist, len, v, best, len0, budget)
    requires Searched(chain, lookaheadPos, maxDist, pos, data, done, dist', len', v', best', len0, budget)
    requires if dist == 0 then len == len0 else len0 < len && MatchAt(data, done, dist, len)
    requires if dist' == 0 then len' == len0 else len0 < len' && MatchAt(data, done, dist', len')
    ensures v == v' && dist == dist' && len == len'
  {
    hide *;
    if v < v' {
      NotFurther(chain, lookaheadPos, maxDist, pos, data, done, dist, len, v, best, dist', len', v', best', len0,
                 budget);
    } else if v' < v {
      NotFurther(chain, lookaheadPos, maxDist, pos, data, done, dist', len', v', best', dist, len, v, best, len0,
                 budget);
    }
    AnswerIs(chain, lookaheadPos, maxDist, pos, data, done, dist, len, v, best, len0, budget);
    AnswerIs(chain, lookaheadPos, maxDist, pos, data, done, dist', len', v', best', len0, budget);
    if dist > 0 {
      if best < best' {
        NotShorter(chain, lookaheadPos, pos, data, done, best', best, len);
      } else if best' < best {
        NotShorter(chain, lookaheadPos, pos, data, done, best, best', len);
      }
    }
  }

  lemma AnswerIs(chain: seq<U16>, lookaheadPos: nat, maxDist: nat, pos: nat, data: seq<Byte>, done: nat, dist: nat,
                   len: nat, v: nat, best: nat, len0: nat, budget: nat)
    requires |chain| == 32768 && pos < 32768
    requires Searched(chain, lookaheadPos, maxDist, pos, data, done, dist, len, v, best, len0, budget)
    ensures Before(chain, lookaheadPos, pos, data, done, len0, v).len == len
    ensures dist > 0 ==>
            best < v && dist == ChainDist(chain, lookaheadPos, pos, best) && len >= 1
            && NoneLonger(chain, lookaheadPos, pos, best, data, done, len - 1)
    ensures done + len == |data| ==> v == best + 1
  {
    hide Before, ChainDist, NoneLonger, Longest, Visited, OnChain;
  }

  lemma NotShorter(chain: seq<U16>, lookaheadPos: nat, pos: nat, data: seq<Byte>, done: nat, v: nat, k: nat, len: nat)
    requires |chain| == 32768 && pos < 32768 && k < v && len >= 1
    requires NoneLonger(chain, lookaheadPos, pos, v, data, done, len - 1)
    ensures !MatchAt(data, done, ChainDist(chain, lookaheadPos, pos, k), len)
  {
    assert NoLonger(data, done, ChainDist(chain, lookaheadPos, pos, k), len - 1);
    hide MatchAt, ChainDist;
  }

  lemma NotFurther(chain: seq<U16>, lookaheadPos: nat, maxDist: nat, pos: nat, data: seq<Byte>, done: nat, dist: nat,
                   len: nat, v: nat, best: nat, dist': nat, len': nat, v': nat, best': nat, len0: nat, budget: nat)
    requires |chain| == 32768 && pos < 32768 && done + len0 < |data|
    requires Searched(chain, lookaheadPos, maxDist, pos, data, done, dist, len, v, best, len0, budget)
    requires Searched(chain, lookaheadPos, maxDist, pos, data, done, dist', len', v', best', len0, budget)
    requires if dist == 0 then len == len0 else len0 < len && MatchAt(data, done, dist, len)
    requires if dist' == 0 then len' == len0 else len0 < len' && MatchAt(data, done, dist', len')
    ensures v' <= v
  {
    hide Before, ChainDist, NoLonger, MatchAt, Longest, OnChain;
    if v < v' {
      UnitsGrow(chain, lookaheadPos, pos, data, done, len0, v, v');
      if done + len == |data| {
        NothingBeyondEnd(data, done, dist', len');
        assert NoLonger(data, done, dist, len') by { assert NoneLonger(chain, lookaheadPos, pos, v', data, done, len');
               }
        if len' < len { NotLonger(data, done, dist, len, len'); }
        if best < best' { NotShorter(chain, lookaheadPos, pos, data, done, best', best, len); }
        assert false;
      } else if !OnChain(chain, lookaheadPos, maxDist, pos, v) {
        ChainEnds(chain, lookaheadPos, maxDist, pos, v, v' - 1);
      }
    }
  }

  lemma NothingBeyondEnd(data: seq<Byte>, done: nat, dist: nat, len: nat)
    requires dist > 0 ==> MatchAt(data, done, dist, len)
    ensures dist > 0 ==> done + len <= |data|
  {
  }

  lemma NotLonger(data: seq<Byte>, done: nat, d: nat, len: nat, len': nat)
    requires MatchAt(data, done, d, len) && NoLonger(data, done, d, len')
    ensures len <= len'
  {
  }

  /** The best match so far is one of the candidates visited, and all before it are shorter. */
  ghost predicate FromChain(chain: seq<U16>, lookaheadPos: nat, pos: nat, data: seq<Byte>, done: nat, dist: nat,
                            len: nat, visited: nat, best: nat)
    requires |chain| == 32768 && pos < 32768
  {
    dist > 0 ==>
      && best < visited && dist == ChainDist(chain, lookaheadPos, pos, best)
      && len >= 1 && NoneLonger(chain, lookaheadPos, pos, best, data, done, len - 1)
  }

  lemma NothingFromChain(chain: seq<U16>, lookaheadPos: nat, pos: nat, data: seq<Byte>, done: nat, len: nat)
    requires |chain| == 32768 && pos < 32768
    ensures FromChain(chain, lookaheadPos, pos, data, done, 0, len, 0, 0)
  {
  }

  lemma BetterFromChain(chain: seq<U16>, lookaheadPos: nat, pos: nat, data: seq<Byte>, done: nat, len: nat, len': nat,
                        visited: nat)
    requires |chain| == 32768 && pos < 32768 && len < len'
    requires NoneLonger(chain, lookaheadPos, pos, visited, data, done, len)
    ensures FromChain(chain, lookaheadPos, pos, data, done, ChainDist(chain, lookaheadPos, pos, visited), len',
                      visited + 1, visited)
  {
    forall k: nat | k < visited ensures NoLonger(data, done, ChainDist(chain, lookaheadPos, pos, k), len' - 1) {
      NoLongerGrows(data, done, ChainDist(chain, lookaheadPos, pos, k), len, len' - 1);
    }
    hide ChainDist, NoLonger;
  }

  lemma FromChainLater(chain: seq<U16>, lookaheadPos: nat, pos: nat, data: seq<Byte>, done: nat, dist: nat, len: nat,
                       v: nat, v': nat, best: nat)
    requires |chain| == 32768 && pos < 32768 && v <= v'
    requires FromChain(chain, lookaheadPos, pos, data, done, dist, len, v, best)
    ensures FromChain(chain, lookaheadPos, pos, data, done, dist, len, v', best)
  {
    hide ChainDist, NoneLonger;
  }
}
