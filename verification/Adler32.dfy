/** Adler-32 with eight bytes per turn and few reductions. */
module Adler32 {
  // Sections 2.2 and 8.2 of RFC 1950. There is one reduction per at most 5552 bytes; the sums are kept in 32-bit words.

  import opened BitStream
  import Bits

  const MOD := 65521
  const BLOCK := 5552
  const WORD := 0x1_0000_0000

  datatype Sums = Sums(s1: nat, s2: nat)

  predicate Prime(n: nat) {
    n >= 2 && forall d: nat :: 2 <= d < n ==> n % d != 0
  }

  /** Without a divisor up to its root a number has none. */
  lemma NoneToTheRoot(n: nat, k: nat)
    requires 2 <= n < (k + 1) * (k + 1) && forall d: nat :: 2 <= d <= k ==> n % d != 0
    ensures Prime(n)
  {
    forall d: nat | 2 <= d < n ensures n % d != 0 {
      if k < d && n % d == 0 { Cofactor(n, d, n / d, k); }
    }
  }

  lemma Cofactor(n: nat, d: nat, q: int, k: nat)
    requires k < d < n && n == q * d && n < (k + 1) * (k + 1)
    ensures 2 <= q <= k && n % q == 0
  {
    if q > k {
      Times(k + 1, d, k + 1);
      Times(k + 1, q, d);
    }
    Bits.DivUnique(n, q, d, 0);
  }

  /** The modulus is the largest prime below 2^16. */
  lemma LargestPrime()
    ensures Prime(MOD) && MOD < 0x1_0000 && forall n: nat :: MOD < n < 0x1_0000 ==> !Prime(n)
  {
    NoSmallDivisor();
    assert MOD == 65521;
    hide *;
    NoneToTheRoot(65521, 255);
    forall n: nat | 65521 < n < 0x1_0000 ensures !Prime(n) { NoPrime(n); }
  }

  lemma NoSmallDivisor()
    ensures forall d: nat :: 2 <= d <= 255 ==> 65521 % d != 0
  {
  }

  lemma NoPrime(n: nat)
    requires 65521 < n < 0x1_0000
    ensures !Prime(n)
  {
    assert n % 2 == 0 || n % 3 == 0 || n % 5 == 0 || n % 7 == 0 || n % 13 == 0 || n % 19 == 0;
  }

  /** The definition: every byte is added to the first sum, the first sum to the second, both modulo 65521. */
  function Adler(s: Sums, data: seq<Byte>): Sums
    decreases |data|
  {
    if data == [] then s
    else
      var s1 := (s.s1 + data[0]) % MOD;
      Adler(Sums(s1, (s.s2 + s1) % MOD), data[1..])
  }

  /** The sums without reduction. */
  function Raw(s: Sums, data: seq<Byte>): Sums
    decreases |data|
  {
    if data == [] then s
    else Raw(Sums(s.s1 + data[0], s.s2 + (s.s1 + data[0])), data[1..])
  }

  function Reduced(s: Sums): Sums {
    Sums(s.s1 % MOD, s.s2 % MOD)
  }

  /** The checksum goes on where it stopped. */
  lemma {:induction false} AdlerAppend(s: Sums, a: seq<Byte>, b: seq<Byte>)
    ensures Adler(s, a + b) == Adler(Adler(s, a), b)
    decreases |a|
  {
    if a == [] {
      assert a + b == b;
    } else {
      assert (a + b)[1..] == a[1..] + b;
      var s1 := (s.s1 + a[0]) % MOD;
      AdlerAppend(Sums(s1, (s.s2 + s1) % MOD), a[1..], b);
    }
  }

  lemma {:induction false} RawAppend(s: Sums, a: seq<Byte>, b: seq<Byte>)
    ensures Raw(s, a + b) == Raw(Raw(s, a), b)
    decreases |a|
  {
    if a == [] {
      assert a + b == b;
    } else {
      assert (a + b)[1..] == a[1..] + b;
      RawAppend(Sums(s.s1 + a[0], s.s2 + (s.s1 + a[0])), a[1..], b);
    }
  }

  lemma AddMod(a: nat, b: nat)
    ensures (a % MOD + b) % MOD == (a + b) % MOD
  {
  }

  /** Reducing at the end is as good as reducing all the time. */
  lemma {:induction false} ReduceLate(s: Sums, t: Sums, data: seq<Byte>)
    requires Reduced(s) == Reduced(t)
    ensures Reduced(Raw(s, data)) == Reduced(Adler(t, data))
    decreases |data|
  {
    if data != [] {
      var b := data[0];
      var s' := Sums(s.s1 + b, s.s2 + (s.s1 + b));
      var t1 := (t.s1 + b) % MOD;
      OneByte(s, t, b);
      ReduceLate(s', Sums(t1, (t.s2 + t1) % MOD), data[1..]);
    }
  }

  lemma OneByte(s: Sums, t: Sums, b: nat)
    requires Reduced(s) == Reduced(t)
    ensures var t1 := (t.s1 + b) % MOD;
            Reduced(Sums(s.s1 + b, s.s2 + (s.s1 + b))) == Reduced(Sums(t1, (t.s2 + t1) % MOD))
  {
    assert s.s1 % MOD == t.s1 % MOD && s.s2 % MOD == t.s2 % MOD;
    hide MOD;
    AddMod(s.s1, b);
    AddMod(t.s1, b);
    var t1 := (t.s1 + b) % MOD;
    assert (s.s1 + b) % MOD == t1;
    AddMod(s.s1 + b, s.s2);
    AddMod(s.s2, t1);
    AddMod(t.s2, t1);
  }

  /** A checksum of at least one byte is reduced. */
  lemma {:induction false} AdlerIsReduced(s: Sums, data: seq<Byte>)
    requires data != [] || Reduced(s) == s
    ensures Reduced(Adler(s, data)) == Adler(s, data)
    decreases |data|
  {
    if data != [] {
      var s1 := (s.s1 + data[0]) % MOD;
      AdlerIsReduced(Sums(s1, (s.s2 + s1) % MOD), data[1..]);
    }
  }

  /** n more bytes can be added to the sums without leaving 32 bits. */
  predicate Room(s: Sums, n: nat) {
    s.s1 + 255 * n < WORD && 2 * s.s2 + 2 * (n * s.s1) + 255 * (n * (n + 1)) < 2 * WORD
  }

  lemma RoomStep(s: Sums, b: Byte, n: nat)
    requires n > 0 && Room(s, n)
    ensures s.s1 + b < WORD && s.s2 + (s.s1 + b) < WORD && Room(Sums(s.s1 + b, s.s2 + (s.s1 + b)), n - 1)
  {
    var m: nat := n - 1;
    var x, y := m * s.s1, m * b;
    Spread(m, 1, s.s1);
    Times(b, 255, m);
    Square2(n);
    Spread3(m, s.s1, b);
    RoomSums(s.s1, s.s2, b, x, y, m, n, n * (n + 1), m * n);
  }

  lemma RoomSums(s1: nat, s2: nat, b: Byte, x: int, y: int, m: nat, n: nat, nn: int, mn: int)
    requires m == n - 1 && x >= 0 && y <= m * 255 && nn == mn + 2 * n && mn >= 0 && b <= 255
    requires s1 + 255 * n < WORD && 2 * s2 + 2 * (x + s1) + 255 * nn < 2 * WORD
    ensures s1 + b < WORD && s2 + (s1 + b) < WORD && (s1 + b) + 255 * m < WORD
    ensures 2 * (s2 + (s1 + b)) + 2 * (x + y) + 255 * mn < 2 * WORD
  {
  }

  lemma Spread(a: int, b: int, c: int)
    ensures (a + b) * c == a * c + b * c
  {
  }

  lemma Spread3(m: int, a: int, b: int)
    ensures m * (a + b) == m * a + m * b
  {
  }

  lemma Square2(n: nat)
    requires n > 0
    ensures n * (n + 1) == (n - 1) * n + 2 * n && (n - 1) * n >= 0
  {
  }

  lemma Times(a: nat, b: nat, c: nat)
    requires a <= b
    ensures c * a <= c * b
  {
  }

  /** The first block is at most 5551 bytes long, whatever the start value; later ones start from reduced sums. */
  lemma BlockHasRoom(s: Sums, n: nat)
    requires (s.s1 <= 65535 && s.s2 <= 65535 && n < BLOCK) || (s.s1 < MOD && s.s2 < MOD && n <= BLOCK)
    ensures Room(s, n)
  {
    var k := if n < BLOCK then n else BLOCK;
    if n < BLOCK {
      Times(s.s1, 65535, n);
      Square(n, BLOCK - 1);
    } else {
      Times(s.s1, MOD - 1, n);
    }
  }

  /** No longer block has room, behind reduced sums that are as large as can be. */
  lemma BlockIsLargest(n: nat)
    requires n > BLOCK
    ensures !Room(Sums(MOD - 1, MOD - 1), n)
  {
    Square(BLOCK + 1, n);
    Times(BLOCK + 1, n, MOD - 1);
  }

  lemma Square(n: nat, k: nat)
    requires n <= k
    ensures n * (n + 1) <= k * (k + 1)
  {
    Times(n, k, n + 1);
    Times(n + 1, k + 1, k);
  }

  lemma RawOne(s: Sums, b: Byte)
    ensures Raw(s, [b]) == Sums(s.s1 + b, s.s2 + (s.s1 + b))
  {
    assert [b][1..] == [];
  }

  /** One byte, in 32-bit words: nothing wraps around. */
  method AddByte(s: Sums, b: Byte, n: nat, ghost start: Sums, ghost done: seq<Byte>) returns (s': Sums)
    requires n > 0 && Room(s, n) && s == Raw(start, done)
    ensures s' == Raw(start, done + [b]) && Room(s', n - 1)
  {
    hide *;
    RoomStep(s, b, n);
    RawAppend(start, done, [b]);
    RawOne(s, b);
    WordIs();
    var s1 := (s.s1 + b) % WORD;
    s' := Sums(s1, (s.s2 + s1) % WORD);
  }

  /** The inner loops: a block of n bytes, eight bytes per turn and then the rest. */
  method AddBlock(s: Sums, data: seq<Byte>, p: nat, n: nat) returns (s': Sums)
    requires p + n <= |data| && Room(s, n)
    ensures s' == Raw(s, data[p..p + n])
  {
    hide *;
    s' := s;
    var i: nat := 0;
    NothingAdded(s, data, p);
    while i + 7 < n
      invariant i <= n && s' == Raw(s, data[p..p + i]) && Room(s', n - i)
    {
      s' := EightBytes(s', data, p, i, n, s);
      i := i + 8;
    }
    while i < n
      invariant i <= n && s' == Raw(s, data[p..p + i]) && Room(s', n - i)
    {
      s' := NextByte(s', data, p, i, n, s);
      i := i + 1;
    }
  }

  lemma NothingAdded(s: Sums, data: seq<Byte>, p: nat)
    requires p <= |data|
    ensures Raw(s, data[p..p + 0]) == s
  {
  }

  /** The unrolled turn. */
  method EightBytes(s: Sums, data: seq<Byte>, p: nat, i: nat, n: nat, ghost start: Sums) returns (s': Sums)
    requires i + 7 < n && p + n <= |data| && Room(s, n - i) && s == Raw(start, data[p..p + i])
    ensures s' == Raw(start, data[p..p + (i + 8)]) && Room(s', n - (i + 8))
  {
    hide *;
    s' := NextByte(s, data, p, i, n, start);
    s' := NextByte(s', data, p, i + 1, n, start);
    s' := NextByte(s', data, p, i + 2, n, start);
    s' := NextByte(s', data, p, i + 3, n, start);
    s' := NextByte(s', data, p, i + 4, n, start);
    s' := NextByte(s', data, p, i + 5, n, start);
    s' := NextByte(s', data, p, i + 6, n, start);
    s' := NextByte(s', data, p, i + 7, n, start);
  }

  method NextByte(s: Sums, data: seq<Byte>, p: nat, i: nat, n: nat, ghost start: Sums) returns (s': Sums)
    requires i < n && p + n <= |data| && Room(s, n - i) && s == Raw(start, data[p..p + i])
    ensures s' == Raw(start, data[p..p + (i + 1)]) && Room(s', n - (i + 1))
  {
    s' := AddByte(s, data[p + i], n - i, start, data[p..p + i]);
    assert data[p..p + i] + [data[p + i]] == data[p..p + (i + 1)];
  }

  function Halves(adler: nat): Sums {
    Bits.DivNonNegative(adler, 0x1_0000);
    Sums(adler % 0x1_0000, adler / 0x1_0000)
  }

  function Joined(s: Sums): nat {
    s.s2 * 0x1_0000 + s.s1
  }

  lemma WordIs()
    ensures WORD == 0x1_0000_0000
  {
  }

  /** The 32-bit checksum of the data, going on from the checksum of what came before. */
  function Checksum(adler: nat, data: seq<Byte>): nat {
    Joined(Adler(Halves(adler), data))
  }

  /** The checksum of a concatenation goes on from that of the first part. */
  lemma ChecksumAppend(adler: nat, a: seq<Byte>, b: seq<Byte>)
    requires adler < WORD
    ensures Checksum(adler, a + b) == Checksum(Checksum(adler, a), b) && Checksum(adler, a) < WORD
  {
    var s := Adler(Halves(adler), a);
    if a != [] { AdlerIsReduced(Halves(adler), a); }
    AdlerAppend(Halves(adler), a, b);
    RejoinedHalves(s);
  }

  function Total(data: seq<Byte>): nat {
    if data == [] then 0 else data[0] + Total(data[1..])
  }

  /** Each byte counted as often as there are bytes from it to the end. */
  function Weighted(data: seq<Byte>): nat {
    if data == [] then 0 else |data| * data[0] + Weighted(data[1..])
  }

  lemma {:induction false} RawIs(s: Sums, data: seq<Byte>)
    ensures Raw(s, data) == Sums(s.s1 + Total(data), s.s2 + |data| * s.s1 + Weighted(data))
    decreases |data|
  {
    if data != [] {
      var n: nat := |data| - 1;
      RawIs(Sums(s.s1 + data[0], s.s2 + (s.s1 + data[0])), data[1..]);
      Spread3(n, s.s1, data[0]);
      Spread(n, 1, s.s1);
      Spread(n, 1, data[0]);
    }
  }

  /** The checksum in closed form: 1 and all bytes in the low half, their number and the weighted bytes in the high
      half. */
  lemma ChecksumIs(data: seq<Byte>)
    ensures Checksum(1, data) == (|data| + Weighted(data)) % MOD * 0x1_0000 + (1 + Total(data)) % MOD
  {
    var s := Sums(1, 0);
    assert Halves(1) == s == Reduced(s);
    assert Checksum(1, data) == Joined(Adler(s, data));
    hide *;
    RawIs(s, data);
    ReduceLate(s, s, data);
    AdlerIsReduced(s, data);
    JoinedIs(Raw(s, data));
  }

  lemma JoinedIs(s: Sums)
    ensures Joined(Reduced(s)) == s.s2 % MOD * 0x1_0000 + s.s1 % MOD
  {
  }

  lemma NothingChecked(adler: nat)
    requires adler < WORD
    ensures Checksum(adler, []) == adler
  {
  }

  /** mz_adler32, for every buffer and every 32-bit start value: the byte-by-byte definition. */
  method MzAdler32(adler: nat, data: seq<Byte>) returns (r: nat)
    requires adler < WORD
    ensures r == Checksum(adler, data) < WORD
    ensures Halves(r) == Adler(Halves(adler), data)
  {
    ghost var start := Halves(adler);
    var s := Sums(adler % 0x1_0000, adler / 0x1_0000);
    assert s == start && s.s1 <= 65535 && s.s2 <= 65535;
    var blockLen: nat, p: nat := |data| % BLOCK, 0;
    assert data[..0] == [];
    while p < |data|
      invariant p <= |data| && (data == [] ==> s == start) && Reduced(s) == Reduced(Adler(start, data[..p]))
      invariant if blockLen < BLOCK then p == 0 && s == start && blockLen == |data| % BLOCK
                else blockLen == BLOCK && s.s1 < MOD && s.s2 < MOD && (|data| - p) % BLOCK == 0
      decreases |data| - p, if blockLen < BLOCK then 1 else 0
    {
      hide Raw, Adler, Room;
      BlockHasRoom(s, blockLen);
      WholeBlocks(|data| - p, blockLen);
      ghost var before := s;
      s := AddBlock(s, data, p, blockLen);
      s := Sums(s.s1 % MOD, s.s2 % MOD);
      BlockDone(start, data, p, blockLen, before, s);
      p := p + blockLen;
      blockLen := BLOCK;
    }
    assert data[..|data|] == data;
    AllDone(start, data, s);
    r := s.s2 * 0x1_0000 + s.s1;
    RejoinedHalves(s);
  }

  lemma WholeBlocks(left: nat, blockLen: nat)
    requires blockLen <= BLOCK && (if blockLen < BLOCK then blockLen == left % BLOCK else left > 0 && left % BLOCK == 0)
    ensures blockLen <= left && (left - blockLen) % BLOCK == 0
  {
  }

  lemma BlockDone(start: Sums, data: seq<Byte>, p: nat, n: nat, s: Sums, s': Sums)
    requires p + n <= |data| && Reduced(s) == Reduced(Adler(start, data[..p])) && s' == Reduced(Raw(s, data[p..p + n]))
    ensures Reduced(s') == s' == Reduced(Adler(start, data[..p + n]))
  {
    ReduceLate(s, Adler(start, data[..p]), data[p..p + n]);
    AdlerAppend(start, data[..p], data[p..p + n]);
    assert data[..p + n] == data[..p] + data[p..p + n];
  }

  lemma AllDone(start: Sums, data: seq<Byte>, s: Sums)
    requires Reduced(s) == Reduced(Adler(start, data)) && (data != [] ==> Reduced(s) == s)
             && (data == [] ==> s == start)
    requires start.s1 <= 65535 && start.s2 <= 65535
    ensures s == Adler(start, data) && s.s1 <= 65535 && s.s2 <= 65535
  {
    if data != [] { AdlerIsReduced(start, data); }
  }

  lemma RejoinedHalves(s: Sums)
    requires s.s1 <= 65535 && s.s2 <= 65535
    ensures Halves(Joined(s)) == s && Joined(s) < WORD
  {
  }
}
