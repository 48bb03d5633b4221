/**
  A bit stream as a list of fields, lowest bit first: Val is the whole stream read as one number, Len its
  length in bits. Two lists with the same value and length are the same stream, however it is cut up.
 */
module BitStream {
  import opened Arith
  import opened Bits

  type Byte = x: int | 0 <= x < 256

  datatype Field = Field(bits: nat, len: nat)

  function Val(fs: seq<Field>): nat {
    if fs == [] then 0 else fs[0].bits + Val(fs[1..]) * Pow2(fs[0].len)
  }

  function Len(fs: seq<Field>): nat {
    if fs == [] then 0 else fs[0].len + Len(fs[1..])
  }

  /** Bits to be read: the unread ones as one number, and how many they are. */
  datatype Input = Input(bits: nat, count: nat)

  function Skip(x: Input, n: nat): Input {
    Input(Shr(x.bits, n), if n <= x.count then x.count - n else 0)
  }

  ghost predicate Proper(fs: seq<Field>) {
    forall i :: 0 <= i < |fs| ==> fs[i].bits < Pow2(fs[i].len)
  }

  ghost predicate Same(fs: seq<Field>, gs: seq<Field>) {
    Val(fs) == Val(gs) && Len(fs) == Len(gs)
  }

  function ByteFields(s: seq<Byte>): (r: seq<Field>)
    ensures |r| == |s|
  {
    seq(|s|, i requires 0 <= i < |s| => Field(s[i], 8))
  }

  lemma {:induction false} Append(fs: seq<Field>, gs: seq<Field>)
    ensures Len(fs + gs) == Len(fs) + Len(gs)
    ensures Val(fs + gs) == Val(fs) + Val(gs) * Pow2(Len(fs))
  {
    if fs == [] {
      assert fs + gs == gs;
    } else {
      assert (fs + gs)[1..] == fs[1..] + gs;
      Append(fs[1..], gs);
      AppendStep(Val(fs[1..]), Val(gs), fs[0].len, Len(fs[1..]));
    }
  }

  lemma AppendStep(v: nat, w: nat, a: nat, b: nat)
    ensures (v + w * Pow2(b)) * Pow2(a) == v * Pow2(a) + w * Pow2(a + b)
  {
    hide *;
    Pow2Add(b, a);
    DistributeRight(v, w * Pow2(b), Pow2(a));
    MulAssoc(w, Pow2(b), Pow2(a));
  }

  lemma FieldBelow(a: nat, b: nat, p: nat, q: nat)
    requires a < p && b < q
    ensures a + b * p < q * p
  {
    MulMono(b + 1, q, p);
    DistributeRight(b, 1, p);
  }

  lemma Single(f: Field)
    ensures Val([f]) == f.bits && Len([f]) == f.len
  {
    assert [f][1..] == [];
    assert Val([f]) == f.bits + Val([f][1..]) * Pow2(f.len);
  }

  lemma SameAppend(fs: seq<Field>, gs: seq<Field>, hs: seq<Field>)
    requires Same(fs, gs)
    ensures Same(fs + hs, gs + hs)
  {
    Append(fs, hs);
    Append(gs, hs);
  }

  lemma SamePrepend(hs: seq<Field>, fs: seq<Field>, gs: seq<Field>)
    requires Same(fs, gs)
    ensures Same(hs + fs, hs + gs)
  {
    Append(hs, fs);
    Append(hs, gs);
  }

  /** Two fields in a row are one longer field. */
  lemma Merge(a: nat, n: nat, b: nat, l: nat)
    ensures Same([Field(a, n), Field(b, l)], [Field(a + b * Pow2(n), n + l)])
  {
    hide *;
    assert [Field(a, n), Field(b, l)] == [Field(a, n)] + [Field(b, l)];
    Append([Field(a, n)], [Field(b, l)]);
    Single(Field(a, n));
    Single(Field(b, l));
    Single(Field(a + b * Pow2(n), n + l));
    SameIs([Field(a, n), Field(b, l)], [Field(a + b * Pow2(n), n + l)]);
  }

  lemma SameIs(fs: seq<Field>, gs: seq<Field>)
    requires Val(fs) == Val(gs) && Len(fs) == Len(gs)
    ensures Same(fs, gs)
  {
  }

  /** A field splits into its lowest k bits and the rest. */
  lemma Cut(a: nat, n: nat, k: nat)
    requires k <= n
    ensures Same([Field(a, n)], [Field(Low(a, k), k), Field(Shr(a, k), n - k)])
  {
    hide *;
    Split(a, k);
    Merge(Low(a, k), k, Shr(a, k), n - k);
    SameSymmetric([Field(Low(a, k), k), Field(Shr(a, k), n - k)], [Field(a, n)]);
  }

  lemma SameSymmetric(fs: seq<Field>, gs: seq<Field>)
    requires Same(fs, gs)
    ensures Same(gs, fs)
  {
  }

  lemma {:induction false} ByteFieldsLen(s: seq<Byte>)
    ensures Len(ByteFields(s)) == 8 * |s|
    ensures Proper(ByteFields(s))
  {
    Pow2Values();
    if s != [] {
      ByteFieldsLen(s[1..]);
      assert ByteFields(s)[1..] == ByteFields(s[1..]);
    }
  }

  /** Whole bytes and a last partial byte determine both. */
  lemma {:induction false} BytesAreUnique(s: seq<Byte>, t: seq<Byte>, a: nat, b: nat, n: nat)
    requires |s| == |t| && a < Pow2(n) && b < Pow2(n)
    requires Same(ByteFields(s) + [Field(a, n)], ByteFields(t) + [Field(b, n)])
    ensures s == t && a == b
  {
    var fs, gs := ByteFields(s) + [Field(a, n)], ByteFields(t) + [Field(b, n)];
    if s == [] {
      assert fs == [Field(a, n)] && gs == [Field(b, n)];
      Single(Field(a, n));
      Single(Field(b, n));
    } else {
      Pow2Values();
      assert fs[1..] == ByteFields(s[1..]) + [Field(a, n)];
      assert gs[1..] == ByteFields(t[1..]) + [Field(b, n)];
      Unique(Val(fs), 8, Val(fs[1..]), s[0]);
      Unique(Val(gs), 8, Val(gs[1..]), t[0]);
      BytesAreUnique(s[1..], t[1..], a, b, n);
      assert s == [s[0]] + s[1..] && t == [t[0]] + t[1..];
    }
  }
}
