/**
  The decompressor's loop over one block: symbols and extra bits back to
  tokens, tokens back to bytes.
 */
module InflateBlock {
  import opened Arith
  import opened Bits
  import opened Wrappers
  import opened BitStream
  import opened Tokens
  import opened LzCodes
  import opened BitEmitter
  import opened CanonicalCode
  import DecodeTable

  /** The unread bits x are the stream fs, with `rest` behind it. */
  ghost predicate Unread(x: Input, fs: seq<Field>, rest: Input) {
    x.bits == Val(fs) + rest.bits * Pow2(Len(fs)) && x.count == Len(fs) + rest.count
  }

  lemma TakeField(x: Input, f: Field, fs: seq<Field>, rest: Input)
    requires Unread(x, [f] + fs, rest) && f.bits < Pow2(f.len)
    ensures Low(x.bits, f.len) == f.bits && Unread(Skip(x, f.len), fs, rest)
  {
    Append([f], fs);
    Single(f);
    TakeStep(x.bits, f.bits, Val(fs), f.len, Len(fs), rest.bits);
  }

  lemma TakeStep(x: nat, b: nat, v: nat, l: nat, m: nat, rest: nat)
    requires x == b + v * Pow2(l) + rest * Pow2(l + m) && b < Pow2(l)
    ensures Low(x, l) == b && Shr(x, l) == v + rest * Pow2(m)
  {
    hide *;
    Pow2Add(m, l);
    MulAssoc(rest, Pow2(m), Pow2(l));
    DistributeRight(v, rest * Pow2(m), Pow2(l));
    Unique(x, l, v + rest * Pow2(m), b);
  }

  /** The stored codes are the canonical ones, and every symbol that a block uses has one. */
  ghost predicate Coded(h: HuffCodes, n: nat) {
    Usable(h, n) && forall s :: 0 <= s < n && h.sizes[s] >= 1 ==> h.codes[s] == RevCode(h.sizes, s)
  }

  ghost predicate HasCode(tb: Tables, t: Token)
    requires Writable(tb) && Recordable(t)
  {
    tb.lit.sizes[LitSym(t)] >= 1 && (t.Match? ==> tb.dist.sizes[DistSym(t.dist - 1)] >= 1)
  }

  ghost predicate Decodable(tb: Tables, ts: seq<Token>) {
    && Coded(tb.lit, LIT_SYMBOLS) && Coded(tb.dist, DIST_SYMBOLS) && Writable(tb)
    && AllRecordable(ts) && (forall i :: 0 <= i < |ts| ==> HasCode(tb, ts[i]))
    && tb.lit.sizes[END_OF_BLOCK] >= 1
  }

  ghost predicate NoneFrom(sizes: seq<nat>, m: nat) {
    m <= |sizes| && forall s :: m <= s < |sizes| ==> sizes[s] == 0
  }

  /** A decoding table pair that was built for the code sizes, up to some symbol after which none is used. */
  ghost predicate Built(lookUp: array<int>, tree: array<int>, sizes: seq<nat>, P: seq<DecodeTable.Node>)
    reads lookUp, tree
  {
    exists m: nat :: NoneFrom(sizes, m) && DecodeTable.Ready(sizes[..m], P, lookUp[..], tree[..])
  }

  lemma {:induction false} CountPrefix(sizes: seq<nat>, m: nat, l: nat, n: nat)
    requires NoneFrom(sizes, m) && l >= 1 && n <= |sizes|
    ensures CountOf(sizes, l, n) == CountOf(sizes[..m], l, if n < m then n else m)
  {
    if n > 0 { CountPrefix(sizes, m, l, n - 1); }
  }

  lemma {:induction false} FirstCodePrefix(sizes: seq<nat>, m: nat, l: nat)
    requires NoneFrom(sizes, m)
    ensures FirstCode(sizes, l) == FirstCode(sizes[..m], l)
  {
    if l > 1 {
      FirstCodePrefix(sizes, m, l - 1);
      CountPrefix(sizes, m, l - 1, |sizes|);
    }
  }

  /** Unused symbols behind the used ones do not change the code. */
  lemma CodePrefix(sizes: seq<nat>, m: nat, s: nat)
    requires NoneFrom(sizes, m) && s < |sizes| && sizes[s] >= 1
    ensures s < m && RevCode(sizes[..m], s) == RevCode(sizes, s)
  {
    FirstCodePrefix(sizes, m, sizes[s]);
    CountPrefix(sizes, m, sizes[s], s);
  }

  /** TINFL_HUFF_DECODE when the next field is the code of symbol s. */
  method DecodeSymbol(lookUp: array<int>, tree: array<int>, bitBuf: Input, ghost h: HuffCodes, ghost n: nat,
                      ghost P: seq<DecodeTable.Node>, ghost s: nat, ghost fs: seq<Field>, ghost rest: Input)
    returns (sym: int, bitBuf': Input)
    requires Built(lookUp, tree, h.sizes, P) && Coded(h, n) && s < n && |h.sizes| == |h.codes| == n && h.sizes[s] >= 1
    requires Unread(bitBuf, [CodeField(h, s)] + fs, rest)
    ensures sym == s && Unread(bitBuf', fs, rest)
  {
    CodeBegins(h, n, s, bitBuf, fs, rest);
    ghost var m := BuiltIs(lookUp, tree, h.sizes, P);
    PrefixBegins(h.sizes, m, s, bitBuf.bits);
    hide *;
    var codeLen;
    sym, codeLen := DecodeTable.HuffDecode(lookUp, tree, bitBuf.bits, h.sizes[..m], P);
    bitBuf' := Skip(bitBuf, codeLen);
  }

  lemma BuiltIs(lookUp: array<int>, tree: array<int>, sizes: seq<nat>, P: seq<DecodeTable.Node>) returns (m: nat)
    requires Built(lookUp, tree, sizes, P)
    ensures m <= |sizes| && NoneFrom(sizes, m) && DecodeTable.Ready(sizes[..m], P, lookUp[..], tree[..])
  {
    m :| NoneFrom(sizes, m) && DecodeTable.Ready(sizes[..m], P, lookUp[..], tree[..]);
  }

  lemma PrefixBegins(sizes: seq<nat>, m: nat, s: nat, x: nat)
    requires NoneFrom(sizes, m) && s < |sizes| && sizes[s] >= 1 && Begins(sizes, s, x)
    ensures s < m && Begins(sizes[..m], s, x)
  {
    CodePrefix(sizes, m, s);
  }

  lemma CodeBegins(h: HuffCodes, n: nat, s: nat, x: Input, fs: seq<Field>, rest: Input)
    requires Coded(h, n) && s < n && |h.sizes| == |h.codes| == n && h.sizes[s] >= 1
    requires Unread(x, [CodeField(h, s)] + fs, rest)
    ensures Begins(h.sizes, s, x.bits) && Unread(Skip(x, h.sizes[s]), fs, rest)
  {
    TakeField(x, CodeField(h, s), fs, rest);
  }

  /** TINFL_GET_BITS when the next field has n bits. */
  method GetBits(bitBuf: Input, n: nat, ghost b: nat, ghost fs: seq<Field>, ghost rest: Input)
    returns (bits: nat, bitBuf': Input)
    requires Unread(bitBuf, [Field(b, n)] + fs, rest) && b < Pow2(n)
    ensures bits == b && Unread(bitBuf', fs, rest)
  {
    TakeField(bitBuf, Field(b, n), fs, rest);
    bits := Low(bitBuf.bits, n);
    bitBuf' := Skip(bitBuf, n);
  }

  /** The length behind a length symbol. */
  method ReadLength(bitBuf: Input, sym: nat, ghost n: nat, ghost fs: seq<Field>, ghost rest: Input)
    returns (counter: nat, bitBuf': Input)
    requires n < 256 && sym == LenSym(n) && Unread(bitBuf, [Field(Low(n, LenExtra(n)), LenExtra(n))] + fs, rest)
    ensures counter == n + 3 && Unread(bitBuf', fs, rest)
  {
    LengthIsReadBack(n);
    TableSizes();
    hide *;
    counter, bitBuf' := AddExtra(bitBuf, LENGTH_BASE[sym - 257], LENGTH_EXTRA[sym - 257], n, fs, rest);
  }

  /** The extra bits of a length or distance, if there are any, are added to its base. */
  method AddExtra(bitBuf: Input, base: nat, numExtra: nat, ghost x: nat, ghost fs: seq<Field>, ghost rest: Input)
    returns (value: nat, bitBuf': Input)
    requires Unread(bitBuf, [Field(Low(x, numExtra), numExtra)] + fs, rest)
    ensures value == base + Low(x, numExtra) && Unread(bitBuf', fs, rest)
  {
    hide *;
    value, bitBuf' := base, bitBuf;
    if numExtra > 0 {
      var extraBits;
      LowBound(x, numExtra);
      extraBits, bitBuf' := GetBits(bitBuf', numExtra, Low(x, numExtra), fs, rest);
      value := value + extraBits;
    } else {
      NoBits(bitBuf, x, fs, rest);
    }
  }

  lemma TableSizes()
    ensures |LENGTH_BASE| == |LENGTH_EXTRA| == 31 && |DIST_BASE| == |DIST_EXTRA| == 32
  {
  }

  lemma NoBits(x: Input, n: nat, fs: seq<Field>, rest: Input)
    requires Unread(x, [Field(Low(n, 0), 0)] + fs, rest)
    ensures Low(n, 0) == 0 && Unread(x, fs, rest)
  {
    TakeField(x, Field(Low(n, 0), 0), fs, rest);
    assert x.bits == Shr(x.bits, 0) * 1 + Low(x.bits, 0);
  }

  /** The distance behind a distance symbol. */
  method ReadDistance(bitBuf: Input, sym: nat, ghost d: nat, ghost fs: seq<Field>, ghost rest: Input)
    returns (dist: nat, bitBuf': Input)
    requires d < LZ_DICT_SIZE && sym == DistSym(d)
             && Unread(bitBuf, [Field(Low(d, DistExtra(d)), DistExtra(d))] + fs, rest)
    ensures dist == d + 1 && Unread(bitBuf', fs, rest)
  {
    DistanceIsReadBack(d);
    TableSizes();
    hide *;
    dist, bitBuf' := AddExtra(bitBuf, DIST_BASE[sym], DIST_EXTRA[sym], d, fs, rest);
  }

  /** Copies a match that fits, three bytes at a time. */
  method CopyMatch(out: array<Byte>, pos: nat, dist: nat, counter: nat) returns (pos': nat)
    requires 1 <= dist <= pos && pos + counter <= out.Length
    modifies out
    ensures pos' == pos + counter && out[..pos'] == Copy(old(out[..pos]), dist, counter)
  {
    hide *;
    ghost var o := out[..pos];
    pos' := pos;
    var left: nat := counter;
    ghost var done: nat := 0;
    CopyNone(o, dist);
    while left > 2
      invariant left + done == counter && pos' == pos + done
      invariant out[..pos'] == Copy(o, dist, done)
    {
      pos' := CopyByte(out, pos', dist, o, done);
      pos' := CopyByte(out, pos', dist, o, done + 1);
      pos' := CopyByte(out, pos', dist, o, done + 2);
      left := left - 3;
      done := done + 3;
    }
    if left > 0 {
      pos' := CopyByte(out, pos', dist, o, done);
      if left > 1 { pos' := CopyByte(out, pos', dist, o, done + 1); }
    }
  }

  lemma CopyNone(o: seq<Byte>, dist: nat)
    requires 1 <= dist <= |o|
    ensures Copy(o, dist, 0) == o
  {
  }

  lemma CopyOne(o: seq<Byte>, dist: nat, k: nat)
    requires 1 <= dist <= |o|
    ensures |Copy(o, dist, k)| == |o| + k
    ensures Copy(o, dist, k + 1) == Copy(o, dist, k) + [Copy(o, dist, k)[|o| + k - dist]]
  {
    var c := Copy(o, dist, k);
    CopySplit(o, dist, k, 1);
    assert Copy(c, dist, 1) == Copy(c + [c[|c| - dist]], dist, 0);
  }

  /** Byte number k of a match. */
  method CopyByte(out: array<Byte>, pos: nat, dist: nat, ghost o: seq<Byte>, ghost k: nat) returns (pos': nat)
    requires 1 <= dist <= |o| && pos == |o| + k < out.Length && out[..pos] == Copy(o, dist, k)
    modifies out
    ensures pos' == pos + 1 && out[..pos'] == Copy(o, dist, k + 1)
  {
    hide *;
    CopyOne(o, dist, k);
    ghost var c := out[..pos];
    assert out[pos - dist] == c[pos - dist];
    out[pos] := out[pos - dist];
    pos' := pos + 1;
    assert out[..pos'] == c + [c[pos - dist]];
  }

  datatype Status = Done | Failed | HasMoreOutput

  lemma NextFields(tb: Tables, ts: seq<Token>)
    requires Decodable(tb, ts) && ts != []
    ensures Decodable(tb, ts[1..]) && Recordable(ts[0]) && HasCode(tb, ts[0])
    ensures BlockFields(tb, ts) == TokenFields(tb, ts[0]) + BlockFields(tb, ts[1..])
  {
    hide TokenFields;
    assert AllRecordable(ts[1..]);
  }

  lemma LiteralIsNext(tb: Tables, ts: seq<Token>)
    requires Decodable(tb, ts) && ts != [] && ts[0].Literal?
    ensures |tb.lit.sizes| == |tb.lit.codes| == 288 && Coded(tb.lit, 288) && Writable(tb) && AllRecordable(ts)
    ensures tb.lit.sizes[ts[0].lit] >= 1 && Decodable(tb, ts[1..]) && AllRecordable(ts[1..])
    ensures BlockFields(tb, ts) == [CodeField(tb.lit, ts[0].lit)] + BlockFields(tb, ts[1..])
  {
    NextFields(tb, ts);
  }

  lemma MatchIsNext(tb: Tables, ts: seq<Token>)
    requires Decodable(tb, ts) && ts != [] && ts[0].Match?
    ensures 0 <= ts[0].length - 3 < 256 && 0 <= ts[0].dist - 1 < LZ_DICT_SIZE
    ensures |tb.lit.sizes| == |tb.lit.codes| == 288 && Coded(tb.lit, 288)
    ensures |tb.dist.sizes| == |tb.dist.codes| == 32 && Coded(tb.dist, 32)
    ensures Decodable(tb, ts[1..]) && AllRecordable(ts[1..]) && Writable(tb) && AllRecordable(ts)
    ensures var n, d := ts[0].length - 3, ts[0].dist - 1;
            && tb.lit.sizes[LenSym(n)] >= 1 && tb.dist.sizes[DistSym(d)] >= 1
            && BlockFields(tb, ts) ==
               [CodeField(tb.lit, LenSym(n))] + ([Field(Low(n, LenExtra(n)), LenExtra(n))]
               + ([CodeField(tb.dist, DistSym(d))]
                  + ([Field(Low(d, DistExtra(d)), DistExtra(d))] + BlockFields(tb, ts[1..]))))
  {
    hide *;
    DecodableFacts(tb, ts);
    NextFields(tb, ts);
    DecodableFacts(tb, ts[1..]);
    MatchSymbols(tb, ts[0]);
    var n, d := ts[0].length - 3, ts[0].dist - 1;
    Unfold(CodeField(tb.lit, LenSym(n)), Field(Low(n, LenExtra(n)), LenExtra(n)),
           CodeField(tb.dist, DistSym(d)), Field(Low(d, DistExtra(d)), DistExtra(d)), BlockFields(tb, ts[1..]));
  }

  lemma Unfold(a: Field, b: Field, c: Field, d: Field, r: seq<Field>)
    ensures [a, b, c, d] + r == [a] + ([b] + ([c] + ([d] + r)))
  {
  }

  lemma DecodableFacts(tb: Tables, ts: seq<Token>)
    requires Decodable(tb, ts)
    ensures Writable(tb) && AllRecordable(ts)
    ensures |tb.lit.sizes| == |tb.lit.codes| == 288 && Coded(tb.lit, 288)
    ensures |tb.dist.sizes| == |tb.dist.codes| == 32 && Coded(tb.dist, 32)
  {
  }

  lemma MatchSymbols(tb: Tables, t: Token)
    requires Writable(tb) && t.Match? && Recordable(t) && HasCode(tb, t)
    ensures 0 <= t.length - 3 < 256 && 0 <= t.dist - 1 < LZ_DICT_SIZE
    ensures |tb.lit.sizes| == |tb.lit.codes| == 288 && |tb.dist.sizes| == |tb.dist.codes| == 32
    ensures var n, d := t.length - 3, t.dist - 1;
            && tb.lit.sizes[LenSym(n)] >= 1 && tb.dist.sizes[DistSym(d)] >= 1
            && TokenFields(tb, t) == [CodeField(tb.lit, LenSym(n)), Field(Low(n, LenExtra(n)), LenExtra(n)),
                                      CodeField(tb.dist, DistSym(d)), Field(Low(d, DistExtra(d)), DistExtra(d))]
  {
  }

  lemma EndIsNext(tb: Tables, ts: seq<Token>)
    requires Decodable(tb, ts) && ts == []
    ensures |tb.lit.sizes| == |tb.lit.codes| == 288 && Coded(tb.lit, 288) && tb.lit.sizes[256] >= 1 && Writable(tb)
            && AllRecordable(ts)
    ensures BlockFields(tb, ts) == [CodeField(tb.lit, 256)] + []
  {
  }

  /** Length symbol read: the rest of the match. */
  method InflateMatch(lookUp1: array<int>, tree1: array<int>, bitBuf: Input, sym: nat, ghost tb: Tables,
                      ghost P1: seq<DecodeTable.Node>, ghost n: nat, ghost d: nat, ghost fs: seq<Field>,
                      ghost rest: Input)
    returns (counter: nat, dist: nat, bitBuf': Input)
    requires Built(lookUp1, tree1, tb.dist.sizes, P1) && n < 256 && d < LZ_DICT_SIZE && sym == LenSym(n)
    requires |tb.dist.sizes| == |tb.dist.codes| == 32 && Coded(tb.dist, 32) && tb.dist.sizes[DistSym(d)] >= 1
    requires Unread(bitBuf, [Field(Low(n, LenExtra(n)), LenExtra(n))] + ([CodeField(tb.dist, DistSym(d))]
                            + ([Field(Low(d, DistExtra(d)), DistExtra(d))] + fs)), rest)
    ensures counter == n + 3 && dist == d + 1 && Unread(bitBuf', fs, rest)
  {
    hide *;
    ghost var f1 := [Field(Low(d, DistExtra(d)), DistExtra(d))] + fs;
    ghost var f2 := [CodeField(tb.dist, DistSym(d))] + f1;
    var sym1: int;
    counter, bitBuf' := ReadLength(bitBuf, sym, n, f2, rest);
    sym1, bitBuf' := DecodeSymbol(lookUp1, tree1, bitBuf', tb.dist, 32, P1, DistSym(d), f1, rest);
    dist, bitBuf' := ReadDistance(bitBuf', sym1, d, fs, rest);
  }

  /** Where decoding stands: with the tokens us to come, the output so far becomes `all`, and stands for what was
      asked for. */
  ghost predicate Inflating(o: seq<Byte>, us: seq<Token>, goal: Option<seq<Byte>>, all: seq<Byte>) {
    Expand(us, o) == goal && Delivered(us, o) == all
  }

  lemma InflateStep(o: seq<Byte>, us: seq<Token>, goal: Option<seq<Byte>>, all: seq<Byte>)
    requires Inflating(o, us, goal, all)
    ensures us == [] ==> goal == Some(o)
    ensures us != [] && us[0].Literal? ==> Inflating(o + [us[0].lit], us[1..], goal, all) && o + [us[0].lit] <= all
    ensures us != [] && us[0].Match? && 1 <= us[0].dist <= |o| ==>
              && Inflating(Copy(o, us[0].dist, us[0].length), us[1..], goal, all)
              && Copy(o, us[0].dist, us[0].length) <= all
    ensures us != [] && us[0].Match? && !(1 <= us[0].dist <= |o|) ==> goal == None && all == o
    ensures o <= all && (goal.Some? ==> goal == Some(all))
  {
    if goal.Some? { DeliveredIs(us, o); }
  }

  lemma GoalIs(o: seq<Byte>, ts: seq<Token>)
    ensures Inflating(o, ts, Expand(ts, o), Delivered(ts, o))
    ensures Expand(ts, o).Some? ==> Expand(ts, o) == Some(Delivered(ts, o))
  {
    if Expand(ts, o).Some? { DeliveredIs(ts, o); }
  }

  /** The part of a match for which there is room. */
  lemma CopyPart(o: seq<Byte>, dist: nat, n: nat, len: nat)
    requires 1 <= dist <= |o| && n <= len
    ensures |Copy(o, dist, n)| == |o| + n && Copy(o, dist, n) <= Copy(o, dist, len)
  {
    CopySplit(o, dist, n, len - n);
  }

  lemma DecodableIs(tb: Tables, us: seq<Token>)
    requires Decodable(tb, us)
    ensures Writable(tb) && AllRecordable(us)
  {
  }

  /** The symbol that comes next in a block's stream, and what is behind it. */
  lemma NextSymbol(tb: Tables, us: seq<Token>) returns (s: nat, fs: seq<Field>)
    requires Decodable(tb, us) && Writable(tb) && AllRecordable(us)
    ensures |tb.lit.sizes| == |tb.lit.codes| == 288 && Coded(tb.lit, 288) && s < 288 && tb.lit.sizes[s] >= 1
    ensures BlockFields(tb, us) == [CodeField(tb.lit, s)] + fs
    ensures us == [] ==> s == 256 && fs == []
    ensures us != [] ==> Decodable(tb, us[1..]) && AllRecordable(us[1..])
    ensures us != [] && us[0].Literal? ==> s == us[0].lit && fs == BlockFields(tb, us[1..])
    ensures us != [] && us[0].Match? ==>
              && |tb.dist.sizes| == |tb.dist.codes| == 32 && Coded(tb.dist, 32)
              && 0 <= us[0].length - 3 < 256 && 0 <= us[0].dist - 1 < LZ_DICT_SIZE
              && var n, d := us[0].length - 3, us[0].dist - 1;
              && s == LenSym(n) && tb.dist.sizes[DistSym(d)] >= 1
              && fs == [Field(Low(n, LenExtra(n)), LenExtra(n))] + ([CodeField(tb.dist, DistSym(d))]
                       + ([Field(Low(d, DistExtra(d)), DistExtra(d))] + BlockFields(tb, us[1..])))
  {
    hide *;
    if us == [] {
      EndIsNext(tb, us);
      s, fs := 256, [];
    } else if us[0].Literal? {
      LiteralIsNext(tb, us);
      s, fs := us[0].lit, BlockFields(tb, us[1..]);
    } else {
      MatchIsNext(tb, us);
      var n, d := us[0].length - 3, us[0].dist - 1;
      s := LenSym(n);
      fs := [Field(Low(n, LenExtra(n)), LenExtra(n))] + ([CodeField(tb.dist, DistSym(d))]
            + ([Field(Low(d, DistExtra(d)), DistExtra(d))] + BlockFields(tb, us[1..])));
    }
  }

  lemma NoneLeft(x: Input, rest: Input)
    requires Unread(x, [], rest)
    ensures x == rest
  {
    assert Pow2(Len([])) == 1;
  }

  /** One turn of the loop: a token is decoded and played, or the block stops. */
  datatype Turn = GoOn | Stop(status: Status)

  ghost predicate Turned(turn: Turn, o: seq<Byte>, bitBuf: Input, tb: Tables, us: seq<Token>, rest: Input,
                         goal: Option<seq<Byte>>, all: seq<Byte>, room: nat)
    requires Decodable(tb, us)
  {
    match turn
    case GoOn =>
      && us != [] && Inflating(o, us[1..], goal, all) && Decodable(tb, us[1..])
      && Unread(bitBuf, BlockFields(tb, us[1..]), rest)
    case Stop(Done) => goal == Some(o) && o == all && bitBuf == rest
    case Stop(Failed) => goal == None && o == all
    case Stop(HasMoreOutput) => |o| == room < |all| && o <= all
  }

  method PlayLiteral(out: array<Byte>, pos: nat, lit: int, bitBuf: Input, ghost tb: Tables, ghost us: seq<Token>,
                     ghost rest: Input, ghost goal: Option<seq<Byte>>, ghost all: seq<Byte>)
    returns (turn: Turn, pos': nat)
    requires Decodable(tb, us) && AllRecordable(us) && Writable(tb) && us != [] && us[0].Literal? && lit == us[0].lit
    requires AllRecordable(us[1..])
    requires pos <= out.Length && Inflating(out[..pos], us, goal, all) && Unread(bitBuf, BlockFields(tb, us[1..]), rest)
    modifies out
    ensures pos' <= out.Length && Turned(turn, out[..pos'], bitBuf, tb, us, rest, goal, all, out.Length)
  {
    ghost var o := out[..pos];
    InflateStep(o, us, goal, all);
    LiteralIsNext(tb, us);
    hide Inflating, Unread, BlockFields, Decodable;
    pos' := pos;
    if pos' >= out.Length {
      assert |o| < |o + [us[0].lit]|;
      return Stop(HasMoreOutput), pos';
    }
    out[pos'] := lit;
    pos' := pos' + 1;
    assert out[..pos'] == o + [us[0].lit];
    turn := GoOn;
  }

  method PlayMatch(out: array<Byte>, pos: nat, len: nat, dist: nat, bitBuf: Input, ghost tb: Tables,
                   ghost us: seq<Token>, ghost rest: Input, ghost goal: Option<seq<Byte>>, ghost all: seq<Byte>)
    returns (turn: Turn, pos': nat)
    requires Decodable(tb, us) && AllRecordable(us) && Writable(tb) && us != [] && us[0] == Match(len, dist)
    requires dist >= 1 && AllRecordable(us[1..])
    requires pos <= out.Length && Inflating(out[..pos], us, goal, all) && Unread(bitBuf, BlockFields(tb, us[1..]), rest)
    modifies out
    ensures pos' <= out.Length && Turned(turn, out[..pos'], bitBuf, tb, us, rest, goal, all, out.Length)
  {
    hide *;
    InflateStep(out[..pos], us, goal, all);
    NextFields(tb, us);
    pos' := pos;
    if dist > pos' {
      TurnFails(out[..pos'], bitBuf, tb, us, rest, goal, all, out.Length);
      return Stop(Failed), pos';
    }
    if pos' + len > out.Length {
      CopyPart(out[..pos'], dist, out.Length - pos', len);
      pos' := CopyMatch(out, pos', dist, out.Length - pos');
      TurnIsFull(out[..pos'], bitBuf, tb, us, rest, goal, all, out.Length);
      return Stop(HasMoreOutput), pos';
    }
    pos' := CopyMatch(out, pos', dist, len);
    TurnGoesOn(out[..pos'], bitBuf, tb, us, rest, goal, all, out.Length);
    turn := GoOn;
  }

  lemma TurnGoesOn(o: seq<Byte>, bitBuf: Input, tb: Tables, us: seq<Token>, rest: Input, goal: Option<seq<Byte>>,
                   all: seq<Byte>, room: nat)
    requires Decodable(tb, us) && us != [] && Inflating(o, us[1..], goal, all) && Decodable(tb, us[1..])
    requires Writable(tb) && AllRecordable(us[1..]) && Unread(bitBuf, BlockFields(tb, us[1..]), rest)
    ensures Turned(GoOn, o, bitBuf, tb, us, rest, goal, all, room)
  {
  }

  lemma TurnFails(o: seq<Byte>, bitBuf: Input, tb: Tables, us: seq<Token>, rest: Input, goal: Option<seq<Byte>>,
                  all: seq<Byte>, room: nat)
    requires Decodable(tb, us) && goal == None && o == all
    ensures Turned(Stop(Failed), o, bitBuf, tb, us, rest, goal, all, room)
  {
  }

  lemma TurnIsFull(o: seq<Byte>, bitBuf: Input, tb: Tables, us: seq<Token>, rest: Input, goal: Option<seq<Byte>>,
                   all: seq<Byte>, room: nat)
    requires Decodable(tb, us) && |o| == room < |all| && o <= all
    ensures Turned(Stop(HasMoreOutput), o, bitBuf, tb, us, rest, goal, all, room)
  {
  }

  method InflateOne(lookUp0: array<int>, tree0: array<int>, lookUp1: array<int>, tree1: array<int>, bitBuf: Input,
                    out: array<Byte>, pos: nat, ghost tb: Tables, ghost P0: seq<DecodeTable.Node>,
                    ghost P1: seq<DecodeTable.Node>, ghost us: seq<Token>, ghost rest: Input,
                    ghost goal: Option<seq<Byte>>, ghost all: seq<Byte>)
    returns (turn: Turn, bitBuf': Input, pos': nat)
    requires Built(lookUp0, tree0, tb.lit.sizes, P0) && Built(lookUp1, tree1, tb.dist.sizes, P1)
    requires Decodable(tb, us) && AllRecordable(us) && Writable(tb) && Unread(bitBuf, BlockFields(tb, us), rest)
    requires pos <= out.Length && Inflating(out[..pos], us, goal, all)
    modifies out
    ensures pos' <= out.Length && Turned(turn, out[..pos'], bitBuf', tb, us, rest, goal, all, out.Length)
  {
    hide *;
    pos' := pos;
    var counter: int;
    ghost var s, fs := NextSymbol(tb, us);
    counter, bitBuf' := DecodeSymbol(lookUp0, tree0, bitBuf, tb.lit, 288, P0, s, fs, rest);
    if counter < 256 {
      assert us != [] && us[0].Literal?;
      turn, pos' := PlayLiteral(out, pos', counter, bitBuf', tb, us, rest, goal, all);
    } else if counter == 256 {
      assert us == [];
      BlockEnds(out[..pos'], bitBuf', tb, us, rest, goal, all, out.Length);
      turn := Stop(Done);
    } else {
      assert us != [] && us[0].Match?;
      var len, dist;
      len, dist, bitBuf' := InflateMatch(lookUp1, tree1, bitBuf', counter, tb, P1, us[0].length - 3, us[0].dist - 1,
                                         BlockFields(tb, us[1..]), rest);
      turn, pos' := PlayMatch(out, pos', len, dist, bitBuf', tb, us, rest, goal, all);
    }
  }

  lemma BlockEnds(o: seq<Byte>, bitBuf: Input, tb: Tables, us: seq<Token>, rest: Input, goal: Option<seq<Byte>>,
                  all: seq<Byte>, room: nat)
    requires Decodable(tb, us) && us == [] && Inflating(o, us, goal, all) && Unread(bitBuf, [], rest)
    ensures Turned(Stop(Done), o, bitBuf, tb, us, rest, goal, all, room)
  {
    NoneLeft(bitBuf, rest);
  }

  lemma TurnedOn(o: seq<Byte>, bitBuf: Input, tb: Tables, us: seq<Token>, rest: Input, goal: Option<seq<Byte>>,
                 all: seq<Byte>, room: nat)
    requires Decodable(tb, us) && Turned(GoOn, o, bitBuf, tb, us, rest, goal, all, room)
    ensures us != [] && Inflating(o, us[1..], goal, all) && Decodable(tb, us[1..])
    ensures Writable(tb) && AllRecordable(us[1..]) && Unread(bitBuf, BlockFields(tb, us[1..]), rest)
  {
  }

  lemma Stopped(status: Status, o: seq<Byte>, bitBuf: Input, tb: Tables, us: seq<Token>, rest: Input,
                goal: Option<seq<Byte>>, all: seq<Byte>, room: nat)
    requires Decodable(tb, us) && Turned(Stop(status), o, bitBuf, tb, us, rest, goal, all, room) && |o| <= room
    requires goal.Some? ==> goal == Some(all)
    ensures Outcome(status, goal, all, room, o) && (status == Done ==> bitBuf == rest)
  {
  }

  /** How it ends, when `all` can come out and is what was asked for, unless it breaks off: done exactly if it does not
      break off and all fits, failed exactly if it breaks off and all before that fits. In any case the output o is as
      much as there is room for. */
  ghost predicate Outcome(status: Status, goal: Option<seq<Byte>>, all: seq<Byte>, room: nat, o: seq<Byte>) {
    && (status == Done <==> goal.Some? && |all| <= room)
    && (status == Failed <==> goal.None? && |all| <= room)
    && |o| == Min(|all|, room) && o <= all && (goal.Some? ==> goal == Some(all))
  }

  /** Decodes one block into a non-wrapping output buffer: it succeeds exactly if every match stays inside the
      output so far and the block fits, and then the output is what the block's tokens stand for. It fails exactly if
      a match reaches back too far and what comes before it fits. In any case the output is what comes before such a
      match, as far as there is room. */
  method InflateBlock(lookUp0: array<int>, tree0: array<int>, lookUp1: array<int>, tree1: array<int>, bitBuf: Input,
                      out: array<Byte>, pos: nat, ghost tb: Tables, ghost P0: seq<DecodeTable.Node>,
                      ghost P1: seq<DecodeTable.Node>, ghost ts: seq<Token>, ghost rest: Input)
    returns (status: Status, bitBuf': Input, pos': nat)
    requires Built(lookUp0, tree0, tb.lit.sizes, P0) && Built(lookUp1, tree1, tb.dist.sizes, P1)
    requires Decodable(tb, ts) && AllRecordable(ts) && Unread(bitBuf, BlockFields(tb, ts), rest) && pos <= out.Length
    modifies out
    ensures pos' <= out.Length && (status == Done ==> bitBuf' == rest)
    ensures var o := old(out[..pos]); Outcome(status, Expand(ts, o), Delivered(ts, o), out.Length, out[..pos'])
  {
    ghost var goal, all := Expand(ts, out[..pos]), Delivered(ts, out[..pos]);
    ghost var us := ts;
    hide *;
    pos', bitBuf' := pos, bitBuf;
    GoalIs(out[..pos], ts);
    DecodableIs(tb, us);
    var turn := GoOn;
    while true
      invariant pos' <= out.Length && Inflating(out[..pos'], us, goal, all)
      invariant Decodable(tb, us) && Writable(tb) && AllRecordable(us) && Unread(bitBuf', BlockFields(tb, us), rest)
      invariant Built(lookUp0, tree0, tb.lit.sizes, P0) && Built(lookUp1, tree1, tb.dist.sizes, P1)
      decreases |us|
    {
      turn, bitBuf', pos' := InflateOne(lookUp0, tree0, lookUp1, tree1, bitBuf', out, pos', tb, P0, P1, us, rest,
                                        goal, all);
      if turn.Stop? {
        Stopped(turn.status, out[..pos'], bitBuf', tb, us, rest, goal, all, out.Length);
        return turn.status, bitBuf', pos';
      }
      TurnedOn(out[..pos'], bitBuf', tb, us, rest, goal, all, out.Length);
      us := us[1..];
    }
  }
}
