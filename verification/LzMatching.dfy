/** The window of the compressor, matches in it, and one step of lazy parsing, on values. */
module LzMatching {
  import opened Wrappers
  import opened BitStream
  import opened Tokens
  import opened LzCodes

  const DICT_BYTES := 33025

  /** The ring and its mirror hold the last 32 KB of data; the mirror repeats the first 257 bytes behind the end. */
  ghost predicate Window(dict: seq<Byte>, data: seq<Byte>) {
    && |dict| == DICT_BYTES
    && forall a :: 0 <= a < |data| && |data| - LZ_DICT_SIZE <= a ==>
         dict[a % LZ_DICT_SIZE] == data[a]
             && (a % LZ_DICT_SIZE < 257 ==> dict[LZ_DICT_SIZE + a % LZ_DICT_SIZE] == data[a])
  }

  /** Reading up to 257 bytes on from a position needs no wrap-around. */
  lemma WindowRead(dict: seq<Byte>, data: seq<Byte>, a: nat, k: nat)
    requires Window(dict, data) && k <= 257 && a + k < |data| && |data| - LZ_DICT_SIZE <= a + k
    ensures a % LZ_DICT_SIZE + k < DICT_BYTES && dict[a % LZ_DICT_SIZE + k] == data[a + k]
  {
    RingStep(a, k);
    assert dict[(a + k) % LZ_DICT_SIZE] == data[a + k];
  }

  lemma RingStep(a: nat, k: nat)
    requires k <= 257
    ensures var i := a % LZ_DICT_SIZE + k;
            if i < LZ_DICT_SIZE then (a + k) % LZ_DICT_SIZE == i else (a + k) % LZ_DICT_SIZE == i - LZ_DICT_SIZE < 257
  {
  }

  lemma WindowPush(dict: seq<Byte>, data: seq<Byte>, c: Byte, after: seq<Byte>)
    requires Window(dict, data) && |after| == |dict|
    requires var p := |data| % LZ_DICT_SIZE;
             after == if p < 257 then dict[p := c][LZ_DICT_SIZE + p := c] else dict[p := c]
    ensures Window(after, data + [c])
  {
    var n := |data|;
    forall a: nat | a < n + 1 && n + 1 - LZ_DICT_SIZE <= a
      ensures after[a % LZ_DICT_SIZE] == (data + [c])[a]
      ensures a % LZ_DICT_SIZE < 257 ==> after[LZ_DICT_SIZE + a % LZ_DICT_SIZE] == (data + [c])[a]
    {
      if a < n {
        OtherSlot(a, n);
        assert dict[a % LZ_DICT_SIZE] == data[a];
      }
    }
  }

  lemma OtherSlot(a: nat, n: nat)
    requires a < n && n - LZ_DICT_SIZE < a
    ensures a % LZ_DICT_SIZE != n % LZ_DICT_SIZE
  {
  }

  /** The len bytes at `at` repeat those dist before. */
  ghost predicate MatchAt(data: seq<Byte>, at: nat, dist: nat, len: nat) {
    1 <= dist <= at && at + len <= |data| && forall k :: at <= k < at + len ==> data[k] == data[k - dist]
  }

  lemma {:induction false} CopyIsData(data: seq<Byte>, at: nat, dist: nat, len: nat)
    requires MatchAt(data, at, dist, len)
    ensures Copy(data[..at], dist, len) == data[..at + len]
    decreases len
  {
    if len > 0 {
      assert data[at] == data[at - dist];
      assert data[..at] + [data[at - dist]] == data[..at + 1];
      CopyIsData(data, at + 1, dist, len - 1);
    }
  }

  datatype Saved = Saved(lit: Byte, dist: nat, len: nat)

  /** The tokens so far stand for the data up to `done`, except that a saved match begins one byte before it. */
  ghost predicate Parsed(ts: seq<Token>, data: seq<Byte>, done: nat, s: Saved) {
    && done <= |data|
    && (s.len == 0 ==> Expand(ts, []) == Some(data[..done]))
    && (s.len > 0 ==>
          && done >= 1 && MIN_MATCH_LEN <= s.len < 128 && s.lit == data[done - 1] && s.dist <= LZ_DICT_SIZE
          && MatchAt(data, done - 1, s.dist, s.len)
          && Expand(ts, []) == Some(data[..done - 1]))
  }

  /** What match finding may deliver: a match of at least 3 bytes, or none. */
  ghost predicate Found(data: seq<Byte>, done: nat, len: nat, dist: nat, s: Saved) {
    && (dist > 0 ==> MIN_MATCH_LEN <= len <= MAX_MATCH_LEN && dist <= LZ_DICT_SIZE && MatchAt(data, done, dist, len))
    && (dist == 0 ==> len <= if s.len > 0 then s.len else MIN_MATCH_LEN - 1)
  }

  datatype Step = Step(tokens: seq<Token>, saved: Saved, move: nat)

  /** One step of the parsing state machine: what it records, saves, and moves on. */
  function LazyStep(s: Saved, len: nat, dist: nat, here: Byte, eager: bool): Step {
    if s.len > 0 then
      if len > s.len then
        if len >= 128 then Step([Literal(s.lit), Match(len, dist)], s.(len := 0), len)
        else Step([Literal(s.lit)], Saved(here, dist, len), 1)
      else Step([Match(s.len, s.dist)], s.(len := 0), s.len - 1)
    else if dist == 0 then Step([Literal(here)], s, 1)
    else if eager || len >= 128 then Step([Match(len, dist)], s, len)
    else Step([], Saved(here, dist, len), 1)
  }

  lemma RecordLit(ts: seq<Token>, data: seq<Byte>, at: nat)
    requires at < |data| && Expand(ts, []) == Some(data[..at])
    ensures Expand(ts + [Literal(data[at])], []) == Some(data[..at + 1])
  {
    var t := [Literal(data[at])];
    Tokens.ExpandAppend(ts, t, []);
    assert t[1..] == [] && data[..at] + [data[at]] == data[..at + 1];
    assert Expand(t, data[..at]) == Expand(t[1..], data[..at] + [data[at]]);
  }

  lemma RecordCopy(ts: seq<Token>, data: seq<Byte>, at: nat, len: nat, dist: nat)
    requires MatchAt(data, at, dist, len) && Expand(ts, []) == Some(data[..at])
    ensures Expand(ts + [Match(len, dist)], []) == Some(data[..at + len])
  {
    var t := [Match(len, dist)];
    Tokens.ExpandAppend(ts, t, []);
    CopyIsData(data, at, dist, len);
    assert t[1..] == [];
    assert Expand(t, data[..at]) == Expand(t[1..], Copy(data[..at], dist, len));
  }

  /** A step keeps the tokens standing for exactly the data passed, and never moves past the data. */
  lemma LazyStepIsLossless(ts: seq<Token>, data: seq<Byte>, done: nat, s: Saved, len: nat, dist: nat, eager: bool)
    requires Parsed(ts, data, done, s) && done < |data| && Found(data, done, len, dist, s)
    ensures var st := LazyStep(s, len, dist, data[done], eager);
            && st.move >= 1 && done + st.move <= |data| && AllRecordable(st.tokens)
            && Parsed(ts + st.tokens, data, done + st.move, st.saved)
  {
    var st := LazyStep(s, len, dist, data[done], eager);
    hide Expand;
    if s.len > 0 {
      if len > s.len {
        RecordLit(ts, data, done - 1);
        if len >= 128 {
          RecordCopy(ts + [Literal(s.lit)], data, done, len, dist);
          assert ts + st.tokens == ts + [Literal(s.lit)] + [Match(len, dist)];
        }
      } else {
        RecordCopy(ts, data, done - 1, s.len, s.dist);
      }
    } else if dist == 0 {
      RecordLit(ts, data, done);
    } else if eager || len >= 128 {
      RecordCopy(ts, data, done, len, dist);
    } else {
      assert ts + [] == ts;
    }
  }

  /** New data behind the old changes nothing about what was parsed. */
  lemma ParsedExtends(ts: seq<Token>, data: seq<Byte>, done: nat, s: Saved, more: seq<Byte>)
    requires Parsed(ts, data, done, s)
    ensures Parsed(ts, data + more, done, s)
  {
    assert (data + more)[..done] == data[..done];
    if s.len > 0 {
      assert (data + more)[..done - 1] == data[..done - 1];
    }
  }

  /** When all data is parsed nothing is saved, and the tokens stand for all of it. */
  lemma AllParsed(ts: seq<Token>, data: seq<Byte>, s: Saved)
    requires Parsed(ts, data, |data|, s)
    ensures s.len == 0 && Expand(ts, []) == Some(data)
  {
    assert data[..|data|] == data;
  }

  // ----- match finding

  /** What the search has so far: no match, or one that is longer than the length it started from. */
  ghost predicate Best(data: seq<Byte>, done: nat, dist: nat, len: nat, len0: nat, maxDist: nat, maxLen: nat) {
    && (dist == 0 ==> len == len0)
    && (dist > 0 ==> len0 < len <= maxLen && dist <= maxDist && MatchAt(data, done, dist, len))
  }

  /** No match longer than len at distance d. */
  ghost predicate NoLonger(data: seq<Byte>, done: nat, d: nat, len: nat) {
    !MatchAt(data, done, d, len + 1)
  }

  lemma NoLongerGrows(data: seq<Byte>, done: nat, d: nat, len: nat, len': nat)
    requires NoLonger(data, done, d, len) && len <= len'
    ensures NoLonger(data, done, d, len')
  {
  }

  /** The ring position of the byte dist before the lookahead, as the code computes it from a chain entry. */
  lemma ProbePosition(lookaheadPos: nat, done: nat, entry: nat, dist: nat)
    requires lookaheadPos == done % 0x1_0000_0000 && dist == (lookaheadPos - entry) % 0x1_0000 && dist <= done
    ensures entry % LZ_DICT_SIZE == (done - dist) % LZ_DICT_SIZE
  {
    var q, r := done / 0x1_0000_0000, (lookaheadPos - entry) / 0x1_0000;
    assert done == q * 0x1_0000_0000 + lookaheadPos;
    assert lookaheadPos - entry == r * 0x1_0000 + dist;
    assert done - dist == entry + (q * 131072 + r * 2) * LZ_DICT_SIZE;
    RingTurns(entry, q * 131072 + r * 2);
  }

  lemma RingTurns(x: nat, t: int)
    requires x + t * LZ_DICT_SIZE >= 0
    ensures x % LZ_DICT_SIZE == (x + t * LZ_DICT_SIZE) % LZ_DICT_SIZE
  {
  }

  lemma RingPosition(lookaheadPos: nat, done: nat)
    requires lookaheadPos == done % 0x1_0000_0000
    ensures lookaheadPos % LZ_DICT_SIZE == done % LZ_DICT_SIZE
  {
    var q := done / 0x1_0000_0000;
    assert done == lookaheadPos + (q * 131072) * LZ_DICT_SIZE;
    RingTurns(lookaheadPos, q * 131072);
  }

  lemma MatchOneMore(data: seq<Byte>, at: nat, dist: nat, k: nat)
    requires at + k < |data| && 1 <= dist <= at
    ensures MatchAt(data, at, dist, k + 1) <==> MatchAt(data, at, dist, k) && data[at + k] == data[at + k - dist]
  {
  }

  lemma NoMatchYet(data: seq<Byte>, at: nat, dist: nat)
    requires 1 <= dist <= at <= |data|
    ensures MatchAt(data, at, dist, 0)
  {
  }
}
