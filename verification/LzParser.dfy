/**
  Match finding and lazy parsing over the ring dictionary: tdefl_find_match (portable),
  tdefl_compress_normal and tdefl_compress.
 */
module LzParser {
  import opened Bits
  import opened Wrappers
  import opened BitStream
  import opened Tokens
  import opened LzCodes
  import opened LzMatching
  import opened HashChain
  import opened ParseTrace
  import opened FlushBlock
  import opened BlockSink
  import opened BlockSize
  import opened Blocks
  import Adler32

  /** The window holds the data, `maxDist` bytes back from `done` and all bytes ahead of it. */
  ghost predicate InWindow(dict: seq<Byte>, data: seq<Byte>, lookaheadPos: nat, done: nat, ahead: nat, maxDist: nat) {
    && Window(dict, data) && done + ahead == |data| && ahead <= MAX_MATCH_LEN
    && lookaheadPos == done % 0x1_0000_0000
    && maxDist <= done && maxDist + ahead <= LZ_DICT_SIZE
  }

  lemma ReadAhead(dict: seq<Byte>, data: seq<Byte>, lookaheadPos: nat, done: nat, ahead: nat, maxDist: nat, k: nat)
    requires InWindow(dict, data, lookaheadPos, done, ahead, maxDist) && k < ahead
    ensures lookaheadPos % 32768 + k < 33025 == |dict|
    ensures dict[lookaheadPos % 32768 + k] == data[done + k]
  {
    RingPosition(lookaheadPos, done);
    WindowRead(dict, data, done, k);
  }

  lemma ReadBack(dict: seq<Byte>, data: seq<Byte>, lookaheadPos: nat, done: nat, ahead: nat, maxDist: nat, dist: nat,
                 probePos: nat, k: nat)
    requires InWindow(dict, data, lookaheadPos, done, ahead, maxDist) && k < ahead
    requires dist <= maxDist && probePos == (done - dist) % 32768
    ensures probePos + k < 33025 == |dict|
    ensures dict[probePos + k] == data[done - dist + k]
  {
    WindowRead(dict, data, done - dist, k);
  }

  lemma EntryPosition(lookaheadPos: nat, done: nat, entry: nat, dist: nat)
    requires lookaheadPos == done % 0x1_0000_0000 && dist == (lookaheadPos - entry) % 0x1_0000 && dist <= done
    ensures entry % 32768 == (done - dist) % 32768
  {
    ProbePosition(lookaheadPos, done, entry, dist);
  }

  lemma InWindowFacts(dict: seq<Byte>, data: seq<Byte>, lookaheadPos: nat, done: nat, ahead: nat, maxDist: nat)
    requires InWindow(dict, data, lookaheadPos, done, ahead, maxDist)
    ensures |dict| == 33025 && done + ahead == |data| && ahead <= 258 && maxDist <= done
            && lookaheadPos == done % 0x1_0000_0000
  {
  }

  /** TDEFL_PROBE: follows the chain to the next candidate. It stops at the chain's end or beyond maxDist; a hit
      agrees with the lookahead in the last byte of the best match and the byte behind it. */
  method Probe(dict: array<Byte>, next: array<U16>, lookaheadPos: nat, maxDist: nat, probePos: nat, matchLen: nat,
               c0: Byte, c1: Byte, ghost data: seq<Byte>, ghost done: nat, ghost ahead: nat)
    returns (stop: bool, hit: bool, dist: nat, probePos': nat)
    requires InWindow(dict[..], data, lookaheadPos, done, ahead, maxDist) && next.Length == 32768 && probePos < 32768
    requires 1 <= matchLen < ahead && done + ahead <= |data| && c0 == data[done + matchLen]
             && c1 == data[done + matchLen - 1]
    ensures stop <==> next[probePos] == 0 || EntryDist(lookaheadPos, next[probePos]) > maxDist
    ensures !stop ==> dist == EntryDist(lookaheadPos, next[probePos]) <= maxDist <= done
    ensures !stop ==> probePos' == next[probePos] % 32768 == (done - dist) % 32768
    ensures !stop ==> (hit <==> Hit(data, done, dist, matchLen))
    ensures !stop && !hit ==> dist >= 1 && NoLonger(data, done, dist, matchLen)
  {
    ghost var D := dict[..];
    InWindowFacts(D, data, lookaheadPos, done, ahead, maxDist);
    hide InWindow, Window;
    var nextProbePos := next[probePos];
    stop, hit, dist, probePos' := false, false, 0, probePos;
    if nextProbePos == 0 { return true, hit, dist, probePos'; }
    dist := EntryDist(lookaheadPos, nextProbePos);
    if dist > maxDist { return true, hit, dist, probePos'; }
    EntryPosition(lookaheadPos, done, nextProbePos, dist);
    probePos' := nextProbePos % 32768;
    ReadBack(D, data, lookaheadPos, done, ahead, maxDist, dist, probePos', matchLen);
    ReadBack(D, data, lookaheadPos, done, ahead, maxDist, dist, probePos', matchLen - 1);
    assert dict[probePos' + matchLen] == D[probePos' + matchLen];
    assert dict[probePos' + matchLen - 1] == D[probePos' + (matchLen - 1)];
    hit := dict[probePos' + matchLen] == c0 && dict[probePos' + matchLen - 1] == c1;
    LastTwoAgree(data, done, dist, matchLen);
  }

  /** A longer match agrees in these two bytes. */
  lemma LastTwoAgree(data: seq<Byte>, done: nat, dist: nat, matchLen: nat)
    requires dist <= done && 1 <= matchLen && done + matchLen < |data|
    ensures MatchAt(data, done, dist, matchLen + 1) ==>
              data[done + matchLen] == data[done + matchLen - dist]
                  && data[done + matchLen - 1] == data[done + matchLen - 1 - dist]
  {
  }

  /** How far a candidate agrees with the lookahead. */
  method Compare(dict: array<Byte>, lookaheadPos: nat, maxDist: nat, probePos: nat, dist: nat, maxMatchLen: nat,
                 ghost data: seq<Byte>, ghost done: nat)
    returns (probeLen: nat)
    requires InWindow(dict[..], data, lookaheadPos, done, maxMatchLen, maxDist)
    requires 1 <= dist <= maxDist <= done && probePos == (done - dist) % 32768
    ensures probeLen <= maxMatchLen && MatchAt(data, done, dist, probeLen) && NoLonger(data, done, dist, probeLen)
  {
    ghost var D := dict[..];
    InWindowFacts(D, data, lookaheadPos, done, maxMatchLen, maxDist);
    hide InWindow, Window;
    NoMatchYet(data, done, dist);
    var pos := lookaheadPos % 32768;
    probeLen := 0;
    while probeLen < maxMatchLen
      invariant probeLen <= maxMatchLen && MatchAt(data, done, dist, probeLen)
    {
      hide MatchAt;
      ReadAhead(D, data, lookaheadPos, done, maxMatchLen, maxDist, probeLen);
      ReadBack(D, data, lookaheadPos, done, maxMatchLen, maxDist, dist, probePos, probeLen);
      MatchOneMore(data, done, dist, probeLen);
      assert dict[pos + probeLen] == D[pos + probeLen] && dict[probePos + probeLen] == D[probePos + probeLen];
      if dict[pos + probeLen] != dict[probePos + probeLen] { break; }
      probeLen := probeLen + 1;
    }
  }

  /** The search state: the best match so far, and the two bytes that a longer one must have. */
  ghost predicate Searching(data: seq<Byte>, done: nat, dist: nat, len: nat, len0: nat, maxDist: nat, maxLen: nat,
                            c0: Byte, c1: Byte) {
    && done + maxLen <= |data| && 1 <= len0 <= len < maxLen
    && Best(data, done, dist, len, len0, maxDist, maxLen)
    && c0 == data[done + len] && c1 == data[done + len - 1]
  }

  lemma SearchingIs(data: seq<Byte>, done: nat, dist: nat, len: nat, len0: nat, maxDist: nat, maxLen: nat, c0: Byte,
                    c1: Byte)
    requires Searching(data, done, dist, len, len0, maxDist, maxLen, c0, c1)
    ensures done + maxLen <= |data| && 1 <= len0 <= len < maxLen && c0 == data[done + len] && c1 == data[done + len - 1]
    ensures Best(data, done, dist, len, len0, maxDist, maxLen)
  {
  }

  lemma StartSearch(data: seq<Byte>, done: nat, len: nat, maxDist: nat, maxLen: nat, c0: Byte, c1: Byte)
    requires done + maxLen <= |data| && 1 <= len < maxLen && c0 == data[done + len] && c1 == data[done + len - 1]
    ensures Searching(data, done, 0, len, len, maxDist, maxLen, c0, c1)
  {
  }

  lemma BetterMatch(data: seq<Byte>, done: nat, dist: nat, len: nat, len0: nat, maxDist: nat, maxLen: nat)
    requires len0 < len <= maxLen && 1 <= dist <= maxDist && MatchAt(data, done, dist, len)
    ensures Best(data, done, dist, len, len0, maxDist, maxLen)
  {
  }

  /** One round of the search: probes until a candidate hits, three per unit of the budget. The v' candidates before it
      are no better. */
  method NextHit(dict: array<Byte>, next: array<U16>, lookaheadPos: nat, maxDist: nat, probePos: nat, probesLeft: nat,
                 matchLen: nat, c0: Byte, c1: Byte, ghost data: seq<Byte>, ghost done: nat, ghost ahead: nat,
                 ghost chain: seq<U16>, ghost pos: nat, ghost v: nat, ghost len0: nat, ghost budget: nat)
    returns (found: bool, dist: nat, probePos': nat, probesLeft': nat, ghost v': nat)
    requires InWindow(dict[..], data, lookaheadPos, done, ahead, maxDist) && next.Length == 32768 && chain == next[..]
    requires 1 <= matchLen < ahead && done + ahead <= |data| && c0 == data[done + matchLen]
             && c1 == data[done + matchLen - 1]
    requires 1 <= probesLeft <= budget && pos < 32768 && probePos == ChainPos(chain, pos, v)
    requires Before(chain, lookaheadPos, pos, data, done, len0, v) == Progress(matchLen, budget - probesLeft + 1, 0)
    requires NoneLonger(chain, lookaheadPos, pos, v, data, done, matchLen)
             && Visited(chain, lookaheadPos, maxDist, pos, v)
    ensures v <= v' && NoneLonger(chain, lookaheadPos, pos, v', data, done, matchLen)
            && Visited(chain, lookaheadPos, maxDist, pos, v')
    ensures found && dist >= 1 ==> Visited(chain, lookaheadPos, maxDist, pos, v' + 1)
    ensures found ==>
            && 1 <= probesLeft' < probesLeft && dist == ChainDist(chain, lookaheadPos, pos, v') <= maxDist <= done
            && probePos' == ChainPos(chain, pos, v' + 1) == (done - dist) % 32768
    ensures var p := Before(chain, lookaheadPos, pos, data, done, len0, v');
            && p.len == matchLen
            && (found ==> Hit(data, done, dist, matchLen) && p.used == budget - probesLeft')
            && (!found ==> p == Progress(matchLen, budget, 0)
                           || (!OnChain(chain, lookaheadPos, maxDist, pos, v') && p.used < budget))
  {
    hide *;
    found, dist, probePos', probesLeft', v' := false, 0, probePos, probesLeft, v;
    while true
      invariant 1 <= probesLeft' <= probesLeft && v <= v' && probePos' == ChainPos(chain, pos, v')
      invariant NoneLonger(chain, lookaheadPos, pos, v', data, done, matchLen)
                && Visited(chain, lookaheadPos, maxDist, pos, v')
      invariant Before(chain, lookaheadPos, pos, data, done, len0, v')
                == Progress(matchLen, budget - probesLeft' + 1, 0)
      decreases probesLeft'
    {
      probesLeft' := probesLeft' - 1;
      if probesLeft' == 0 { return; }
      for j := 0 to 3
        invariant v <= v' && probePos' == ChainPos(chain, pos, v') && Visited(chain, lookaheadPos, maxDist, pos, v')
        invariant NoneLonger(chain, lookaheadPos, pos, v', data, done, matchLen)
        invariant Before(chain, lookaheadPos, pos, data, done, len0, v')
                  == if j < 3 then Progress(matchLen, budget - probesLeft', j)
                     else Progress(matchLen, budget - probesLeft' + 1, 0)
      {
        NextBefore(chain, lookaheadPos, pos, data, done, len0, v');
        NextCandidate(chain, lookaheadPos, maxDist, pos, v');
        assert next[probePos'] == chain[probePos'];
        var stop, hit;
        stop, hit, dist, probePos' := Probe(dict, next, lookaheadPos, maxDist, probePos', matchLen, c0, c1, data, done,
                                            ahead);
        if stop { return; }
        if hit { return true, dist, probePos', probesLeft', v'; }
        OneCandidateMore(chain, lookaheadPos, pos, v', data, done, matchLen, matchLen);
        v' := v' + 1;
      }
    }
  }

  /** The portable tdefl_find_match, for any contents of the hash chain. A match found is real, reaches back at
      most maxDist and is longer than the length asked for, and its position is one of the candidates on the chain.
      None of the candidates visited is longer; and the search goes on until nothing can be longer, the chain ends or
      leaves the reach, or the budget is spent. */
  method FindMatch(dict: array<Byte>, next: array<U16>, maxProbes: (nat, nat), lookaheadPos: nat, maxDist: nat,
                   maxMatchLen: nat, len0: nat, ghost data: seq<Byte>, ghost done: nat)
    returns (matchDist: nat, matchLen: nat, ghost visited: nat, ghost best: nat)
    requires InWindow(dict[..], data, lookaheadPos, done, maxMatchLen, maxDist) && next.Length == 32768
    requires maxProbes.0 >= 1 && maxProbes.1 >= 1 && 1 <= len0 <= 257
    ensures Best(data, done, matchDist, matchLen, len0, maxDist, maxMatchLen)
    ensures maxMatchLen > len0 ==>
            Searched(next[..], lookaheadPos, maxDist, lookaheadPos % 32768, data, done, matchDist, matchLen,
                     visited, best, len0, Budget(maxProbes, len0))
  {
    InWindowFacts(dict[..], data, lookaheadPos, done, maxMatchLen, maxDist);
    NothingFound(data, done, len0, maxDist, maxMatchLen);
    BudgetIs(maxProbes, len0);
    hide *;
    var pos := lookaheadPos % 32768;
    matchDist, matchLen, visited, best := 0, len0, 0, 0;
    var probesLeft: nat := if matchLen >= 32 then maxProbes.1 else maxProbes.0;
    var c0, c1 := dict[pos + matchLen], dict[pos + matchLen - 1];
    if maxMatchLen <= matchLen { return; }
    BytesAre(dict[..], lookaheadPos, matchLen, maxDist, maxMatchLen, data, done);
    matchDist, matchLen, visited, best := FollowChain(dict, next, lookaheadPos, maxDist, maxMatchLen, probesLeft, len0,
                                                      c0, c1, data, done, next[..], pos);
  }

  /** The loop of tdefl_find_match. */
  method FollowChain(dict: array<Byte>, next: array<U16>, lookaheadPos: nat, maxDist: nat, maxMatchLen: nat,
                     budget: nat, len0: nat, c00: Byte, c10: Byte, ghost data: seq<Byte>, ghost done: nat,
                     ghost chain: seq<U16>, pos: nat)
    returns (matchDist: nat, matchLen: nat, ghost visited: nat, ghost best: nat)
    requires InWindow(dict[..], data, lookaheadPos, done, maxMatchLen, maxDist) && next.Length == 32768
             && chain == next[..]
    requires budget >= 1 && 1 <= len0 < maxMatchLen && pos < 32768 && done + maxMatchLen == |data|
    requires c00 == data[done + len0] && c10 == data[done + len0 - 1]
    ensures Best(data, done, matchDist, matchLen, len0, maxDist, maxMatchLen)
    ensures Searched(chain, lookaheadPos, maxDist, pos, data, done, matchDist, matchLen, visited, best, len0,
                     budget)
  {
    hide *;
    matchDist, matchLen, visited, best := 0, len0, 0, 0;
    var c0, c1, probePos: nat, probesLeft: nat := c00, c10, pos, budget;
    NothingFound(data, done, len0, maxDist, maxMatchLen);
    StartSearch(data, done, len0, maxDist, maxMatchLen, c0, c1);
    NoCandidates(chain, lookaheadPos, maxDist, pos, data, done, matchLen);
    NothingFromChain(chain, lookaheadPos, pos, data, done, len0);
    FirstBefore(chain, lookaheadPos, pos, data, done, len0);
    while true
      invariant Searching(data, done, matchDist, matchLen, len0, maxDist, maxMatchLen, c0, c1)
      invariant 1 <= probesLeft <= budget && probePos == ChainPos(chain, pos, visited)
      invariant NoneLonger(chain, lookaheadPos, pos, visited, data, done, matchLen)
      invariant FromChain(chain, lookaheadPos, pos, data, done, matchDist, matchLen, visited, best)
      invariant Visited(chain, lookaheadPos, maxDist, pos, visited)
      invariant Before(chain, lookaheadPos, pos, data, done, len0, visited)
                == Progress(matchLen, budget - probesLeft + 1, 0)
      decreases probesLeft
    {
      SearchingIs(data, done, matchDist, matchLen, len0, maxDist, maxMatchLen, c0, c1);
      var found, dist;
      ghost var before := visited;
      found, dist, probePos, probesLeft, visited := NextHit(dict, next, lookaheadPos, maxDist, probePos, probesLeft,
                                                            matchLen, c0, c1, data, done, maxMatchLen, chain, pos,
                                                            visited, len0, budget);
      NextBefore(chain, lookaheadPos, pos, data, done, len0, visited);
      NextCandidate(chain, lookaheadPos, maxDist, pos, visited);
      FromChainLater(chain, lookaheadPos, pos, data, done, matchDist, matchLen, before, visited, best);
      if !found || dist == 0 {
        SearchOver(chain, lookaheadPos, maxDist, pos, data, done, matchDist, matchLen, visited, best, len0, budget);
        return;
      }
      var better;
      better, matchDist, matchLen, best := TryCandidate(dict, lookaheadPos, maxDist, maxMatchLen, probePos, dist,
                                                        matchDist, matchLen, len0, data, done, chain, pos, visited,
                                                            best);
      visited := visited + 1;
      if better {
        if matchLen == maxMatchLen {
          SearchOver(chain, lookaheadPos, maxDist, pos, data, done, matchDist, matchLen, visited, best, len0, budget);
          return;
        }
        c0, c1 := NextBytes(dict, lookaheadPos, matchLen, maxDist, maxMatchLen, data, done);
        SearchOn(data, done, matchDist, matchLen, len0, maxDist, maxMatchLen, c0, c1);
      }
    }
  }

  /** A candidate that hit is compared, and taken if it is longer. */
  method TryCandidate(dict: array<Byte>, lookaheadPos: nat, maxDist: nat, maxMatchLen: nat, probePos: nat, dist: nat,
                      matchDist: nat, matchLen: nat, ghost len0: nat, ghost data: seq<Byte>, ghost done: nat,
                      ghost chain: seq<U16>, ghost pos: nat, ghost visited: nat, ghost best: nat)
    returns (better: bool, matchDist': nat, matchLen': nat, ghost best': nat)
    requires InWindow(dict[..], data, lookaheadPos, done, maxMatchLen, maxDist) && |chain| == 32768 && pos < 32768
    requires 1 <= dist <= maxDist <= done && probePos == (done - dist) % 32768 && len0 <= matchLen
    requires dist == ChainDist(chain, lookaheadPos, pos, visited)
    requires NoneLonger(chain, lookaheadPos, pos, visited, data, done, matchLen)
    requires FromChain(chain, lookaheadPos, pos, data, done, matchDist, matchLen, visited, best)
    ensures NoneLonger(chain, lookaheadPos, pos, visited + 1, data, done, matchLen')
    ensures FromChain(chain, lookaheadPos, pos, data, done, matchDist', matchLen', visited + 1, best')
    ensures better ==>
            matchLen < matchLen' <= maxMatchLen && Best(data, done, matchDist', matchLen', len0, maxDist, maxMatchLen)
    ensures !better ==> matchDist' == matchDist && matchLen' == matchLen
    ensures matchLen' == Longer(data, done, dist, matchLen) && (better ==> best' == visited)
  {
    hide *;
    matchDist', matchLen', best' := matchDist, matchLen, best;
    var probeLen := Compare(dict, lookaheadPos, maxDist, probePos, dist, maxMatchLen, data, done);
    better := probeLen > matchLen;
    LongerIs(data, done, dist, matchLen, probeLen);
    if better {
      BetterMatch(data, done, dist, probeLen, len0, maxDist, maxMatchLen);
      BetterFromChain(chain, lookaheadPos, pos, data, done, matchLen, probeLen, visited);
      matchDist', matchLen', best' := dist, probeLen, visited;
    } else {
      NoLongerGrows(data, done, dist, probeLen, matchLen);
      FromChainLater(chain, lookaheadPos, pos, data, done, matchDist, matchLen, visited, visited + 1, best);
    }
    OneCandidateMore(chain, lookaheadPos, pos, visited, data, done, matchLen, matchLen');
  }

  lemma BudgetIs(maxProbes: (nat, nat), len0: nat)
    ensures Budget(maxProbes, len0) == if len0 >= 32 then maxProbes.1 else maxProbes.0
  {
  }

  lemma NothingFound(data: seq<Byte>, done: nat, len: nat, maxDist: nat, maxLen: nat)
    ensures Best(data, done, 0, len, len, maxDist, maxLen)
  {
  }

  lemma SearchOn(data: seq<Byte>, done: nat, dist: nat, len: nat, len0: nat, maxDist: nat, maxLen: nat, c0: Byte,
                 c1: Byte)
    requires done + maxLen <= |data| && 1 <= len0 <= len < maxLen && c0 == data[done + len]
             && c1 == data[done + len - 1]
    requires Best(data, done, dist, len, len0, maxDist, maxLen)
    ensures Searching(data, done, dist, len, len0, maxDist, maxLen, c0, c1)
  {
  }

  lemma BytesAre(dict: seq<Byte>, lookaheadPos: nat, matchLen: nat, maxDist: nat, maxMatchLen: nat, data: seq<Byte>,
                 done: nat)
    requires InWindow(dict, data, lookaheadPos, done, maxMatchLen, maxDist) && 1 <= matchLen < maxMatchLen
             && done + maxMatchLen <= |data|
    ensures lookaheadPos % 32768 + matchLen < |dict| && dict[lookaheadPos % 32768 + matchLen] == data[done + matchLen]
    ensures dict[lookaheadPos % 32768 + matchLen - 1] == data[done + matchLen - 1]
  {
    hide InWindow, Window;
    ReadAhead(dict, data, lookaheadPos, done, maxMatchLen, maxDist, matchLen);
    ReadAhead(dict, data, lookaheadPos, done, maxMatchLen, maxDist, matchLen - 1);
  }

  method NextBytes(dict: array<Byte>, lookaheadPos: nat, matchLen: nat, maxDist: nat, maxMatchLen: nat,
                   ghost data: seq<Byte>, ghost done: nat)
    returns (c0: Byte, c1: Byte)
    requires InWindow(dict[..], data, lookaheadPos, done, maxMatchLen, maxDist) && 1 <= matchLen < maxMatchLen
             && done + maxMatchLen <= |data|
    ensures c0 == data[done + matchLen] && c1 == data[done + matchLen - 1]
  {
    hide InWindow, Window;
    BytesAre(dict[..], lookaheadPos, matchLen, maxDist, maxMatchLen, data, done);
    var pos := lookaheadPos % 32768;
    c0, c1 := dict[pos + matchLen], dict[pos + matchLen - 1];
  }

  /** Matches of run-length mode: how often the byte before the lookahead repeats. */
  method RunMatch(dict: array<Byte>, lookaheadPos: nat, maxDist: nat, lookaheadSize: nat, ghost data: seq<Byte>,
                  ghost done: nat)
    returns (matchDist: nat, matchLen: nat)
    requires InWindow(dict[..], data, lookaheadPos, done, lookaheadSize, maxDist) && maxDist >= 1 && lookaheadSize >= 1
    ensures if matchDist == 0 then matchLen == 0
            else matchDist == 1 && 3 <= matchLen <= lookaheadSize && MatchAt(data, done, 1, matchLen)
    ensures NoLonger(data, done, 1, if matchDist == 0 then 2 else matchLen)
  {
    ghost var D := dict[..];
    InWindowFacts(D, data, lookaheadPos, done, lookaheadSize, maxDist);
    var pos := lookaheadPos % 32768;
    var before := (lookaheadPos - 1) % 32768;
    RunPosition(lookaheadPos, done);
    ReadBack(D, data, lookaheadPos, done, lookaheadSize, maxDist, 1, before, 0);
    var c := dict[before];
    assert c == D[before + 0];
    hide InWindow, Window;
    NoMatchYet(data, done, 1);
    matchDist, matchLen := 0, 0;
    while matchLen < lookaheadSize
      invariant matchLen <= lookaheadSize && MatchAt(data, done, 1, matchLen) && c == data[done - 1]
    {
      ReadAhead(D, data, lookaheadPos, done, lookaheadSize, maxDist, matchLen);
      MatchOneMore(data, done, 1, matchLen);
      assert dict[pos + matchLen] == D[pos + matchLen];
      RunSame(data, done, matchLen);
      if dict[pos + matchLen] != c { break; }
      matchLen := matchLen + 1;
    }
    assert NoLonger(data, done, 1, matchLen);
    if matchLen < 3 {
      NoLongerGrows(data, done, 1, matchLen, 2);
      matchLen := 0;
    } else {
      matchDist := 1;
    }
  }

  lemma RunSame(data: seq<Byte>, done: nat, k: nat)
    requires MatchAt(data, done, 1, k) && done + k < |data|
    ensures data[done + k - 1] == data[done - 1]
  {
    if k > 0 { RunSame(data, done, k - 1); }
  }

  lemma RunPosition(lookaheadPos: nat, done: nat)
    requires lookaheadPos == done % 0x1_0000_0000 && done >= 1
    ensures (lookaheadPos - 1) % 32768 == (done - 1) % 32768
  {
    var q := done / 0x1_0000_0000;
    if lookaheadPos == 0 {
      assert done - 1 == 32767 + (q * 131072 - 1) * 32768;
      RemainderIs(done - 1, q * 131072 - 1, 32767);
    } else {
      var m := (lookaheadPos - 1) / 32768;
      RemainderIs(done - 1, q * 131072 + m, (lookaheadPos - 1) % 32768);
    }
  }

  lemma RemainderIs(x: int, q: int, r: nat)
    requires r < 32768 && x == q * 32768 + r
    ensures x % 32768 == r
  {
  }

  // ----- filling the window

  /** A byte goes into the ring, and into the mirror if it lies in the ring's first 257 bytes. */
  method WriteDict(dict: array<Byte>, dstPos: nat, c: Byte, ghost data: seq<Byte>)
    requires Window(dict[..], data) && dstPos == |data| % 32768 && dict.Length == 33025
    modifies dict
    ensures Window(dict[..], data + [c])
  {
    ghost var D := dict[..];
    dict[dstPos] := c;
    if dstPos < MAX_MATCH_LEN - 1 {
      dict[LZ_DICT_SIZE + dstPos] := c;
    }
    ghost var E := dict[..];
    if dstPos < 257 {
      ghost var D1: seq<Byte> := D[dstPos := c];
      assert E == D1[LZ_DICT_SIZE + dstPos := c];
    } else {
      assert E == D[dstPos := c];
    }
    hide Window;
    WindowPush(D, data, c, E);
  }

  /** Position insPos becomes the head of its hash chain. */
  method InsertHash(next: array<U16>, hash: array<U16>, insPos: nat, h: nat)
    requires next != hash && next.Length == 32768 && hash.Length == LZ_HASH_SIZE && h < LZ_HASH_SIZE
    modifies next, hash
    ensures next[..] == old(next[..])[insPos % 32768 := old(hash[h])]
    ensures hash[..] == old(hash[..])[h := insPos % 0x1_0000]
  {
    next[insPos % 32768] := hash[h];
    hash[h] := insPos % 0x1_0000;
  }

  lemma RingNext(n: nat, dstPos: nat)
    requires dstPos == n % 32768
    ensures (dstPos + 1) % 32768 == (n + 1) % 32768
  {
  }

  lemma InsertPosition(n: nat, insPos: nat)
    requires insPos == n % 0x1_0000_0000
    ensures insPos % 32768 == n % 32768 && insPos % 0x1_0000 == n % 0x1_0000 && (insPos + 1) % 32768 == (n + 1) % 32768
  {
    var q := n / 0x1_0000_0000;
    assert n == insPos + (q * 131072) * 32768 && n == insPos + (q * 65536) * 0x1_0000;
    RingTurns(insPos, q * 131072);
    RingTurns(insPos + 1, q * 131072);
    WordTurns(insPos, q * 65536);
  }

  lemma WordTurns(x: nat, t: nat)
    ensures (x + t * 0x1_0000) % 0x1_0000 == x % 0x1_0000
  {
  }

  lemma RingByte(dict: seq<Byte>, data: seq<Byte>, a: nat)
    requires Window(dict, data) && a < |data| && |data| - 32768 <= a
    ensures a % 32768 < |dict| && dict[a % 32768] == data[a]
  {
  }

  /** The position that has three bytes with c goes into its hash chain. */
  method InsertNext(next: array<U16>, hash: array<U16>, insPos: nat, h: nat, c: Byte, ghost data: seq<Byte>,
                    ghost start: Links, ghost base: nat)
    requires next != hash && next.Length == 32768 && hash.Length == LZ_HASH_SIZE && Sized(start) && |data| >= base + 2
    requires insPos == (|data| - 2) % 0x1_0000_0000 && h == HashAt(data + [c], |data| - 2)
    requires Links(next[..], hash[..]) == Chains(start, data, base)
    modifies next, hash
    ensures Links(next[..], hash[..]) == Chains(start, data + [c], base)
  {
    ChainsSnoc(start, data, c, base);
    InsertPosition(|data| - 2, insPos);
    hide Chains, HashStep, HashTwo;
    InsertHash(next, hash, insPos, h);
  }

  /** One byte, when at least two bytes were there before: h is the hash of the last two. */
  method TakeByte(dict: array<Byte>, next: array<U16>, hash: array<U16>, dstPos: nat, insPos: nat, h: nat, c: Byte,
                  ghost data: seq<Byte>, ghost start: Links, ghost base: nat)
    returns (h': nat, dstPos': nat, insPos': nat, ghost data': seq<Byte>)
    requires next != hash && dict.Length == 33025 && next.Length == 32768 && hash.Length == LZ_HASH_SIZE
    requires Window(dict[..], data) && dstPos == |data| % 32768 && Sized(start) && |data| >= base + 2
    requires insPos == (|data| - 2) % 0x1_0000_0000 && Links(next[..], hash[..]) == Chains(start, data, base)
    requires h % 1024 == HashTwo(data[|data| - 2], data[|data| - 1]) % 1024
    modifies dict, next, hash
    ensures data' == data + [c] && |data'| == |data| + 1
    ensures Window(dict[..], data') && Links(next[..], hash[..]) == Chains(start, data', base)
    ensures dstPos' == |data'| % 32768 && insPos' == (|data'| - 2) % 0x1_0000_0000
    ensures h' % 1024 == HashTwo(data'[|data'| - 2], data'[|data'| - 1]) % 1024
  {
    HashAtEnd(data, c);
    RingNext(|data|, dstPos);
    WordNext(|data| - 2, insPos);
    hide *;
    data' := data + [c];
    dstPos', insPos' := (dstPos + 1) % 32768, (insPos + 1) % 0x1_0000_0000;
    HashRolls(h, data[|data| - 2], data[|data| - 1], c);
    WriteDict(dict, dstPos, c, data);
    h' := HashStep(h, c);
    InsertNext(next, hash, insPos, h', c, data, start, base);
  }

  lemma HashAtEnd(data: seq<Byte>, c: Byte)
    requires |data| >= 2
    ensures HashAt(data + [c], |data| - 2) == HashStep(HashTwo(data[|data| - 2], data[|data| - 1]), c)
    ensures LZ_HASH_SIZE == 32768
  {
    hide HashStep, HashTwo;
  }

  lemma InsertsAt(lookaheadPos: nat, done: nat, lookaheadSize: nat, insPos: nat)
    requires lookaheadPos == done % 0x1_0000_0000 && done + lookaheadSize >= 2
             && insPos == (lookaheadPos + lookaheadSize - 2) % 0x1_0000_0000
    ensures insPos == (done + lookaheadSize - 2) % 0x1_0000_0000
    ensures (insPos + 1) % 0x1_0000_0000 == (done + lookaheadSize - 1) % 0x1_0000_0000
  {
  }

  /** The hash of the last two bytes. */
  method LastTwo(dict: array<Byte>, insPos: nat, ghost data: seq<Byte>) returns (h: nat)
    requires Window(dict[..], data) && |data| >= 2 && insPos == (|data| - 2) % 0x1_0000_0000
    ensures h == HashTwo(data[|data| - 2], data[|data| - 1])
  {
    hide *;
    InsertPosition(|data| - 2, insPos);
    RingByte(dict[..], data, |data| - 2);
    RingByte(dict[..], data, |data| - 1);
    h := HashTwo(dict[insPos % 32768], dict[(insPos + 1) % 32768]);
  }

  /** The next bytes of the source, as many as there is room for, when at least two bytes were there before. Each
      position that gets its three bytes goes into the chain of their hash. */
  method FillFast(dict: array<Byte>, next: array<U16>, hash: array<U16>, lookaheadPos: nat, lookaheadSize: nat,
                  src: seq<Byte>, i: nat, ghost data: seq<Byte>, ghost done: nat, ghost start: Links, ghost base: nat)
    returns (i': nat, lookaheadSize': nat)
    requires next != hash && dict.Length == 33025 && next.Length == 32768 && hash.Length == LZ_HASH_SIZE
             && lookaheadSize <= 258
    requires Window(dict[..], data) && i <= |src| && (lookaheadPos + lookaheadSize) % 32768 == |data| % 32768
    requires lookaheadPos == done % 0x1_0000_0000 && done + lookaheadSize == |data|
    requires Sized(start) && |data| >= base + 2 && Links(next[..], hash[..]) == Chains(start, data, base)
    modifies dict, next, hash
    ensures i <= i' <= |src| && lookaheadSize' == lookaheadSize + (i' - i) <= 258
            && (lookaheadSize' == 258 || i' == |src|)
    ensures Window(dict[..], data + src[i..i']) && Links(next[..], hash[..]) == Chains(start, data + src[i..i'], base)
  {
    Lengths();
    hide *;
    var dstPos := (lookaheadPos + lookaheadSize) % 32768;
    var insPos := (lookaheadPos + lookaheadSize - 2) % 0x1_0000_0000;
    InsertsAt(lookaheadPos, done, lookaheadSize, insPos);
    var h := LastTwo(dict, insPos, data);
    var n := if |src| - i < MAX_MATCH_LEN - lookaheadSize then |src| - i else MAX_MATCH_LEN - lookaheadSize;
    i', lookaheadSize' := i + n, lookaheadSize + n;
    ghost var D := data;
    assert D == data + src[i..i];
    for k := 0 to n
      invariant D == data + src[i..i + k] && |D| == |data| + k && Window(dict[..], D) && dstPos == |D| % 32768
      invariant insPos == (|D| - 2) % 0x1_0000_0000 && Links(next[..], hash[..]) == Chains(start, D, base)
      invariant h % 1024 == HashTwo(D[|D| - 2], D[|D| - 1]) % 1024
    {
      var c := src[i + k];
      h, dstPos, insPos, D := TakeByte(dict, next, hash, dstPos, insPos, h, c, D, start, base);
      OneByteMore(data, src, i, i + k);
    }
  }

  lemma OneByteMore(data: seq<Byte>, src: seq<Byte>, i: nat, j: nat)
    requires i <= j < |src|
    ensures data + src[i..j] + [src[j]] == data + src[i..j + 1] && |data + src[i..j]| == |data| + (j - i)
  {
  }

  lemma WordNext(n: nat, insPos: nat)
    requires insPos == n % 0x1_0000_0000
    ensures (insPos + 1) % 0x1_0000_0000 == (n + 1) % 0x1_0000_0000
  {
  }

  /** Byte by byte, as long as there are fewer than two bytes to hash; the chains hold no position before that. */
  method FillSlow(dict: array<Byte>, next: array<U16>, hash: array<U16>, lookaheadPos: nat, lookaheadSize: nat,
                  dictSize: nat, src: seq<Byte>, i: nat, ghost data: seq<Byte>, ghost done: nat, ghost start: Links,
                  ghost base: nat)
    returns (i': nat, lookaheadSize': nat)
    requires next != hash && dict.Length == 33025 && next.Length == 32768 && hash.Length == LZ_HASH_SIZE
             && lookaheadSize <= 258
    requires Window(dict[..], data) && i <= |src| && (lookaheadPos + lookaheadSize) % 32768 == |data| % 32768
    requires lookaheadPos == done % 0x1_0000_0000 && done + lookaheadSize == |data| == base + dictSize + lookaheadSize
    requires Sized(start) && Links(next[..], hash[..]) == Chains(start, data, base)
    modifies dict, next, hash
    ensures i <= i' <= |src| && lookaheadSize' == lookaheadSize + (i' - i) <= 258
            && (lookaheadSize' == 258 || i' == |src|)
    ensures Window(dict[..], data + src[i..i'])
    ensures Links(next[..], hash[..]) == Chains(start, data + src[i..i'], base)
  {
    hide *;
    Lengths();
    i', lookaheadSize' := i, lookaheadSize;
    ghost var D := data;
    assert D == data + src[i..i];
    while i' < |src| && lookaheadSize' < MAX_MATCH_LEN
      invariant i <= i' <= |src| && lookaheadSize' == lookaheadSize + (i' - i) <= 258
      invariant D == data + src[i..i'] && |D| == done + lookaheadSize' && Window(dict[..], D)
      invariant Links(next[..], hash[..]) == Chains(start, D, base)
    {
      D := SlowByte(dict, next, hash, lookaheadPos, lookaheadSize', dictSize, src[i'], D, done, start, base);
      OneByteMore(data, src, i, i');
      i' := i' + 1;
      lookaheadSize' := lookaheadSize' + 1;
    }
  }

  /** One byte, when there may be none to hash before it. */
  method SlowByte(dict: array<Byte>, next: array<U16>, hash: array<U16>, lookaheadPos: nat, lookaheadSize: nat,
                  dictSize: nat, c: Byte, ghost data: seq<Byte>, ghost done: nat, ghost start: Links, ghost base: nat)
    returns (ghost data': seq<Byte>)
    requires next != hash && dict.Length == 33025 && next.Length == 32768 && hash.Length == LZ_HASH_SIZE
    requires Window(dict[..], data) && lookaheadPos == done % 0x1_0000_0000
    requires done + lookaheadSize == |data| == base + dictSize + lookaheadSize
    requires Sized(start) && Links(next[..], hash[..]) == Chains(start, data, base)
    modifies dict, next, hash
    ensures data' == data + [c] && |data'| == |data| + 1 && Window(dict[..], data')
    ensures Links(next[..], hash[..]) == Chains(start, data', base)
  {
    hide *;
    Lengths();
    FillPosition(done, lookaheadPos, lookaheadSize);
    data' := data + [c];
    var dstPos := (lookaheadPos + lookaheadSize) % 32768;
    WriteDict(dict, dstPos, c, data);
    if lookaheadSize + 1 + dictSize >= MIN_MATCH_LEN {
      LinkLast(dict, next, hash, lookaheadPos, lookaheadSize + 1, c, data, done, start, base);
    } else {
      ChainsSnoc(start, data, c, base);
    }
  }

  /** The hash of the last three bytes, the last of which has just been written, and its chain. */
  method LinkLast(dict: array<Byte>, next: array<U16>, hash: array<U16>, lookaheadPos: nat, lookaheadSize: nat, c: Byte,
                  ghost data: seq<Byte>, ghost done: nat, ghost start: Links, ghost base: nat)
    requires next != hash && dict.Length == 33025 && next.Length == 32768 && hash.Length == LZ_HASH_SIZE
    requires Window(dict[..], data + [c]) && lookaheadPos == done % 0x1_0000_0000 && lookaheadSize >= 1
    requires done + lookaheadSize == |data| + 1 && Sized(start) && |data| >= base + 2
             && Links(next[..], hash[..]) == Chains(start, data, base)
    modifies next, hash
    ensures Links(next[..], hash[..]) == Chains(start, data + [c], base)
  {
    hide *;
    var insPos := (lookaheadPos + (lookaheadSize - 1) - 2) % 0x1_0000_0000;
    InsertsAt(lookaheadPos, done, lookaheadSize - 1, insPos);
    InsertPosition(|data| - 2, insPos);
    RingByte(dict[..], data + [c], |data| - 2);
    RingByte(dict[..], data + [c], |data| - 1);
    HashAtEnd(data, c);
    var h := HashStep(HashTwo(dict[insPos % 32768], dict[(insPos + 1) % 32768]), c);
    InsertNext(next, hash, insPos, h, c, data, start, base);
  }

  // ----- the compressor

  /** Where the lookahead lies in the data, and how far back matches may reach. */
  ghost predicate Placed(data: seq<Byte>, done: nat, lookaheadPos: nat, lookaheadSize: nat, dictSize: nat) {
    && lookaheadPos == done % 0x1_0000_0000 && done + lookaheadSize == |data|
    && lookaheadSize <= MAX_MATCH_LEN && dictSize <= done && dictSize <= LZ_DICT_SIZE
  }

  /** The hash chains hold the positions of the data from `base` on, and matches may reach back to there, or nearly as
      far as the window does. */
  ghost predicate Chained(start: Links, base: nat, next: seq<U16>, hash: seq<U16>, data: seq<Byte>, done: nat,
                          dictSize: nat) {
    && Sized(start) && base <= done <= |data| && Reaching(done - base, |data| - done, dictSize)
    && Links(next, hash) == Chains(start, data, base)
  }

  /** When the parser flushes on its own: the token buffer is nearly full, or a block of more than 31 KB does not get
      shorter by much, 115/128 of the buffer being as much as the data, or is to be raw anyway. */
  predicate FlushDue(next: nat, total: nat, rawBlocks: bool) {
    next > LZ_CODE_BUF_SIZE - 8 || (total > 31 * 1024 && (128 * total <= 115 * next || rawBlocks))
  }

  lemma FlushDueIs(next: nat, total: nat, rawBlocks: bool)
    ensures FlushDue(next, total, rawBlocks) <==>
            next > 65528 || (total > 31 * 1024 && (next * 115 / 128 >= total || rawBlocks))
  {
  }

  /** What the turns of one call saw: as much as fits, or all that it was given; and with which chains. */
  ghost predicate SeenBy(turns: seq<Turn>, from: nat, total: nat, start: Links, base: nat, flush: bool) {
    forall i :: from <= i < |turns| ==>
      && turns[i].have == Min(turns[i].at + MAX_MATCH_LEN, total) && turns[i].start == start && turns[i].base == base
      && (!flush ==> turns[i].have == turns[i].at + MAX_MATCH_LEN)
  }

  class Compressor {
    const dict: array<Byte>
    const next: array<U16>
    const hash: array<U16>
    const codes: LzCodeBuffer
    const greedy: bool
    const rleMatches: bool
    const filterMatches: bool
    const sink: BlockSink
    const maxProbes: (nat, nat)
    var lookaheadPos: nat
    var lookaheadSize: nat
    var dictSize: nat
    var adler32: nat
    var saved: Saved
    ghost var data: seq<Byte>
    ghost var done: nat
    ghost var closed: seq<Token>
    ghost var block: seq<Token>
    /** Where the hash chains were last empty, and what the arrays held then. */
    ghost var base: nat
    ghost var start: Links
    ghost var turns: seq<Turn>

    ghost function Config(): Parsing {
      Parsing(greedy || rleMatches, rleMatches, sink.rawBlocks, filterMatches, maxProbes)
    }

    /** All tokens recorded since the start: those of finished blocks, then those of the current one. */
    ghost function Tokens(): seq<Token>
      reads this`closed, this`block
    {
      closed + block
    }

    ghost predicate Shaped()
      reads this, codes, sink, sink.out
    {
      && dict.Length == 33025 && next.Length == 32768 && hash.Length == LZ_HASH_SIZE && next != hash
         && dict != codes.buf
      && maxProbes.0 >= 1 && maxProbes.1 >= 1
      && sink.out.buf != dict && sink.out.buf != codes.buf && adler32 < 0x1_0000_0000
    }

    /** The window and the chains hold the data; the tokens and the saved match account for all of it up to `done`, and
        are what the turns so far say. */
    ghost predicate Valid()
      reads this, dict, next, hash, codes, codes.buf, codes.litCount, codes.distCount, sink, sink.out
    {
      && Chained(start, base, next[..], hash[..], data, done, dictSize)
      && Traced(Config(), data, turns, done, saved, Tokens())
      && Shaped() && Placed(data, done, lookaheadPos, lookaheadSize, dictSize) && Window(dict[..], data)
      && Parsed(Tokens(), data, done, saved)
      && codes.Valid(block) && codes.next <= LZ_CODE_BUF_SIZE - 8
      && sink.Valid(closed)
    }

    constructor (greedy: bool, rleMatches: bool, rawBlocks: bool, staticBlocks: bool, filterMatches: bool,
                 nondeterministic: bool, maxProbes: (nat, nat), accepting: bool, zlib: bool)
      requires maxProbes.0 >= 1 && maxProbes.1 >= 1
      ensures Valid() && data == [] && closed == [] && block == [] && lookaheadSize == 0 && adler32 == 1
      ensures sink.accepting == accepting && sink.zlib == zlib && sink.rawBlocks == rawBlocks
      ensures sink.flushed == [] && sink.pieces == [] && turns == [] && base == 0
      ensures !nondeterministic ==> Empty(start)
      ensures Config() == Parsing(greedy || rleMatches, rleMatches, rawBlocks, filterMatches, maxProbes)
      ensures fresh(sink) && fresh(sink.out) && fresh(sink.out.buf) && fresh(codes) && fresh(dict) && fresh(next)
              && fresh(hash)
      ensures fresh(codes.buf) && fresh(codes.litCount) && fresh(codes.distCount)
    {
      hide *;
      dict := new Byte[33025];
      next := new U16[32768];
      hash := new U16[32768];
      codes := new LzCodeBuffer();
      sink := new BlockSink(rawBlocks, staticBlocks, accepting, zlib);
      this.greedy, this.rleMatches, this.filterMatches, this.maxProbes := greedy, rleMatches, filterMatches, maxProbes;
      lookaheadPos, lookaheadSize, dictSize, adler32 := 0, 0, 0, 1;
      saved := Saved(0, 0, 0);
      data, done, closed, block, base, turns := [], 0, [], [], 0, [];
      new;
      if !nondeterministic {
        forall i | 0 <= i < hash.Length { hash[i] := 0; }
      }
      start := Links(next[..], hash[..]);
      ConfigIs();
      CodeSizesAre();
      NothingParsed(dict[..]);
      NothingChained(start, next[..], hash[..]);
      if !nondeterministic { IsEmpty(start); }
      NothingTraced(Config(), data);
      IsValid();
    }

    lemma Opened()
      requires Valid()
      ensures Shaped() && Placed(data, done, lookaheadPos, lookaheadSize, dictSize) && Window(dict[..], data)
      ensures Parsed(Tokens(), data, done, saved)
      ensures codes.Valid(block) && codes.next <= LZ_CODE_BUF_SIZE - 8 == 65528
      ensures Tokens() == closed + block && maxProbes.0 >= 1 && maxProbes.1 >= 1 && dictSize <= 32768
      ensures dict.Length == 33025 && next.Length == 32768 && hash.Length == LZ_HASH_SIZE && next != hash
              && dict != codes.buf
      ensures sink.out.buf != dict && sink.out.buf != codes.buf && sink.Valid(closed) && adler32 < 0x1_0000_0000
      ensures Chained(start, base, next[..], hash[..], data, done, dictSize)
      ensures Traced(Config(), data, turns, done, saved, closed + block)
    {
    }

    lemma IsValid()
      requires dict.Length == 33025 && next.Length == 32768 && hash.Length == LZ_HASH_SIZE && next != hash
               && dict != codes.buf
      requires maxProbes.0 >= 1 && maxProbes.1 >= 1
      requires Placed(data, done, lookaheadPos, lookaheadSize, dictSize) && Window(dict[..], data)
      requires Parsed(closed + block, data, done, saved)
      requires codes.Valid(block) && codes.next <= LZ_CODE_BUF_SIZE - 8
      requires sink.out.buf != dict && sink.out.buf != codes.buf && sink.Valid(closed) && adler32 < 0x1_0000_0000
      requires Chained(start, base, next[..], hash[..], data, done, dictSize)
      requires Traced(Config(), data, turns, done, saved, closed + block)
      ensures Valid()
      ensures Tokens() == closed + block
    {
    }

    /** The first part of a turn: the lookahead is filled up from the source, and the reach of matches is cut to what
        is left. */
    method Fill(src: seq<Byte>, i: nat) returns (i': nat)
      requires Valid() && i <= |src|
      modifies `lookaheadSize, `dictSize, `data, dict, next, hash
      ensures Valid() && i <= i' <= |src| && data == old(data) + src[i..i']
      ensures lookaheadSize == MAX_MATCH_LEN || i' == |src|
      ensures lookaheadSize == old(lookaheadSize) + (i' - i)
      ensures dictSize + lookaheadSize <= LZ_DICT_SIZE
    {
      hide *;
      ghost var D := data;
      Opened();
      FillAt(D, done, lookaheadPos, lookaheadSize, dictSize);
      Lengths();
      var n := lookaheadSize;
      ChainedIs(start, base, next[..], hash[..], data, done, dictSize);
      i', lookaheadSize := TakeIn(src, i, D);
      data := D + src[i..i'];
      dictSize := if LZ_DICT_SIZE - lookaheadSize < dictSize then LZ_DICT_SIZE - lookaheadSize else dictSize;
      MoreTaken(Config(), D, src[i..i'], done, lookaheadPos, n, old(dictSize), start, base, next[..], hash[..], saved,
                turns, closed + block);
      IsValid();
    }

    /** The two ways of taking bytes in. */
    method TakeIn(src: seq<Byte>, i: nat, ghost D: seq<Byte>) returns (i': nat, lookaheadSize': nat)
      requires next != hash && dict.Length == 33025 && next.Length == 32768 && hash.Length == LZ_HASH_SIZE
               && lookaheadSize <= 258
      requires Window(dict[..], D) && i <= |src| && (lookaheadPos + lookaheadSize) % 32768 == |D| % 32768
      requires lookaheadPos == done % 0x1_0000_0000 && done + lookaheadSize == |D| && Sized(start) && base <= done
      requires Reaching(done - base, lookaheadSize, dictSize) && Links(next[..], hash[..]) == Chains(start, D, base)
      modifies dict, next, hash
      ensures i <= i' <= |src| && lookaheadSize' == lookaheadSize + (i' - i) <= 258
              && (lookaheadSize' == 258 || i' == |src|)
      ensures Window(dict[..], D + src[i..i']) && Links(next[..], hash[..]) == Chains(start, D + src[i..i'], base)
    {
      Lengths();
      EnoughToHash(|D|, done, base, lookaheadSize, dictSize);
      hide *;
      if lookaheadSize + dictSize >= MIN_MATCH_LEN - 1 {
        i', lookaheadSize' := FillFast(dict, next, hash, lookaheadPos, lookaheadSize, src, i, D, done, start, base);
      } else {
        i', lookaheadSize' := FillSlow(dict, next, hash, lookaheadPos, lookaheadSize, dictSize, src, i, D, done, start,
                                       base);
      }
    }

    /** The match for the current position: none, or one that the window really holds. It is what is to be sought and
        found, unless one of the filters drops it. */
    method Search() returns (curMatchDist: nat, curMatchLen: nat, ghost dist: nat, ghost len: nat)
      requires Valid() && lookaheadSize >= 1 && dictSize + lookaheadSize <= 32768
      ensures Found(data, done, curMatchLen, curMatchDist, saved) && curMatchDist <= dictSize
      ensures curMatchDist > 0 ==>
              !(curMatchLen == 3 && curMatchDist >= 8 * 1024) && (filterMatches ==> curMatchLen > 5)
      ensures (rleMatches ==> curMatchDist <= 1) && (sink.rawBlocks ==> curMatchDist == 0)
      ensures Sought(Config(), next[..], data, done, dictSize, saved, len, dist)
      ensures (curMatchLen, curMatchDist) == if Dropped(filterMatches, done, len, dist) then (0, 0) else (len, dist)
    {
      ConfigIs();
      hide *;
      Opened();
      FillAt(data, done, lookaheadPos, lookaheadSize, dictSize);
      WindowHere(dict[..], data, done, lookaheadPos, lookaheadSize, dictSize);
      SavedBound(Tokens(), data, done, saved);
      curMatchDist, curMatchLen := 0, if saved.len > 0 then saved.len else 2;
      if rleMatches || sink.rawBlocks {
        if dictSize > 0 && !sink.rawBlocks {
          curMatchDist, curMatchLen := RunMatch(dict, lookaheadPos, dictSize, lookaheadSize, data, done);
        }
      } else {
        ghost var len0 := curMatchLen;
        ghost var visited, best;
        curMatchDist, curMatchLen, visited, best := FindMatch(dict, next, maxProbes, lookaheadPos, dictSize,
                                                              lookaheadSize, curMatchLen, data, done);
        BestIs(data, done, curMatchDist, curMatchLen, len0, dictSize, lookaheadSize);
        SoughtOnChain(Config(), next[..], data, done, dictSize, saved, curMatchLen, curMatchDist, visited, best);
      }
      dist, len := curMatchDist, curMatchLen;
      if rleMatches || sink.rawBlocks { SoughtRun(Config(), next[..], data, done, dictSize, saved, len, dist); }
      RingPosition(lookaheadPos, done);
      DroppedIs(filterMatches, done, len, dist);
      var curPos := lookaheadPos % 32768;
      if (curMatchLen == 3 && curMatchDist >= 8 * 1024) || curPos == curMatchDist
          || (filterMatches && curMatchLen <= 5) {
        curMatchDist, curMatchLen := 0, 0;
      }
      NowFound(data, done, curMatchLen, curMatchDist, saved);
    }

    /** Records and saves what the parsing state machine says. */
    method Decide(curMatchLen: nat, curMatchDist: nat) returns (lenToMove: nat)
      requires Valid() && lookaheadSize >= 1 && dictSize + lookaheadSize <= 32768
      requires Found(data, done, curMatchLen, curMatchDist, saved) && done < |data|
      modifies `saved, `block, codes, codes.buf, codes.litCount, codes.distCount
      ensures var st := LazyStep(old(saved), curMatchLen, curMatchDist, data[done], greedy || rleMatches);
              saved == st.saved && lenToMove == st.move && block == old(block) + st.tokens
      ensures codes.Valid(block) && codes.next <= old(codes.next) + 6
    {
      hide *;
      Opened();
      FillAt(data, done, lookaheadPos, lookaheadSize, dictSize);
      WindowHere(dict[..], data, done, lookaheadPos, lookaheadSize, dictSize);
      ReadAhead(dict[..], data, lookaheadPos, done, lookaheadSize, dictSize, 0);
      SavedIsRecordable(Tokens(), data, done, saved);
      FoundIsRecordable(data, done, curMatchLen, curMatchDist, saved);
      var here := dict[lookaheadPos % 32768];
      assert here == data[done];
      if saved.len > 0 {
        lenToMove := DecideSaved(curMatchLen, curMatchDist, here);
      } else {
        lenToMove := DecideFresh(curMatchLen, curMatchDist, here);
      }
    }

    method DecideSaved(curMatchLen: nat, curMatchDist: nat, here: Byte) returns (lenToMove: nat)
      requires codes.Valid(block) && codes.next <= 65528 && saved.len > 0 && Recordable(Match(saved.len, saved.dist))
               && saved.len >= 3
      requires curMatchLen > saved.len ==> Recordable(Match(curMatchLen, curMatchDist))
      modifies `saved, `block, codes, codes.buf, codes.litCount, codes.distCount
      ensures var st := LazyStep(old(saved), curMatchLen, curMatchDist, here, greedy || rleMatches);
              saved == st.saved && lenToMove == st.move && block == old(block) + st.tokens
      ensures codes.Valid(block) && codes.next <= old(codes.next) + 6
    {
      hide *;
      ghost var s, b, eager := saved, block, greedy || rleMatches;
      if curMatchLen > saved.len {
        PutLiteral(saved.lit);
        if curMatchLen >= 128 {
          PutMatch(curMatchLen, curMatchDist);
          TwoMore(b, Literal(s.lit), Match(curMatchLen, curMatchDist));
          StepOverLong(s, curMatchLen, curMatchDist, here, eager);
          saved := Saved(saved.lit, saved.dist, 0);
          lenToMove := curMatchLen;
        } else {
          StepOver(s, curMatchLen, curMatchDist, here, eager);
          saved := Saved(here, curMatchDist, curMatchLen);
          lenToMove := 1;
        }
      } else {
        PutMatch(saved.len, saved.dist);
        StepSaved(s, curMatchLen, curMatchDist, here, eager);
        lenToMove := saved.len - 1;
        saved := Saved(saved.lit, saved.dist, 0);
      }
    }

    method DecideFresh(curMatchLen: nat, curMatchDist: nat, here: Byte) returns (lenToMove: nat)
      requires codes.Valid(block) && codes.next <= 65528 && saved.len == 0
      requires curMatchDist > 0 ==> Recordable(Match(curMatchLen, curMatchDist))
      modifies `saved, `block, codes, codes.buf, codes.litCount, codes.distCount
      ensures var st := LazyStep(old(saved), curMatchLen, curMatchDist, here, greedy || rleMatches);
              saved == st.saved && lenToMove == st.move && block == old(block) + st.tokens
      ensures codes.Valid(block) && codes.next <= old(codes.next) + 6
    {
      hide *;
      StepFresh(saved, curMatchLen, curMatchDist, here, greedy || rleMatches);
      if curMatchDist == 0 {
        PutLiteral(here);
        lenToMove := 1;
      } else if greedy || rleMatches || curMatchLen >= 128 {
        PutMatch(curMatchLen, curMatchDist);
        lenToMove := curMatchLen;
      } else {
        saved := Saved(here, curMatchDist, curMatchLen);
        lenToMove := 1;
        NoMore(block);
      }
    }

    method PutLiteral(lit: Byte)
      requires codes.Valid(block) && codes.next + 2 <= 65536
      modifies `block, codes, codes.buf, codes.litCount
      ensures block == old(block) + [Literal(lit)] && codes.Valid(block) && codes.next <= old(codes.next) + 2
    {
      CodeSizesAre();
      hide *;
      codes.RecordLiteral(lit, block);
      block := block + [Literal(lit)];
    }

    method PutMatch(len: nat, dist: nat)
      requires codes.Valid(block) && codes.next + 4 <= 65536 && Recordable(Match(len, dist))
      modifies `block, codes, codes.buf, codes.litCount, codes.distCount
      ensures block == old(block) + [Match(len, dist)] && codes.Valid(block) && codes.next <= old(codes.next) + 4
    {
      CodeSizesAre();
      hide *;
      codes.RecordMatch(len, dist, block);
      block := block + [Match(len, dist)];
    }

    /** A block is flushed: its tokens are closed. */
    method FlushBlock(flush: Flush) returns (remaining: int)
      requires codes.Valid(block) && sink.Valid(closed) && adler32 < 0x1_0000_0000
      requires sink.out.buf != dict && sink.out.buf != codes.buf && dict != codes.buf
      requires Recent(dict[..], data, done, lookaheadSize, lookaheadPos, dictSize, closed, block)
      modifies `block, `closed, codes, codes.buf, codes.litCount, codes.distCount
      modifies sink`bytes, sink`lzDictPos, sink`blockIndex, sink`flushed, sink`pieces, sink`answer, sink.out,
               sink.out.buf
      ensures codes.Valid(block) && block == [] && closed == old(closed + block) && codes.next == 1
      ensures flush != Finish ==> sink.Valid(closed)
      ensures flush == Finish ==>
              SunkAll(sink.bytes, Heads(sink.zlib, sink.flushed), sink.pieces, Trailer(sink.zlib, adler32), closed)
      ensures Numbered(sink.blockIndex, sink.flushed)
      ensures Grown(old(sink.flushed), old(sink.pieces), flush, sink.flushed, sink.pieces)
      ensures old(block) == [] && !sink.rawBlocks ==>
              |old(sink.pieces)| < |sink.pieces| && EmptyStatic(sink.pieces[|old(sink.pieces)|], flush == Finish)
      ensures remaining == sink.answer && (sink.accepting ==> remaining == 0)
      ensures dict[..] == old(dict[..])
      ensures Spent(sink.bytes, sink.out.bitsIn, closed, sink.flushed)
      ensures 8 * |sink.bytes| + sink.out.bitsIn
              <= 8 * |old(sink.bytes)| + old(sink.out.bitsIn)
                 + MostBits(sink.zlib && old(sink.blockIndex) == 0,
                            (lookaheadPos - old(sink.lzDictPos)) % 0x1_0000_0000 <= dictSize, old(block), flush,
                            Trailer(sink.zlib, adler32))
    {
      hide *;
      ghost var fl, ps := sink.flushed, sink.pieces;
      ghost var c;
      remaining, c := sink.Flush(codes, dict, lookaheadPos, dictSize, flush, adler32, closed, block, data, done,
                              lookaheadSize);
      GrownBy(fl, ps, flush, sink.flushed, sink.pieces);
      closed := closed + block;
      block := [];
    }

    /** Search and decision of one turn. */
    method Step() returns (lenToMove: nat)
      requires Valid() && lookaheadSize >= 1 && dictSize + lookaheadSize <= 32768
      modifies `saved, `block, `turns, codes, codes.buf, codes.litCount, codes.distCount
      ensures 1 <= lenToMove <= lookaheadSize
      ensures Parsed(closed + block, data, done + lenToMove, saved)
      ensures Traced(Config(), data, turns, done + lenToMove, saved, closed + block)
      ensures OneTurnMore(old(turns)) && turns[|old(turns)|].at == done
      ensures codes.Valid(block) && codes.next <= old(codes.next) + 6
    {
      hide *;
      Opened();
      PlacedIs(data, done, lookaheadPos, lookaheadSize, dictSize);
      ConfigIs();
      FillAt(data, done, lookaheadPos, lookaheadSize, dictSize);
      ghost var b, s := block, saved;
      var curMatchDist, curMatchLen;
      ghost var dist, len;
      curMatchDist, curMatchLen, dist, len := Search();
      ghost var t := Turn(done, |data|, start, base, dictSize, saved, len, dist);
      NowLooked(Config(), data, t, next[..], hash[..], curMatchLen, curMatchDist);
      TracedSnoc(Config(), data, turns, done, saved, closed + block, t);
      LazyStepIsLossless(closed + b, data, done, s, curMatchLen, curMatchDist, greedy || rleMatches);
      lenToMove := Decide(curMatchLen, curMatchDist);
      ghost var more := LazyStep(s, curMatchLen, curMatchDist, data[done], greedy || rleMatches).tokens;
      assert closed + (b + more) == closed + b + more;
      turns := turns + [t];
      TurnAdded(old(turns), t);
    }

    lemma ConfigIs()
      ensures Config() == Parsing(greedy || rleMatches, rleMatches, sink.rawBlocks, filterMatches, maxProbes)
    {
    }

    /** The last turn is new: it was here, and saw all data there was. */
    ghost predicate OneTurnMore(before: seq<Turn>)
      reads this`turns, this`data, this`start, this`base
    {
      && |turns| == |before| + 1 && turns[..|before|] == before
      && turns[|before|].have == |data| && turns[|before|].start == start && turns[|before|].base == base
    }

    lemma TurnAdded(before: seq<Turn>, t: Turn)
      requires turns == before + [t] && t.have == |data| && t.start == start && t.base == base
      ensures OneTurnMore(before)
    {
    }

    /** The check whether it is time to flush. */
    method FlushIfDue() returns (stopped: bool)
      requires codes.Valid(block) && codes.next <= 65534 && sink.Valid(closed) && adler32 < 0x1_0000_0000
      requires sink.out.buf != dict && sink.out.buf != codes.buf && dict != codes.buf
      requires Recent(dict[..], data, done, lookaheadSize, lookaheadPos, dictSize, closed, block)
      modifies `block, `closed, codes, codes.buf, codes.litCount, codes.distCount
      modifies sink`bytes, sink`lzDictPos, sink`blockIndex, sink`flushed, sink`pieces, sink`answer, sink.out,
               sink.out.buf
      ensures codes.Valid(block) && codes.next <= 65528 && closed + block == old(closed + block) && sink.Valid(closed)
      ensures if FlushDue(old(codes.next), old(codes.totalLzBytes), sink.rawBlocks)
              then block == [] && Flushes(sink.flushed) == old(Flushes(sink.flushed)) + 1
              else block == old(block) && closed == old(closed) && sink.flushed == old(sink.flushed)
                   && sink.bytes == old(sink.bytes) && sink.answer == old(sink.answer)
      ensures stopped <==> FlushDue(old(codes.next), old(codes.totalLzBytes), sink.rawBlocks) && sink.answer != 0
      ensures 31745 * Flushes(sink.flushed) + old(TotalSize(closed))
              <= 31745 * old(Flushes(sink.flushed)) + TotalSize(closed)
      ensures sink.accepting ==> !stopped
      ensures dict[..] == old(dict[..])
    {
      CodeSizesAre();
      FlushDueIs(codes.next, codes.totalLzBytes, sink.rawBlocks);
      hide *;
      stopped := false;
      if codes.next > 65536 - 8
        || (codes.totalLzBytes > 31 * 1024 && (codes.next * 115 / 128 >= codes.totalLzBytes || sink.rawBlocks)) {
        codes.MuchRecorded(block);
        TotalSizeAppend(closed, block);
        ghost var fl, ps := sink.flushed, sink.pieces;
        var n := FlushBlock(NoFlush);
        GrownBy(fl, ps, NoFlush, sink.flushed, sink.pieces);
        NothingAfter(closed, block);
        stopped := n != 0;
      }
    }

    /** One turn of the loop of tdefl_compress_normal after filling. */
    method Advance() returns (stopped: bool)
      requires Valid() && lookaheadSize >= 1 && dictSize + lookaheadSize <= 32768
      modifies `lookaheadPos, `lookaheadSize, `dictSize, `saved, `done, `block, `closed, `turns
      modifies codes, codes.buf, codes.litCount, codes.distCount
      modifies sink`bytes, sink`lzDictPos, sink`blockIndex, sink`flushed, sink`pieces, sink`answer, sink.out,
               sink.out.buf
      ensures Valid() && lookaheadSize < old(lookaheadSize) && OneTurnMore(old(turns))
      ensures turns[|old(turns)|].at == old(done)
      ensures 31745 * Flushes(sink.flushed) + old(TotalSize(closed))
              <= 31745 * old(Flushes(sink.flushed)) + TotalSize(closed)
      ensures (sink.accepting ==> !stopped) && (old(sink.answer) == 0 ==> (stopped <==> sink.answer != 0))
    {
      hide *;
      Opened();
      CodeSizesAre();
      ghost var D := dict[..];
      MoveOn();
      RecentNow(dict[..], data, done, lookaheadSize, lookaheadPos, dictSize, closed, block, saved);
      stopped := FlushIfDue();
      assert dict[..] == D;
      IsValid();
    }

    /** The step, and the position behind what it takes. */
    method MoveOn()
      requires Valid() && lookaheadSize >= 1 && dictSize + lookaheadSize <= 32768
      modifies `lookaheadPos, `lookaheadSize, `dictSize, `saved, `done, `block, `turns
      modifies codes, codes.buf, codes.litCount, codes.distCount
      ensures lookaheadSize < old(lookaheadSize) && dictSize + lookaheadSize <= 32768
      ensures Traced(Config(), data, turns, done, saved, closed + block) && OneTurnMore(old(turns))
      ensures turns[|old(turns)|].at == old(done)
      ensures Chained(start, base, next[..], hash[..], data, done, dictSize)
      ensures Placed(data, done, lookaheadPos, lookaheadSize, dictSize) && Parsed(closed + block, data, done, saved)
      ensures codes.Valid(block) && codes.next <= old(codes.next) + 6
    {
      hide *;
      Opened();
      ghost var N, H := next[..], hash[..];
      var lenToMove := Step();
      assert next[..] == N && hash[..] == H;
      Forward(lenToMove);
    }

    /** The lookahead moves forward. */
    method Forward(lenToMove: nat)
      requires Placed(data, done, lookaheadPos, lookaheadSize, dictSize) && lenToMove <= lookaheadSize
      requires Chained(start, base, next[..], hash[..], data, done, dictSize) && dictSize + lookaheadSize <= 32768
      modifies `lookaheadPos, `lookaheadSize, `dictSize, `done
      ensures done == old(done) + lenToMove && lookaheadSize == old(lookaheadSize) - lenToMove
      ensures Placed(data, done, lookaheadPos, lookaheadSize, dictSize) && dictSize + lookaheadSize <= 32768
      ensures Chained(start, base, next[..], hash[..], data, done, dictSize)
    {
      hide *;
      PlacedIs(data, done, lookaheadPos, lookaheadSize, dictSize);
      StillReaching(start, base, next[..], hash[..], data, done, dictSize, lenToMove);
      MovedOn(data, done, lookaheadPos, lookaheadSize, dictSize, lenToMove);
      lookaheadPos := (lookaheadPos + lenToMove) % 0x1_0000_0000;
      lookaheadSize := lookaheadSize - lenToMove;
      dictSize := if dictSize + lenToMove < 32768 then dictSize + lenToMove else 32768;
      done := done + lenToMove;
    }

    ghost predicate Unmoved(b: seq<Token>, c: seq<Token>, fl: seq<bool>, ps: seq<Piece>)
      reads this, sink
    {
      block == b && closed == c && sink.flushed == fl && sink.pieces == ps
    }

    /** How much there is to see. */
    lemma HaveIs()
      requires Valid()
      ensures |data| == done + lookaheadSize && lookaheadSize <= 258
    {
    }

    lemma OneMoreSeen(before: seq<Turn>, from: nat, total: nat, flush: bool)
      requires SeenBy(before, from, total, start, base, flush) && OneTurnMore(before) && from <= |before|
      requires var at := turns[|before|].at;
               |data| == Min(at + 258, total) && (!flush ==> |data| == at + 258)
      ensures SeenBy(turns, from, total, start, base, flush) && before <= turns
    {
      assert forall i :: 0 <= i < |before| ==> turns[i] == turns[..|before|][i];
    }

    lemma NotMoved()
      ensures Unmoved(block, closed, sink.flushed, sink.pieces)
    {
    }

    lemma UnmovedIs(b: seq<Token>, c: seq<Token>, fl: seq<bool>, ps: seq<Piece>)
      requires Unmoved(b, c, fl, ps)
      ensures block == b && closed == c && sink.flushed == fl && sink.pieces == ps
    {
    }

    /** tdefl_compress_normal: takes in the source and parses it. Unless the output side stops it, all of the source
        is consumed; with a flush all of it is parsed, and the tokens stand for exactly the data that was passed in. */
    method CompressNormal(src: seq<Byte>, flush: bool) returns (used: nat, stopped: bool)
      requires Valid()
      modifies `lookaheadPos, `lookaheadSize, `dictSize, `saved, `done, `block, `closed, `data, `turns
      modifies dict, next, hash, codes, codes.buf, codes.litCount, codes.distCount
      modifies sink`bytes, sink`lzDictPos, sink`blockIndex, sink`flushed, sink`pieces, sink`answer, sink.out,
               sink.out.buf
      ensures Valid() && used <= |src| && data == old(data) + src[..used]
      ensures old(turns) <= turns && SeenBy(turns, |old(turns)|, |old(data)| + |src|, start, base, flush)
      ensures !stopped ==> used == |src|
      ensures !stopped && flush ==> lookaheadSize == 0 && Expand(Tokens(), []) == Some(data)
      ensures !stopped && (src != [] || old(lookaheadSize) < 258) ==> lookaheadSize < 258
      ensures 31745 * Flushes(sink.flushed) + old(TotalSize(closed))
              <= 31745 * old(Flushes(sink.flushed)) + TotalSize(closed)
      ensures src == [] && old(lookaheadSize) == 0 ==>
              lookaheadSize == 0 && Unmoved(old(block), old(closed), old(sink.flushed), old(sink.pieces))
      ensures (sink.accepting ==> !stopped) && (old(sink.answer) == 0 ==> (stopped <==> sink.answer != 0))
    {
      NotMoved();
      hide *;
      used, stopped := 0, false;
      ghost var before := data;
      assert before == before + src[..0];
      NoneSeen(turns, |data| + |src|, start, base, flush);
      while used < |src| || (flush && lookaheadSize > 0)
        invariant Valid() && used <= |src| && data == before + src[..used]
        invariant used > 0 || old(lookaheadSize) < 258 ==> lookaheadSize < 258
        invariant old(sink.answer) == 0 ==> sink.answer == 0
        invariant old(turns) <= turns && SeenBy(turns, |old(turns)|, |before| + |src|, start, base, flush)
        invariant 31745 * Flushes(sink.flushed) + old(TotalSize(closed))
                  <= 31745 * old(Flushes(sink.flushed)) + TotalSize(closed)
        invariant src == [] && old(lookaheadSize) == 0 ==>
                  lookaheadSize == 0 && Unmoved(old(block), old(closed), old(sink.flushed), old(sink.pieces))
        decreases |src| - used, lookaheadSize
      {
        ghost var from := used;
        var waits;
        used, waits, stopped := FillAndAdvance(src, used, flush, |old(turns)|);
        assert before + src[..from] + src[from..used] == before + src[..used];
        if waits { break; }
        if stopped { return; }
      }
      if flush { AllOfIt(); }
    }

    /** One round of the loop. It waits for more data if the lookahead is not full and no flush is asked for. */
    method FillAndAdvance(src: seq<Byte>, i: nat, flush: bool, ghost from: nat)
      returns (i': nat, waits: bool, stopped: bool)
      requires Valid() && i <= |src| && (i < |src| || (flush && lookaheadSize > 0)) && from <= |turns|
      requires SeenBy(turns, from, |data| + (|src| - i), start, base, flush)
      modifies `lookaheadPos, `lookaheadSize, `dictSize, `saved, `done, `block, `closed, `data, `turns
      modifies dict, next, hash, codes, codes.buf, codes.litCount, codes.distCount
      modifies sink`bytes, sink`lzDictPos, sink`blockIndex, sink`flushed, sink`pieces, sink`answer, sink.out,
               sink.out.buf
      ensures Valid() && i <= i' <= |src| && data == old(data) + src[i..i'] && lookaheadSize < 258
      ensures old(turns) <= turns && SeenBy(turns, from, |old(data)| + (|src| - i), start, base, flush)
      ensures if waits then i' == |src| && !flush && !stopped else i < i' || lookaheadSize < old(lookaheadSize)
      ensures 31745 * Flushes(sink.flushed) + old(TotalSize(closed))
              <= 31745 * old(Flushes(sink.flushed)) + TotalSize(closed)
      ensures (sink.accepting ==> !stopped) && (old(sink.answer) == 0 ==> (stopped <==> sink.answer != 0))
    {
      hide *;
      Lengths();
      ghost var total := |data| + (|src| - i);
      i' := Fill(src, i);
      waits, stopped := !flush && lookaheadSize < 258, false;
      if waits { return; }
      ghost var turns0 := turns;
      HaveIs();
      SeenNow(done, lookaheadSize, |data|, total);
      stopped := Advance();
      OneMoreSeen(turns0, from, total, flush);
    }

    /** tdefl_compress: parses the source, and flushes when all of it is parsed. At the end of the stream everything
        that was ever passed in has been handed out, as blocks that stand for it. */
    method Compress(src: seq<Byte>, flush: Flush) returns (used: nat, stopped: bool)
      requires Valid()
      modifies `lookaheadPos, `lookaheadSize, `dictSize, `adler32, `saved, `done, `block, `closed, `data, `turns, `start
      modifies `base, dict, next, hash, codes, codes.buf, codes.litCount, codes.distCount
      modifies sink`bytes, sink`lzDictPos, sink`blockIndex, sink`flushed, sink`pieces, sink`answer, sink.out,
               sink.out.buf
      ensures used <= |src| && data == old(data) + src[..used] && (!stopped ==> used == |src|)
              && adler32 < 0x1_0000_0000
      ensures sink.accepting ==> !stopped
      ensures old(sink.answer) == 0 ==>
              (stopped ==> sink.answer != 0) && (flush == NoFlush && !stopped ==> sink.answer == 0)
      ensures old(turns) <= turns
              && SeenBy(turns, |old(turns)|, |old(data)| + |src|, old(start), old(base), flush != NoFlush)
      ensures (start == old(start) && base == old(base)) || (flush == FullFlush && Empty(start) && base == |data|)
      ensures flush == FullFlush && !stopped && (sink.answer >= 0 || sink.accepting) ==> Empty(start) && base == |data|
      ensures !stopped && flush != NoFlush ==> Traced(Config(), data, turns, |data|, saved, closed) && saved.len == 0
      ensures stopped || flush != Finish ==> Valid()
      ensures !stopped && flush != NoFlush ==> closed == Tokens() && Expand(closed, []) == Some(data)
      ensures !stopped && flush == Finish ==>
              SunkAll(sink.bytes, Heads(sink.zlib, sink.flushed), sink.pieces, Trailer(sink.zlib, adler32), closed)
      ensures Numbered(sink.blockIndex, sink.flushed)
      ensures adler32 == if sink.zlib && !stopped then Adler32.Checksum(old(adler32), src) else old(adler32)
      ensures !stopped ==> Spent(sink.bytes, sink.out.bitsIn, closed, sink.flushed)
      ensures old(sink.flushed) == [] && old(base) == 0 && |data| <= 31 * 1024 && flush == Finish && !stopped ==>
                8 * |sink.bytes| <= 8 * |data| + 49 + if sink.zlib then 48 else 0
      ensures 31745 * Flushes(sink.flushed) + old(TotalSize(closed))
              <= 31745 * (old(Flushes(sink.flushed)) + if flush != NoFlush then 1 else 0) + TotalSize(closed)
      ensures !stopped && flush != NoFlush ==> lookaheadSize == 0 && block == []
      ensures src == [] && old(lookaheadSize) == 0 && old(block) == [] && flush != NoFlush && !stopped ==>
              && Grown(old(sink.flushed), old(sink.pieces), flush, sink.flushed, sink.pieces)
              && |old(sink.pieces)| < |sink.pieces|
              && (!sink.rawBlocks ==> EmptyStatic(sink.pieces[|old(sink.pieces)|], flush == Finish))
    {
      hide *;
      used, stopped := CompressNormal(src, flush != NoFlush);
      Opened();
      sink.SinkIs(closed);
      if stopped { return; }
      assert src[..used] == src;
      if src == [] && old(lookaheadSize) == 0 {
        UnmovedIs(old(block), old(closed), old(sink.flushed), old(sink.pieces));
      }
      Checked(src[..used]);
      if flush != NoFlush && lookaheadSize == 0 {
        if old(sink.flushed) == [] && |data| <= 31 * 1024 { StillUnflushed(); }
        FlushAll(flush);
      }
    }

    /** So little data leads to no flush. */
    lemma StillUnflushed()
      requires Valid() && Expand(Tokens(), []) == Some(data) && |data| <= 31 * 1024
      requires 31745 * Flushes(sink.flushed) <= TotalSize(closed)
      ensures sink.flushed == []
    {
      hide *;
      Opened();
      TokensAre();
      sink.SinkIs(closed);
      ExpandSize(closed + block, []);
      TotalSizeAppend(closed, block);
      NeverFlushed(sink.blockIndex, sink.flushed);
    }

    /** The checksum goes on over what was taken in. */
    method Checked(src: seq<Byte>)
      requires Valid()
      modifies `adler32
      ensures Valid() && adler32 < 0x1_0000_0000
      ensures adler32 == if sink.zlib then Adler32.Checksum(old(adler32), src) else old(adler32)
    {
      hide *;
      Opened();
      if sink.zlib {
        Adler32.WordIs();
        var a := Adler32.MzAdler32(adler32, src);
        adler32 := a;
        IsValid();
      }
    }

    method FlushAll(flush: Flush)
      requires Valid() && lookaheadSize == 0 && Expand(Tokens(), []) == Some(data) && flush != NoFlush
      modifies `dictSize, `block, `closed, `start, `base, next, hash, codes, codes.buf, codes.litCount, codes.distCount
      modifies sink`bytes, sink`lzDictPos, sink`blockIndex, sink`flushed, sink`pieces, sink`answer, sink.out,
               sink.out.buf
      ensures flush != Finish ==> Valid()
      ensures (start == old(start) && base == old(base)) || (flush == FullFlush && Empty(start) && base == |data|)
      ensures flush == FullFlush && sink.answer >= 0 ==> Empty(start) && base == |data|
      ensures sink.accepting ==> sink.answer == 0
      ensures Traced(Config(), data, turns, |data|, saved, closed) && saved.len == 0
      ensures closed == Tokens() && Expand(closed, []) == Some(data)
      ensures flush == Finish ==>
              SunkAll(sink.bytes, Heads(sink.zlib, sink.flushed), sink.pieces, Trailer(sink.zlib, adler32), closed)
      ensures Numbered(sink.blockIndex, sink.flushed) && block == [] && lookaheadSize == 0
      ensures Grown(old(sink.flushed), old(sink.pieces), flush, sink.flushed, sink.pieces)
      ensures |old(sink.pieces)| < |sink.pieces|
      ensures old(block) == [] && !sink.rawBlocks ==> EmptyStatic(sink.pieces[|old(sink.pieces)|], flush == Finish)
      ensures 31745 * Flushes(sink.flushed) + old(TotalSize(closed))
              <= 31745 * (old(Flushes(sink.flushed)) + 1) + TotalSize(closed)
      ensures Spent(sink.bytes, sink.out.bitsIn, closed, sink.flushed)
      ensures old(sink.flushed) == [] && old(base) == 0 && |data| <= 31 * 1024 && flush == Finish ==>
                8 * |sink.bytes| <= 8 * |data| + 49 + if sink.zlib then 48 else 0
    {
      hide *;
      Opened();
      CodeSizesAre();
      ghost var D, N, H := dict[..], next[..], hash[..];
      AllTaken();
      var remaining := CloseBlock(flush);
      assert dict[..] == D && next[..] == N && hash[..] == H;
      if flush == FullFlush && remaining >= 0 { StartChains(); }
      TokensAre();
      if flush != Finish { IsValid(); }
    }

    /** The flush of the last block, when all data has been parsed. */
    method CloseBlock(flush: Flush) returns (remaining: int)
      requires Valid() && lookaheadSize == 0 && Expand(Tokens(), []) == Some(data) && flush != NoFlush
      modifies `block, `closed, codes, codes.buf, codes.litCount, codes.distCount
      modifies sink`bytes, sink`lzDictPos, sink`blockIndex, sink`flushed, sink`pieces, sink`answer, sink.out,
               sink.out.buf
      ensures codes.Valid(block) && block == [] && codes.next == 1 && closed + block == closed == old(closed + block)
              && Expand(closed, []) == Some(data)
      ensures flush != Finish ==> sink.Valid(closed)
      ensures flush == Finish ==>
              SunkAll(sink.bytes, Heads(sink.zlib, sink.flushed), sink.pieces, Trailer(sink.zlib, adler32), closed)
      ensures Numbered(sink.blockIndex, sink.flushed) && remaining == sink.answer && (sink.accepting ==> remaining == 0)
      ensures Grown(old(sink.flushed), old(sink.pieces), flush, sink.flushed, sink.pieces)
      ensures |old(sink.pieces)| < |sink.pieces|
      ensures old(block) == [] && !sink.rawBlocks ==> EmptyStatic(sink.pieces[|old(sink.pieces)|], flush == Finish)
      ensures 31745 * Flushes(sink.flushed) + old(TotalSize(closed))
              <= 31745 * (old(Flushes(sink.flushed)) + 1) + TotalSize(closed)
      ensures Spent(sink.bytes, sink.out.bitsIn, closed, sink.flushed)
      ensures old(sink.flushed) == [] && base == 0 && |data| <= 31 * 1024 && flush == Finish ==>
                8 * |sink.bytes| <= 8 * |data| + 49 + if sink.zlib then 48 else 0
    {
      hide *;
      Opened();
      if sink.flushed == [] && base == 0 && |data| <= 31 * 1024 && flush == Finish { AllFresh(flush); }
      RecentNow(dict[..], data, done, lookaheadSize, lookaheadPos, dictSize, closed, block, saved);
      TotalSizeAppend(closed, block);
      ghost var fl, ps := sink.flushed, sink.pieces;
      TokensAre();
      remaining := FlushBlock(flush);
      GrownBy(fl, ps, flush, sink.flushed, sink.pieces);
      NothingAfter(closed, block);
    }

    /** The chains and the dictionary are emptied, when all data has been parsed. */
    method StartChains()
      requires Placed(data, done, lookaheadPos, lookaheadSize, dictSize) && done == |data|
      requires next != hash && next.Length == 32768 && hash.Length == LZ_HASH_SIZE
      modifies `dictSize, `base, `start, next, hash
      ensures Empty(start) && base == |data| && Placed(data, done, lookaheadPos, lookaheadSize, dictSize)
              && dictSize == 0
      ensures Chained(start, base, next[..], hash[..], data, done, dictSize)
    {
      CodeSizesAre();
      hide *;
      Forget();
      NoDictionary(data, done, lookaheadPos, lookaheadSize, dictSize);
      dictSize := 0;
      base, start := done, Links(next[..], hash[..]);
      IsEmpty(start);
      ChainsEmpty(start, data);
      IsChained(start, base, next[..], hash[..], data, done, dictSize);
    }

    lemma TokensAre()
      ensures Tokens() == closed + block
    {
    }

    /** Nothing has been flushed, and all data is in the dictionary: the block can be raw, and is all of the data. */
    lemma AllFresh(flush: Flush)
      requires Valid() && lookaheadSize == 0 && Expand(Tokens(), []) == Some(data) && flush == Finish
      requires sink.flushed == [] && base == 0 && |data| <= 31 * 1024
      ensures sink.bytes == [] && sink.out.bitsIn == 0
      ensures (lookaheadPos - sink.lzDictPos) % 0x1_0000_0000 <= dictSize
      ensures MostBits(sink.zlib && sink.blockIndex == 0, true, block, flush, Trailer(sink.zlib, adler32))
              <= 8 * |data| + 49 + if sink.zlib then 48 else 0
    {
      hide *;
      Opened();
      sink.SinkIs(closed);
      sink.NothingYet(closed);
      AllTaken();
      TokensAre();
      ExpandSize(closed + block, []);
      TotalSizeAppend(closed, block);
      ChainedIs(start, base, next[..], hash[..], data, done, dictSize);
      ReachingIs(done - base, |data| - done, dictSize);
      FillAt(data, done, lookaheadPos, lookaheadSize, dictSize);
      MostBitsIs(sink.zlib && sink.blockIndex == 0, true, block, flush, Trailer(sink.zlib, adler32));
      FinishMost(Trailer(sink.zlib, adler32));
      TrailerLen(sink.zlib, adler32);
      SmallWord(|data|);
    }

    lemma AllTaken()
      requires Placed(data, done, lookaheadPos, lookaheadSize, dictSize) && lookaheadSize == 0
      requires Parsed(closed + block, data, done, saved)
      ensures done == |data| && saved.len == 0
    {
      AllParsed(closed + block, data, saved);
    }

    /** The hash chains are emptied. */
    method Forget()
      requires next != hash
      modifies next, hash
      ensures (forall i :: 0 <= i < next.Length ==> next[i] == 0) && forall i :: 0 <= i < hash.Length ==> hash[i] == 0
    {
      forall i | 0 <= i < next.Length { next[i] := 0; }
      forall i | 0 <= i < hash.Length { hash[i] := 0; }
    }

    lemma AllOfIt()
      requires Valid() && lookaheadSize == 0
      ensures Expand(Tokens(), []) == Some(data)
    {
      AllParsed(Tokens(), data, saved);
    }
  }

  lemma TwoMore(b: seq<Token>, t: Token, u: Token)
    ensures b + [t] + [u] == b + [t, u]
  {
  }

  lemma NoMore(b: seq<Token>)
    ensures b + [] == b
  {
  }

  /** What holds of the data parsed when there is more ahead. */
  lemma MoreTaken(cfg: Parsing, data: seq<Byte>, more: seq<Byte>, done: nat, lookaheadPos: nat, n: nat, dictSize: nat,
                  start: Links, base: nat, next: seq<U16>, hash: seq<U16>, saved: Saved, turns: seq<Turn>,
                  ts: seq<Token>)
    requires Placed(data, done, lookaheadPos, n, dictSize) && n + |more| <= 258 && dictSize <= 32768
    requires Sized(start) && base <= done && Reaching(done - base, n, dictSize)
             && Links(next, hash) == Chains(start, data + more, base)
    requires Parsed(ts, data, done, saved) && Traced(cfg, data, turns, done, saved, ts)
    ensures var ahead := n + |more|;
            var size := if LZ_DICT_SIZE - ahead < dictSize then LZ_DICT_SIZE - ahead else dictSize;
            && Placed(data + more, done, lookaheadPos, ahead, size)
            && Chained(start, base, next, hash, data + more, done, size)
    ensures Parsed(ts, data + more, done, saved) && Traced(cfg, data + more, turns, done, saved, ts)
  {
    hide *;
    Lengths();
    FillAt(data, done, lookaheadPos, n, dictSize);
    ParsedExtends(ts, data, done, saved, more);
    TracedExtends(cfg, data, more, turns, done, saved, ts);
    var ahead := n + |more|;
    StillChained(start, base, next, hash, data + more, done, dictSize, n, ahead);
    FilledUp(data, done, lookaheadPos, n, if LZ_DICT_SIZE - ahead < dictSize then LZ_DICT_SIZE - ahead else dictSize,
             more);
  }

  lemma PlacedIs(data: seq<Byte>, done: nat, lookaheadPos: nat, lookaheadSize: nat, dictSize: nat)
    requires Placed(data, done, lookaheadPos, lookaheadSize, dictSize)
    ensures done + lookaheadSize == |data|
  {
  }

  lemma NoDictionary(data: seq<Byte>, done: nat, lookaheadPos: nat, lookaheadSize: nat, dictSize: nat)
    requires Placed(data, done, lookaheadPos, lookaheadSize, dictSize)
    ensures Placed(data, done, lookaheadPos, lookaheadSize, 0)
  {
  }

  /** What a flush needs of the window and the tokens. */
  lemma RecentNow(dict: seq<Byte>, data: seq<Byte>, done: nat, ahead: nat, lookaheadPos: nat, dictSize: nat,
                  closed: seq<Token>, block: seq<Token>, s: Saved)
    requires Placed(data, done, lookaheadPos, ahead, dictSize) && Window(dict, data)
             && Parsed(closed + block, data, done, s)
    requires dictSize + ahead <= 32768
    ensures Recent(dict, data, done, ahead, lookaheadPos, dictSize, closed, block)
  {
    hide Window, Expand, MatchAt;
  }

  lemma NothingAfter(closed: seq<Token>, block: seq<Token>)
    requires block == []
    ensures closed + block == closed
  {
  }

  lemma MovedOn(data: seq<Byte>, done: nat, lookaheadPos: nat, lookaheadSize: nat, dictSize: nat, n: nat)
    requires Placed(data, done, lookaheadPos, lookaheadSize, dictSize) && n <= lookaheadSize
    ensures Placed(data, done + n, (lookaheadPos + n) % 0x1_0000_0000, lookaheadSize - n,
                   if dictSize + n < 32768 then dictSize + n else 32768)
  {
    ModStep(done, lookaheadPos, n, 0x1_0000_0000);
  }

  lemma ModStep(x: nat, r: nat, n: nat, m: nat)
    requires m > 0 && r == x % m
    ensures (r + n) % m == (x + n) % m
  {
    var q, t := x / m, (r + n) / m;
    DistributeRight(q, t, m);
    DivNonNegative(x, m);
    DivNonNegative(r + n, m);
    DivUnique(x + n, m, q + t, (r + n) % m);
  }

  lemma Lengths()
    ensures MIN_MATCH_LEN == 3 && MAX_MATCH_LEN == 258 && LZ_DICT_SIZE == 32768
  {
  }

  lemma NothingParsed(dict: seq<Byte>)
    requires |dict| == 33025
    ensures Placed([], 0, 0, 0, 0) && Window(dict, []) && Parsed([] + [], [], 0, Saved(0, 0, 0))
  {
    var none: seq<Byte> := [];
    assert none[..0] == none;
  }

  lemma CodeSizesAre()
    ensures LZ_CODE_BUF_SIZE == 65536 && LZ_HASH_SIZE == 32768
  {
  }

  lemma FillAt(data: seq<Byte>, done: nat, lookaheadPos: nat, lookaheadSize: nat, dictSize: nat)
    requires Placed(data, done, lookaheadPos, lookaheadSize, dictSize)
    ensures (lookaheadPos + lookaheadSize) % 32768 == |data| % 32768 && lookaheadSize <= 258 && dictSize <= done
    ensures lookaheadPos == done % 0x1_0000_0000 && done + lookaheadSize == |data|
  {
    FillPosition(done, lookaheadPos, lookaheadSize);
  }

  lemma FillPosition(done: nat, lookaheadPos: nat, n: nat)
    requires lookaheadPos == done % 0x1_0000_0000
    ensures (lookaheadPos + n) % 32768 == (done + n) % 32768
  {
    var q := done / 0x1_0000_0000;
    assert done + n == (lookaheadPos + n) + (q * 131072) * 32768;
    RingTurns(lookaheadPos + n, q * 131072);
  }

  lemma FilledUp(data: seq<Byte>, done: nat, lookaheadPos: nat, n: nat, dictSize: nat, more: seq<Byte>)
    requires lookaheadPos == done % 0x1_0000_0000 && done + n == |data| && n + |more| <= 258 && dictSize <= done
             && dictSize <= 32768
    ensures Placed(data + more, done, lookaheadPos, n + |more|, dictSize)
  {
  }

  lemma WindowHere(dict: seq<Byte>, data: seq<Byte>, done: nat, lookaheadPos: nat, lookaheadSize: nat, dictSize: nat)
    requires Placed(data, done, lookaheadPos, lookaheadSize, dictSize) && Window(dict, data)
             && dictSize + lookaheadSize <= 32768
    ensures InWindow(dict, data, lookaheadPos, done, lookaheadSize, dictSize)
  {
  }

  lemma SavedBound(ts: seq<Token>, data: seq<Byte>, done: nat, s: Saved)
    requires Parsed(ts, data, done, s)
    ensures s.len == 0 || 3 <= s.len < 128
  {
  }

  lemma SavedIsRecordable(ts: seq<Token>, data: seq<Byte>, done: nat, s: Saved)
    requires Parsed(ts, data, done, s)
    ensures s.len > 0 ==> 3 <= s.len && Recordable(Match(s.len, s.dist))
  {
  }

  lemma FoundIsRecordable(data: seq<Byte>, done: nat, len: nat, dist: nat, s: Saved)
    requires Found(data, done, len, dist, s)
    ensures dist > 0 ==> Recordable(Match(len, dist))
    ensures s.len > 0 && len > s.len ==> dist > 0
  {
  }

  lemma BestIs(data: seq<Byte>, done: nat, dist: nat, len: nat, len0: nat, maxDist: nat, maxLen: nat)
    requires Best(data, done, dist, len, len0, maxDist, maxLen)
    ensures if dist == 0 then len == len0 else len0 < len <= maxLen && dist <= maxDist && MatchAt(data, done, dist, len)
  {
  }

  lemma NowFound(data: seq<Byte>, done: nat, len: nat, dist: nat, s: Saved)
    requires dist > 0 ==> 3 <= len <= 258 && dist <= 32768 && MatchAt(data, done, dist, len)
    requires dist == 0 ==> len <= if s.len > 0 then s.len else 2
    ensures Found(data, done, len, dist, s)
  {
  }

  lemma StepOverLong(s: Saved, len: nat, dist: nat, here: Byte, eager: bool)
    requires s.len > 0 && len > s.len && len >= 128
    ensures LazyStep(s, len, dist, here, eager)
            == Step([Literal(s.lit), Match(len, dist)], Saved(s.lit, s.dist, 0), len)
  {
  }

  lemma StepOver(s: Saved, len: nat, dist: nat, here: Byte, eager: bool)
    requires s.len > 0 && len > s.len && len < 128
    ensures LazyStep(s, len, dist, here, eager) == Step([Literal(s.lit)], Saved(here, dist, len), 1)
  {
  }

  lemma StepSaved(s: Saved, len: nat, dist: nat, here: Byte, eager: bool)
    requires s.len > 0 && len <= s.len
    ensures LazyStep(s, len, dist, here, eager) == Step([Match(s.len, s.dist)], Saved(s.lit, s.dist, 0), s.len - 1)
  {
  }

  lemma StepFresh(s: Saved, len: nat, dist: nat, here: Byte, eager: bool)
    requires s.len == 0
    ensures dist == 0 ==> LazyStep(s, len, dist, here, eager) == Step([Literal(here)], s, 1)
    ensures dist > 0 && (eager || len >= 128) ==>
            LazyStep(s, len, dist, here, eager) == Step([Match(len, dist)], s, len)
    ensures dist > 0 && !(eager || len >= 128) ==>
            LazyStep(s, len, dist, here, eager) == Step([], Saved(here, dist, len), 1)
  {
  }

  lemma FinishMost(trailer: seq<Byte>)
    ensures MarkerMost(Finish, trailer) == 7 + 8 * |trailer|
  {
  }

  lemma TrailerLen(zlib: bool, adler: nat)
    ensures |Trailer(zlib, adler)| == if zlib then 4 else 0
  {
  }

  lemma SmallWord(n: nat)
    requires n <= 31 * 1024
    ensures n % 0x1_0000_0000 == n
  {
  }

  // ----- chains and turns

  lemma ReachingIs(since: nat, ahead: nat, reach: nat)
    ensures Reaching(since, ahead, reach) <==>
            ahead <= 258 && reach == if since <= 32768 - ahead then since else 32768 - ahead
  {
  }

  /** Whether there are two bytes to hash since the chains were started. */
  lemma EnoughToHash(n: nat, done: nat, base: nat, ahead: nat, dictSize: nat)
    requires base <= done && n == done + ahead && Reaching(done - base, ahead, dictSize)
    ensures ahead <= 258 && if ahead + dictSize >= 2 then n >= base + 2 else n == base + dictSize + ahead
  {
  }

  lemma ChainedIs(start: Links, base: nat, next: seq<U16>, hash: seq<U16>, data: seq<Byte>, done: nat, dictSize: nat)
    requires Chained(start, base, next, hash, data, done, dictSize)
    ensures Sized(start) && base <= done <= |data| && Reaching(done - base, |data| - done, dictSize)
            && Links(next, hash) == Chains(start, data, base)
  {
  }

  lemma IsChained(start: Links, base: nat, next: seq<U16>, hash: seq<U16>, data: seq<Byte>, done: nat, dictSize: nat)
    requires Sized(start) && base <= done <= |data| && Reaching(done - base, |data| - done, dictSize)
             && Links(next, hash) == Chains(start, data, base)
    ensures Chained(start, base, next, hash, data, done, dictSize)
  {
  }

  lemma NothingChained(start: Links, next: seq<U16>, hash: seq<U16>)
    requires start == Links(next, hash) && |next| == 32768 && |hash| == LZ_HASH_SIZE
    ensures Chained(start, 0, next, hash, [], 0, 0)
  {
  }

  lemma IsEmpty(start: Links)
    requires |start.next| == 32768 && |start.hash| == 32768 && forall i :: 0 <= i < |start.hash| ==> start.hash[i] == 0
    ensures Empty(start)
  {
  }

  lemma ChainsEmpty(start: Links, data: seq<Byte>)
    requires Sized(start)
    ensures Chains(start, data, |data|) == start && Reaching(0, 0, 0)
  {
  }

  /** The reach is cut to what the lookahead leaves of the window. */
  lemma StillChained(start: Links, base: nat, next: seq<U16>, hash: seq<U16>, data: seq<Byte>, done: nat, dictSize: nat,
                     before: nat, ahead: nat)
    requires Sized(start) && base <= done && Reaching(done - base, before, dictSize)
             && before <= ahead == |data| - done <= 258
    requires Links(next, hash) == Chains(start, data, base)
    ensures Chained(start, base, next, hash, data, done,
                    if LZ_DICT_SIZE - ahead < dictSize then LZ_DICT_SIZE - ahead else dictSize)
  {
  }

  lemma StillReaching(start: Links, base: nat, next: seq<U16>, hash: seq<U16>, data: seq<Byte>, done: nat,
                      dictSize: nat, n: nat)
    requires Chained(start, base, next, hash, data, done, dictSize) && done + n <= |data|
    ensures Chained(start, base, next, hash, data, done + n, if dictSize + n < 32768 then dictSize + n else 32768)
  {
  }

  lemma DroppedIs(filter: bool, at: nat, len: nat, dist: nat)
    ensures Dropped(filter, at, len, dist) <==> (len == 3 && dist >= 8192) || at % 32768 == dist || (filter && len <= 5)
    ensures LZ_DICT_SIZE == 32768
  {
  }

  lemma SoughtOnChain(cfg: Parsing, chain: seq<U16>, data: seq<Byte>, at: nat, reach: nat, s: Saved, len: nat,
                      dist: nat, visited: nat, best: nat)
    requires |chain| == 32768 && !cfg.raw && !cfg.rle && at <= |data|
    requires Best(data, at, dist, len, if s.len > 0 then s.len else 2, reach, |data| - at)
    requires |data| - at > (if s.len > 0 then s.len else 2) ==>
               Searched(chain, at % 0x1_0000_0000, reach, at % 0x1_0000_0000 % 32768, data, at, dist, len, visited,
                        best, if s.len > 0 then s.len else 2, Budget(cfg.probes, if s.len > 0 then s.len else 2))
    ensures Sought(cfg, chain, data, at, reach, s, len, dist)
  {
    RingPosition(at % 0x1_0000_0000, at);
    hide Searched, Best, Budget;
  }

  lemma SoughtRun(cfg: Parsing, chain: seq<U16>, data: seq<Byte>, at: nat, reach: nat, s: Saved, len: nat, dist: nat)
    requires |chain| == 32768 && (cfg.raw || cfg.rle)
    requires cfg.raw || reach == 0 ==> dist == 0 && len == if s.len > 0 then s.len else 2
    requires !cfg.raw && reach > 0 ==>
             if dist == 0 then len == 0 && NoLonger(data, at, 1, 2)
             else dist == 1 && len >= 3 && MatchAt(data, at, 1, len) && NoLonger(data, at, 1, len)
    ensures Sought(cfg, chain, data, at, reach, s, len, dist)
  {
  }

  lemma NowLooked(cfg: Parsing, data: seq<Byte>, t: Turn, next: seq<U16>, hash: seq<U16>, len: nat, dist: nat)
    requires t.at < t.have == |data| && t.have - t.at <= 258 && t.reach + (t.have - t.at) <= 32768
    requires Chained(t.start, t.base, next, hash, data, t.at, t.reach) && |next| == 32768
    requires Sought(cfg, next, data, t.at, t.reach, t.saved, t.len, t.dist)
    requires (len, dist) == if Dropped(cfg.filter, t.at, t.len, t.dist) then (0, 0) else (t.len, t.dist)
    ensures Looked(cfg, data, t) && StepOf(cfg, data, t) == LazyStep(t.saved, len, dist, data[t.at], cfg.eager)
  {
    assert data[..t.have] == data;
    hide Sought, LazyStep, Dropped;
  }

  lemma SeenNow(at: nat, ahead: nat, have: nat, total: nat)
    requires have == at + ahead <= total && ahead <= 258 && (ahead == 258 || have == total)
    ensures have == Min(at + 258, total)
  {
  }

  lemma NoneSeen(turns: seq<Turn>, total: nat, start: Links, base: nat, flush: bool)
    ensures SeenBy(turns, |turns|, total, start, base, flush)
  {
  }
}
