/** What the parser does turn by turn: what it looks for, what it finds, and which tokens follow from that. */
module ParseTrace {
  import opened Wrappers
  import opened BitStream
  import opened Tokens
  import opened LzCodes
  import opened LzMatching
  import opened HashChain

  /** How the compressor parses: without delay, runs only, raw blocks only, no short matches; and its probe budgets. */
  datatype Parsing = Parsing(eager: bool, rle: bool, raw: bool, filter: bool, probes: (nat, nat))

  /** A turn of the loop: where it is and how far it sees, since where the chains hold positions, how far back it may
      look, the match saved from the turn before, and the match it finds. */
  datatype Turn = Turn(at: nat, have: nat, start: Links, base: nat, reach: nat, saved: Saved, len: nat, dist: nat)

  /** How many probes tdefl_find_match counts down. */
  function Budget(maxProbes: (nat, nat), len0: nat): nat {
    if len0 >= 32 then maxProbes.1 else maxProbes.0
  }

  /** A match must be longer than this. */
  function LeastLen(s: Saved): nat {
    if s.len > 0 then s.len else MIN_MATCH_LEN - 1
  }

  /** The three filters: short matches far away, matches from the ring's start, and, if asked for, all short ones. */
  predicate Dropped(filter: bool, at: nat, len: nat, dist: nat) {
    (len == MIN_MATCH_LEN && dist >= 8 * 1024) || at % LZ_DICT_SIZE == dist || (filter && len <= 5)
  }

  /** In run-length mode: the run of the last byte, if it is at least three long. */
  ghost predicate RunFound(data: seq<Byte>, at: nat, len: nat, dist: nat) {
    if dist == 0 then len == 0 && NoLonger(data, at, 1, 2)
    else dist == 1 && len >= MIN_MATCH_LEN && MatchAt(data, at, 1, len) && NoLonger(data, at, 1, len)
  }

  /** What is found before filtering: with raw blocks nothing, in run-length mode the run, otherwise what the search
      along the chain finds, if something longer can be found at all. */
  ghost predicate Sought(cfg: Parsing, chain: seq<U16>, data: seq<Byte>, at: nat, reach: nat, s: Saved, len: nat,
                         dist: nat)
    requires |chain| == 32768
  {
    if cfg.raw || (cfg.rle && reach == 0) then dist == 0 && len == LeastLen(s)
    else if cfg.rle then RunFound(data, at, len, dist)
    else
      && at <= |data| && Best(data, at, dist, len, LeastLen(s), reach, |data| - at)
      && (|data| - at > LeastLen(s) ==>
            exists visited: nat, best: nat ::
              Searched(chain, at % 0x1_0000_0000, reach, at % 32768, data, at, dist, len, visited, best,
                       LeastLen(s), Budget(cfg.probes, LeastLen(s))))
  }

  /** Matches may reach back over all that came since the chains were started, but only as far as the lookahead leaves
      of the window. */
  predicate Reaching(since: nat, ahead: nat, reach: nat) {
    ahead <= MAX_MATCH_LEN && reach == Min(since, LZ_DICT_SIZE - ahead)
  }

  ghost predicate Looked(cfg: Parsing, data: seq<Byte>, t: Turn) {
    && t.at < t.have <= |data| && Sized(t.start) && t.base <= t.at
    && Reaching(t.at - t.base, t.have - t.at, t.reach)
    && Sought(cfg, Chains(t.start, data[..t.have], t.base).next, data[..t.have], t.at, t.reach, t.saved, t.len, t.dist)
  }

  /** What a turn records, saves and moves on. */
  function StepOf(cfg: Parsing, data: seq<Byte>, t: Turn): Step {
    if t.at >= |data| then Step([], t.saved, 0)
    else if Dropped(cfg.filter, t.at, t.len, t.dist) then LazyStep(t.saved, 0, 0, data[t.at], cfg.eager)
    else LazyStep(t.saved, t.len, t.dist, data[t.at], cfg.eager)
  }

  /** Where the turns lead, and what is saved there. */
  ghost function After(cfg: Parsing, data: seq<Byte>, turns: seq<Turn>): (nat, Saved) {
    if turns == [] then (0, Saved(0, 0, 0))
    else var t := turns[|turns| - 1]; var st := StepOf(cfg, data, t); (t.at + st.move, st.saved)
  }

  /** The tokens that the turns record. */
  ghost function TokensOf(cfg: Parsing, data: seq<Byte>, turns: seq<Turn>): seq<Token> {
    if turns == [] then []
    else TokensOf(cfg, data, turns[..|turns| - 1]) + StepOf(cfg, data, turns[|turns| - 1]).tokens
  }

  /** Each turn begins where the one before leads, with what that one saved. */
  ghost predicate Trace(cfg: Parsing, data: seq<Byte>, turns: seq<Turn>) {
    turns == [] ||
    var n := |turns| - 1;
    Trace(cfg, data, turns[..n]) && Looked(cfg, data, turns[n])
    && (turns[n].at, turns[n].saved) == After(cfg, data, turns[..n])
  }

  /** The parse so far: the position and the saved match are where the turns lead, and the tokens are theirs. */
  ghost predicate Traced(cfg: Parsing, data: seq<Byte>, turns: seq<Turn>, done: nat, s: Saved, ts: seq<Token>) {
    && Trace(cfg, data, turns) && After(cfg, data, turns) == (done, s) && TokensOf(cfg, data, turns) == ts
  }

  lemma NothingTraced(cfg: Parsing, data: seq<Byte>)
    ensures Traced(cfg, data, [], 0, Saved(0, 0, 0), [])
  {
  }

  lemma TracedSnoc(cfg: Parsing, data: seq<Byte>, turns: seq<Turn>, done: nat, s: Saved, ts: seq<Token>, t: Turn)
    requires Traced(cfg, data, turns, done, s, ts) && Looked(cfg, data, t) && t.at == done && t.saved == s
    ensures var st := StepOf(cfg, data, t);
            Traced(cfg, data, turns + [t], done + st.move, st.saved, ts + st.tokens)
  {
    hide Looked, StepOf;
    assert (turns + [t])[..|turns|] == turns && (turns + [t])[|turns|] == t;
  }

  lemma LookedExtends(cfg: Parsing, data: seq<Byte>, more: seq<Byte>, t: Turn)
    requires Looked(cfg, data, t)
    ensures Looked(cfg, data + more, t) && StepOf(cfg, data + more, t) == StepOf(cfg, data, t)
  {
    assert (data + more)[..t.have] == data[..t.have];
    hide Sought, LazyStep;
  }

  lemma {:induction false} TraceExtends(cfg: Parsing, data: seq<Byte>, more: seq<Byte>, turns: seq<Turn>)
    requires Trace(cfg, data, turns)
    ensures Trace(cfg, data + more, turns)
    ensures After(cfg, data + more, turns) == After(cfg, data, turns)
    ensures TokensOf(cfg, data + more, turns) == TokensOf(cfg, data, turns)
  {
    hide *;
    if turns == [] {
      NoTurns(cfg, data);
      NoTurns(cfg, data + more);
    } else {
      var n := |turns| - 1;
      LastTurn(cfg, data, turns);
      LastTurn(cfg, data + more, turns);
      TraceExtends(cfg, data, more, turns[..n]);
      LookedExtends(cfg, data, more, turns[n]);
    }
  }

  lemma NoTurns(cfg: Parsing, data: seq<Byte>)
    ensures Trace(cfg, data, []) && After(cfg, data, []) == (0, Saved(0, 0, 0)) && TokensOf(cfg, data, []) == []
  {
  }

  lemma LastTurn(cfg: Parsing, data: seq<Byte>, turns: seq<Turn>)
    requires turns != []
    ensures var n, t, st := |turns| - 1, turns[|turns| - 1], StepOf(cfg, data, turns[|turns| - 1]);
            && (Trace(cfg, data, turns) <==>
                  Trace(cfg, data, turns[..n]) && Looked(cfg, data, t)
                  && (t.at, t.saved) == After(cfg, data, turns[..n]))
            && After(cfg, data, turns) == (t.at + st.move, st.saved)
            && TokensOf(cfg, data, turns) == TokensOf(cfg, data, turns[..n]) + st.tokens
  {
    hide Looked, StepOf;
  }

  /** New data behind the old changes nothing about the turns before. */
  lemma TracedExtends(cfg: Parsing, data: seq<Byte>, more: seq<Byte>, turns: seq<Turn>, done: nat, s: Saved,
                      ts: seq<Token>)
    requires Traced(cfg, data, turns, done, s, ts)
    ensures Traced(cfg, data + more, turns, done, s, ts)
  {
    TraceExtends(cfg, data, more, turns);
  }

  // ----- what it means

  /** Chains that hold no position yet. */
  ghost predicate Empty(start: Links) {
    Sized(start) && forall h :: 0 <= h < LZ_HASH_SIZE ==> start.hash[h] == 0
  }

  /** No turn misses a longer match with one of the nearest earlier positions of the same hash, as many of them as the
      budget has probes but one. */
  lemma NothingMissed(cfg: Parsing, data: seq<Byte>, t: Turn, k: nat)
    requires Looked(cfg, data, t) && !cfg.raw && !cfg.rle && t.at + 2 < t.have
    requires k + 1 < Budget(cfg.probes, LeastLen(t.saved)) && Leads(data[..t.have], t.base, t.at, t.reach, k)
    ensures NoLonger(data[..t.have], t.at, t.at - Earlier(data[..t.have], t.base, t.at, k).value, t.len)
  {
    ReachIs(cfg, data, t);
    hide *;
    var d := data[..t.have];
    var chain, pos, x := Chains(t.start, d, t.base).next, t.at % 32768, t.at % 0x1_0000_0000;
    CandidatesAre(t.start, d, t.base, t.at, t.reach, k);
    CandidateMissed(cfg, data, t, k, chain);
  }

  /** What no turn misses on its chain. */
  lemma CandidateMissed(cfg: Parsing, data: seq<Byte>, t: Turn, k: nat, chain: seq<U16>)
    requires Looked(cfg, data, t) && !cfg.raw && !cfg.rle && |chain| == 32768
    requires Sized(t.start) && chain == Chains(t.start, data[..t.have], t.base).next
    requires k + 1 < Budget(cfg.probes, LeastLen(t.saved))
    requires OnChain(chain, t.at % 0x1_0000_0000, t.reach, t.at % 32768, k)
    ensures NoLonger(data[..t.have], t.at, ChainDist(chain, t.at % 0x1_0000_0000, t.at % 32768, k), t.len)
  {
    LookedIs(cfg, data, t);
    hide *;
    var d, pos, x, len0 := data[..t.have], t.at % 32768, t.at % 0x1_0000_0000, LeastLen(t.saved);
    if |d| - t.at > len0 {
      var visited: nat, best: nat :|
        Searched(chain, x, t.reach, pos, d, t.at, t.dist, t.len, visited, best, len0, Budget(cfg.probes, len0));
      SearchedIs(chain, x, t.reach, pos, d, t.at, t.dist, t.len, visited, best, len0, Budget(cfg.probes, len0), k);
    } else {
      NothingAhead(d, t.at, ChainDist(chain, x, pos, k), t.dist, t.len, len0, t.reach);
    }
  }

  lemma ReachIs(cfg: Parsing, data: seq<Byte>, t: Turn)
    requires Looked(cfg, data, t)
    ensures Sized(t.start) && t.base <= t.at && t.reach + (t.have - t.at) <= 32768
  {
    hide Sought;
  }

  lemma LookedIs(cfg: Parsing, data: seq<Byte>, t: Turn)
    requires Looked(cfg, data, t) && !cfg.raw && !cfg.rle
    ensures t.at < t.have <= |data| && Sized(t.start)
    ensures var d := data[..t.have];
            && Best(d, t.at, t.dist, t.len, LeastLen(t.saved), t.reach, |d| - t.at)
            && (|d| - t.at > LeastLen(t.saved) ==>
                  exists visited: nat, best: nat ::
                    Searched(Chains(t.start, d, t.base).next, t.at % 0x1_0000_0000, t.reach, t.at % 32768, d, t.at,
                             t.dist, t.len, visited, best, LeastLen(t.saved),
                             Budget(cfg.probes, LeastLen(t.saved))))
  {
    hide Best, Searched, Chains, Budget, LeastLen;
  }

  lemma SearchedIs(chain: seq<U16>, x: nat, reach: nat, pos: nat, data: seq<Byte>, at: nat, dist: nat, len: nat,
                   visited: nat, best: nat, len0: nat, budget: nat, k: nat)
    requires |chain| == 32768 && pos < 32768
    requires Searched(chain, x, reach, pos, data, at, dist, len, visited, best, len0, budget)
    ensures k + 1 < budget && OnChain(chain, x, reach, pos, k) ==> NoLonger(data, at, ChainDist(chain, x, pos, k), len)
    ensures budget <= 1 ==> dist == 0
  {
    hide OnChain, NoLonger, ChainDist, NoneLonger, Stopped;
  }

  lemma NothingAhead(data: seq<Byte>, at: nat, far: nat, dist: nat, len: nat, len0: nat, reach: nat)
    requires at <= |data| && Best(data, at, dist, len, len0, reach, |data| - at) && |data| - at <= len0
    ensures dist == 0 && len == len0 && NoLonger(data, at, far, len)
  {
  }

  /** Whether the parser looks for matches at all. */
  predicate Looks(cfg: Parsing) {
    !cfg.raw && (cfg.rle || cfg.probes.0 > 1)
  }

  /** A parser that does not look for matches records a literal for each byte. */
  lemma {:induction false} OnlyLiterals(cfg: Parsing, data: seq<Byte>, turns: seq<Turn>)
    requires Trace(cfg, data, turns) && !Looks(cfg)
    ensures After(cfg, data, turns).1.len == 0 && |TokensOf(cfg, data, turns)| == After(cfg, data, turns).0
  {
    if turns != [] {
      var n := |turns| - 1;
      OnlyLiterals(cfg, data, turns[..n]);
      NoneFound(cfg, data, turns[n]);
      hide Looked;
    }
  }

  lemma NoneFound(cfg: Parsing, data: seq<Byte>, t: Turn)
    requires Looked(cfg, data, t) && !Looks(cfg) && t.saved.len == 0
    ensures StepOf(cfg, data, t) == Step([Literal(data[t.at])], t.saved, 1)
  {
    var d := data[..t.have];
    if !cfg.raw {
      LookedIs(cfg, data, t);
      hide Searched, Chains, Best, Looked;
      if |d| - t.at > LeastLen(t.saved) {
        var chain, b := Chains(t.start, d, t.base).next, Budget(cfg.probes, LeastLen(t.saved));
        var visited: nat, best: nat :|
          Searched(chain, t.at % 0x1_0000_0000, t.reach, t.at % 32768, d, t.at, t.dist, t.len, visited, best, 2, b);
        SearchedIs(chain, t.at % 0x1_0000_0000, t.reach, t.at % 32768, d, t.at, t.dist, t.len, visited, best, 2, b, 0);
      } else {
        NothingAhead(d, t.at, 0, t.dist, t.len, LeastLen(t.saved), t.reach);
      }
    }
  }

  // ----- how many tokens

  /** A turn finds nothing, or nothing that passes the filters. */
  predicate NoneKept(cfg: Parsing, t: Turn) {
    t.dist == 0 || Dropped(cfg.filter, t.at, t.len, t.dist)
  }

  /** Tokens, and a match that is saved. */
  ghost function TokensDue(cfg: Parsing, data: seq<Byte>, turns: seq<Turn>): nat {
    |TokensOf(cfg, data, turns)| + if After(cfg, data, turns).1.len > 0 then 1 else 0
  }

  lemma FoundIs(cfg: Parsing, data: seq<Byte>, t: Turn)
    requires Looked(cfg, data, t) && (t.saved.len == 0 || t.saved.len >= 3)
    ensures t.dist > 0 ==> t.len >= 3
    ensures t.dist == 0 ==> t.len <= LeastLen(t.saved)
  {
    if !cfg.raw && !cfg.rle { LookedIs(cfg, data, t); }
    hide Searched, Chains, MatchAt;
  }

  /** A turn moves on by at least as many bytes as it adds tokens, and by more if it records a match. */
  lemma OneTurn(cfg: Parsing, data: seq<Byte>, t: Turn)
    requires Looked(cfg, data, t) && (t.saved.len == 0 || t.saved.len >= 3)
    ensures var st := StepOf(cfg, data, t);
            var due := |st.tokens| + (if st.saved.len > 0 then 1 else 0) - if t.saved.len > 0 then 1 else 0;
            && (st.saved.len == 0 || st.saved.len >= 3) && due <= st.move
            && (due == st.move && st.saved.len == 0 ==> t.saved.len == 0 && NoneKept(cfg, t) && st.move == 1)
  {
    FoundIs(cfg, data, t);
    hide Looked;
  }

  /** There are never more tokens than bytes; and only as many if no turn finds a match. */
  lemma {:induction false} TokensAreFew(cfg: Parsing, data: seq<Byte>, turns: seq<Turn>)
    requires Trace(cfg, data, turns)
    ensures var s := After(cfg, data, turns).1; s.len == 0 || s.len >= 3
    ensures TokensDue(cfg, data, turns) <= After(cfg, data, turns).0
    ensures TokensDue(cfg, data, turns) == After(cfg, data, turns).0 && After(cfg, data, turns).1.len == 0 ==>
              After(cfg, data, turns).0 == |turns| && NoneTaken(cfg, data, turns)
  {
    hide *;
    DueIs(cfg, data, turns);
    if turns == [] {
      NoTurns(cfg, data);
      NothingTaken(cfg, data);
    } else {
      var n := |turns| - 1;
      LastTurn(cfg, data, turns);
      DueIs(cfg, data, turns[..n]);
      TokensAreFew(cfg, data, turns[..n]);
      OneTurn(cfg, data, turns[n]);
      NoneTakenSnoc(cfg, data, turns);
    }
  }

  /** One literal after the other. */
  ghost predicate NoneTaken(cfg: Parsing, data: seq<Byte>, turns: seq<Turn>) {
    forall i :: 0 <= i < |turns| ==>
      turns[i].at == i && turns[i].saved.len == 0 && NoneKept(cfg, turns[i]) && Looked(cfg, data, turns[i])
  }

  lemma NothingTaken(cfg: Parsing, data: seq<Byte>)
    ensures NoneTaken(cfg, data, [])
  {
  }

  lemma NoneTakenSnoc(cfg: Parsing, data: seq<Byte>, turns: seq<Turn>)
    requires turns != []
    ensures var n, t := |turns| - 1, turns[|turns| - 1];
            NoneTaken(cfg, data, turns[..n]) && t.at == n && t.saved.len == 0 && NoneKept(cfg, t)
                && Looked(cfg, data, t)
            ==> NoneTaken(cfg, data, turns)
  {
    hide NoneKept, Looked;
  }

  lemma DueIs(cfg: Parsing, data: seq<Byte>, turns: seq<Turn>)
    ensures TokensDue(cfg, data, turns)
            == |TokensOf(cfg, data, turns)| + if After(cfg, data, turns).1.len > 0 then 1 else 0
  {
    hide TokensOf, After;
  }

  /** One call to the end of the stream, into a compressor that is new. */
  ghost predicate OneCall(data: seq<Byte>, turns: seq<Turn>) {
    forall i :: 0 <= i < |turns| ==>
      && turns[i].have == Min(turns[i].at + MAX_MATCH_LEN, |data|)
      && turns[i].base == 0 && Empty(turns[i].start)
  }

  ghost predicate AllSame(data: seq<Byte>) {
    forall i :: 0 <= i < |data| ==> data[i] == data[0]
  }

  lemma SameMatches(data: seq<Byte>, at: nat, len: nat)
    requires AllSame(data) && 1 <= at && at + len <= |data|
    ensures MatchAt(data, at, 1, len)
  {
    forall k | at <= k < at + len ensures data[k] == data[k - 1] {
      assert data[k] == data[0] == data[k - 1];
    }
  }

  /** In a run of equal bytes the third turn finds a match over all that it sees. */
  lemma ThirdTurn(cfg: Parsing, data: seq<Byte>, t: Turn)
    requires Looked(cfg, data, t) && Looks(cfg) && AllSame(data) && t.at == 2 && t.have >= 10 && t.saved.len == 0
    requires t.base == 0 && Empty(t.start)
    ensures !NoneKept(cfg, t)
  {
    var d := data[..t.have];
    assert AllSame(d);
    SameMatches(d, 2, |d| - 2);
    SameMatches(d, 2, 3);
    if !cfg.rle {
      NearestIsOne(d, t.reach);
      NothingMissed(cfg, data, t, 0);
      FirstIsTaken(cfg, data, t);
    }
  }

  lemma NearestIsOne(d: seq<Byte>, reach: nat)
    requires AllSame(d) && |d| >= 10 && reach == 2
    ensures Earlier(d, 0, 2, 0) == Some(1) && Leads(d, 0, 2, reach, 0)
  {
    hide HashStep, HashTwo;
    assert HashAt(d, 1) == HashAt(d, 2);
  }

  lemma FirstIsTaken(cfg: Parsing, data: seq<Byte>, t: Turn)
    requires Looked(cfg, data, t) && !cfg.raw && !cfg.rle && t.at == 2 && t.have >= 10 && t.saved.len == 0
    requires t.base == 0 && AllSame(data[..t.have]) && t.len >= t.have - 2
    ensures t.dist == 1
  {
    var d := data[..t.have];
    NearestIsOne(d, t.reach);
    CandidatesAre(t.start, d, 0, 2, t.reach, 0);
    LookedIs(cfg, data, t);
    var chain, b := Chains(t.start, d, t.base).next, Budget(cfg.probes, LeastLen(t.saved));
    var visited: nat, best: nat :|
      Searched(chain, 2, t.reach, 2, d, t.at, t.dist, t.len, visited, best, 2, b);
    SameMatches(d, 2, t.len);
    hide Chains, ChainDist, OnChain, MatchAt, Stopped;
  }

  /** Ten or more equal bytes, in one call, give fewer tokens than bytes exactly if the parser looks for matches. */
  lemma RunsAreMatched(cfg: Parsing, data: seq<Byte>, turns: seq<Turn>)
    requires |data| >= 10 && AllSame(data) && Trace(cfg, data, turns) && OneCall(data, turns)
    requires After(cfg, data, turns).0 == |data| && After(cfg, data, turns).1.len == 0
    ensures |TokensOf(cfg, data, turns)| < |data| <==> Looks(cfg)
  {
    TokensAreFew(cfg, data, turns);
    hide Trace, After, TokensOf, Looked, Looks, NoneKept, AllSame;
    if !Looks(cfg) {
      OnlyLiterals(cfg, data, turns);
    } else if |TokensOf(cfg, data, turns)| >= |data| {
      ThirdTurn(cfg, data, turns[2]);
    }
  }
}
