/** Which authorities a proposer leaves out of its ancestors for a while
    (consensus/core/src/ancestor.rs): a locked include/exclude state per authority under
    a cap on excluded stake. */
module AncestorStates {
  import opened Committees
  import opened Sorting

  const STATE_LOCK_CLOCK_ROUNDS: nat := 450
  const SCORE_EXCLUSION_THRESHOLD_PERCENTAGE: nat := 20

  datatype AncestorState = Include | Exclude(score: nat)

  datatype AncestorInfo = AncestorInfo(state: AncestorState, lockUntilRound: nat)
  {
    predicate IsLocked(clock: nat) { lockUntilRound >= clock }
  }

  datatype StateTransition = StateTransition(authority: nat, score: nat, stake: nat)

  /** What an update is given: the scores of the leader schedule, the low and high quorum
      round of every authority, and the threshold clock. */
  datatype Input = Input(scores: seq<nat>, quorumRounds: seq<(nat, nat)>, clock: nat)

  function Excluded(m: seq<AncestorInfo>): set<nat> {
    set i: nat | i < |m| && m[i].state.Exclude?
  }

  // ---------- The network's high quorum round ----------

  /** Authorities whose high quorum round is at most `r`. */
  ghost function UpToRound(rounds: seq<(nat, nat)>, r: nat): set<nat> {
    set i: nat | i < |rounds| && rounds[i].1 <= r
  }

  /** The lowest round at or above the high rounds of a quorum; zero if there is none. */
  ghost predicate IsHighQuorumRound(c: Committee, rounds: seq<(nat, nat)>, r: nat) {
    if IsQuorum(c, Everyone(|rounds|))
    then IsQuorum(c, UpToRound(rounds, r)) && forall lower: nat | lower < r :: !IsQuorum(c, UpToRound(rounds, lower))
    else r == 0
  }

  type Weighted = (nat, nat)

  const RoundOf: Weighted -> int := (w: Weighted) => w.0
  const StakeOfPair: Weighted -> int := (w: Weighted) => w.1

  /** Stake listed with a round of at most `r`. */
  function SumUpToRound(ws: seq<Weighted>, r: nat): nat {
    if ws == [] then 0 else (if ws[0].0 <= r then ws[0].1 else 0) + SumUpToRound(ws[1..], r)
  }

  function SumAll(ws: seq<Weighted>): nat {
    if ws == [] then 0 else ws[0].1 + SumAll(ws[1..])
  }

  lemma {:induction false} SumAppend(x: seq<Weighted>, y: seq<Weighted>, r: nat)
    ensures SumUpToRound(x + y, r) == SumUpToRound(x, r) + SumUpToRound(y, r)
    ensures SumAll(x + y) == SumAll(x) + SumAll(y)
  {
    if x == [] {
      assert x + y == y;
    } else {
      assert (x + y)[1..] == x[1..] + y;
      SumAppend(x[1..], y, r);
    }
  }

  lemma {:induction false} SumBounds(ws: seq<Weighted>, r: nat)
    ensures SumUpToRound(ws, r) <= SumAll(ws)
    ensures (forall w | w in ws :: w.0 <= r) ==> SumUpToRound(ws, r) == SumAll(ws)
    ensures (forall w | w in ws :: w.0 > r) ==> SumUpToRound(ws, r) == 0
  {
    if ws != [] { SumBounds(ws[1..], r); }
  }

  lemma {:induction false} InsertKeepsSums(x: Weighted, ws: seq<Weighted>, key: Weighted -> int, r: nat)
    ensures SumUpToRound(Insert(x, ws, key), r) == SumUpToRound([x] + ws, r)
    ensures SumAll(Insert(x, ws, key)) == SumAll([x] + ws)
  {
    if ws != [] && key(x) > key(ws[0]) {
      InsertKeepsSums(x, ws[1..], key, r);
      assert ([ws[0]] + Insert(x, ws[1..], key))[1..] == Insert(x, ws[1..], key);
      assert ([x] + ws)[1..] == ws && ([x] + ws[1..])[1..] == ws[1..];
    }
  }

  lemma {:induction false} SortKeepsSums(ws: seq<Weighted>, key: Weighted -> int, r: nat)
    ensures SumUpToRound(Sort(ws, key), r) == SumUpToRound(ws, r)
    ensures SumAll(Sort(ws, key)) == SumAll(ws)
  {
    if ws != [] {
      SortKeepsSums(ws[1..], key, r);
      var rest := Sort(ws[1..], key);
      InsertKeepsSums(ws[0], rest, key, r);
      assert ([ws[0]] + rest)[1..] == rest;
    }
  }

  function Weigh(c: Committee, rounds: seq<(nat, nat)>, n: nat): (ws: seq<Weighted>)
    requires n <= |rounds| == c.Size()
    ensures |ws| == n
  {
    if n == 0 then [] else Weigh(c, rounds, n - 1) + [(rounds[n - 1].1, c.Stake(n - 1))]
  }

  lemma {:induction false} SumsAreStakes(c: Committee, rounds: seq<(nat, nat)>, n: nat, r: nat)
    requires n <= |rounds| == c.Size()
    ensures SumUpToRound(Weigh(c, rounds, n), r) == StakeUpTo(c.stakes, UpToRound(rounds, r), n)
    ensures SumAll(Weigh(c, rounds, n)) == StakeUpTo(c.stakes, Everyone(|rounds|), n)
  {
    if n > 0 {
      SumsAreStakes(c, rounds, n - 1, r);
      var last := [(rounds[n - 1].1, c.Stake(n - 1))];
      assert last[1..] == [];
      SumAppend(Weigh(c, rounds, n - 1), last, r);
    }
  }

  /** In round order, the first prefix that reaches the threshold ends at the answer. */
  lemma PrefixDecides(ws: seq<Weighted>, k: nat, threshold: nat)
    requires SortedBy(ws, RoundOf) && k < |ws|
    requires SumAll(ws[..k]) < threshold <= SumAll(ws[..k + 1])
    ensures SumUpToRound(ws, ws[k].0) >= threshold
    ensures forall lower: nat | lower < ws[k].0 :: SumUpToRound(ws, lower) < threshold
  {
    hide SortedBy;
    var r := ws[k].0;
    assert ws == ws[..k + 1] + ws[k + 1..] && ws == ws[..k] + ws[k..];
    forall w | w in ws[..k + 1] ensures w.0 <= r { EarlierIsLower(ws, k, w); }
    SumAppend(ws[..k + 1], ws[k + 1..], r);
    SumBounds(ws[..k + 1], r);
    forall lower: nat | lower < r ensures SumUpToRound(ws, lower) < threshold {
      forall w | w in ws[k..] ensures w.0 > lower { LaterIsHigher(ws, k, w); }
      SumAppend(ws[..k], ws[k..], lower);
      SumBounds(ws[..k], lower);
      SumBounds(ws[k..], lower);
    }
  }

  lemma EarlierIsLower(ws: seq<Weighted>, k: nat, w: Weighted)
    requires SortedBy(ws, RoundOf) && k < |ws| && w in ws[..k + 1]
    ensures w.0 <= ws[k].0
  {
    var i :| 0 <= i <= k && ws[i] == w;
    assert i < k ==> RoundOf(ws[i]) <= RoundOf(ws[k]);
  }

  lemma LaterIsHigher(ws: seq<Weighted>, k: nat, w: Weighted)
    requires SortedBy(ws, RoundOf) && k < |ws| && w in ws[k..]
    ensures w.0 >= ws[k].0
  {
    var i :| 0 <= i < |ws| - k && ws[k..][i] == w;
    assert i > 0 ==> RoundOf(ws[k]) <= RoundOf(ws[k + i]);
  }

  method FirstToReach(ws: seq<Weighted>, threshold: nat) returns (r: nat)
    requires SortedBy(ws, RoundOf) && threshold > 0
    ensures SumAll(ws) >= threshold ==>
      SumUpToRound(ws, r) >= threshold && forall lower: nat | lower < r :: SumUpToRound(ws, lower) < threshold
    ensures SumAll(ws) < threshold ==> r == 0
  {
    hide SortedBy;
    var total := 0;
    for k := 0 to |ws|
      invariant total == SumAll(ws[..k]) < threshold
    {
      ghost var one := [ws[k]];
      assert ws[..k + 1] == ws[..k] + one && one[1..] == [];
      SumAppend(ws[..k], one, 0);
      total := total + ws[k].1;
      if total >= threshold {
        PrefixDecides(ws, k, threshold);
        SumBounds(ws, ws[k].0);
        return ws[k].0;
      }
    }
    assert ws[..|ws|] == ws;
    return 0;
  }

  lemma SortedSumsAreStakes(c: Committee, rounds: seq<(nat, nat)>, ws: seq<Weighted>, r: nat)
    requires |rounds| == c.Size() && ws == Sort(Sort(Weigh(c, rounds, |rounds|), StakeOfPair), RoundOf)
    ensures SumUpToRound(ws, r) == StakeOf(c.stakes, UpToRound(rounds, r))
    ensures SumAll(ws) == StakeOf(c.stakes, Everyone(|rounds|))
  {
    hide Sort, SumUpToRound, SumAll, Weigh;
    var listed := Weigh(c, rounds, |rounds|);
    SortKeepsSums(Sort(listed, StakeOfPair), RoundOf, r);
    SortKeepsSums(listed, StakeOfPair, r);
    SumsAreStakes(c, rounds, |rounds|, r);
  }

  method CalculateNetworkHighQuorumRound(c: Committee, rounds: seq<(nat, nat)>) returns (r: nat)
    requires |rounds| == c.Size() && c.quorumThreshold > 0
    ensures IsHighQuorumRound(c, rounds, r)
    ensures if IsQuorum(c, Everyone(|c.stakes|)) then
        && IsQuorum(c, set i: nat | i < |rounds| && rounds[i].1 <= r)
        && (r > 0 ==> !IsQuorum(c, set i: nat | i < |rounds| && rounds[i].1 < r))
      else r == 0
  {
    hide SortedBy, Sort, SumUpToRound, SumAll, Weigh, StakeOf, UpToRound;
    var listed := Weigh(c, rounds, |rounds|);
    // Pairs are ordered by round, then by stake.
    var ws := Sort(Sort(listed, StakeOfPair), RoundOf);
    SortIsSortedAndStable(Sort(listed, StakeOfPair), RoundOf);
    r := FirstToReach(ws, c.quorumThreshold);
    forall x: nat ensures SumUpToRound(ws, x) == StakeOf(c.stakes, UpToRound(rounds, x)) {
      SortedSumsAreStakes(c, rounds, ws, x);
    }
    SortedSumsAreStakes(c, rounds, ws, 0);
    UpToRoundIs(rounds, r);
  }

  lemma UpToRoundIs(rounds: seq<(nat, nat)>, r: nat)
    ensures UpToRound(rounds, r) == set i: nat | i < |rounds| && rounds[i].1 <= r
    ensures r > 0 ==> UpToRound(rounds, r - 1) == set i: nat | i < |rounds| && rounds[i].1 < r
  {}

  // ---------- What an update means ----------

  function Highest(scores: seq<nat>): (h: nat)
    ensures forall s | s in scores :: s <= h
    ensures h == 0 || h in scores
  {
    if scores == [] then 0
    else
      var rest := Highest(scores[1..]);
      assert scores == [scores[0]] + scores[1..];
      if scores[0] >= rest then scores[0] else rest
  }

  function LowScore(scores: seq<nat>): nat {
    Highest(scores) * SCORE_EXCLUSION_THRESHOLD_PERCENTAGE / 100
  }

  /** An unlocked excluded authority whose score or quorum round recovered. */
  predicate Returns(m: seq<AncestorInfo>, x: Input, network: nat, i: nat)
    requires |x.scores| <= |m| == |x.quorumRounds|
  {
    && i < |x.scores| && !m[i].IsLocked(x.clock) && m[i].state.Exclude?
    && (x.scores[i] > LowScore(x.scores) || x.quorumRounds[i].1 >= network)
  }

  /** An unlocked included authority with a low score. */
  predicate Candidate(m: seq<AncestorInfo>, x: Input, i: nat)
    requires |x.scores| <= |m|
  {
    i < |x.scores| && !m[i].IsLocked(x.clock) && m[i].state.Include? && x.scores[i] <= LowScore(x.scores)
  }

  /** Who may leave and who may return, by the scores: a score is low if five times as much is still
      not above some other score. */
  lemma MovesIff(m: seq<AncestorInfo>, x: Input, network: nat, i: nat)
    requires |x.scores| <= |m| == |x.quorumRounds|
    ensures Candidate(m, x, i) <==>
      && i < |x.scores| && m[i].state == Include && m[i].lockUntilRound < x.clock
      && exists j :: 0 <= j < |x.scores| && 5 * x.scores[i] <= x.scores[j]
    ensures Returns(m, x, network, i) <==>
      && i < |x.scores| && m[i].state != Include && m[i].lockUntilRound < x.clock
      && (x.quorumRounds[i].1 >= network || forall j | 0 <= j < |x.scores| :: x.scores[j] < 5 * x.scores[i])
  {
    if i < |x.scores| {
      var h := Highest(x.scores);
      assert LowScore(x.scores) == h / 5;
      assert x.scores[i] in x.scores;
      if h in x.scores { var k :| 0 <= k < |x.scores| && x.scores[k] == h; }
      assert forall j | 0 <= j < |x.scores| :: x.scores[j] in x.scores;
    }
  }

  ghost function Returning(m: seq<AncestorInfo>, x: Input, network: nat): set<nat>
    requires |x.scores| <= |m| == |x.quorumRounds|
  {
    set i: nat | i < |m| && Returns(m, x, network, i)
  }

  ghost function Candidates(m: seq<AncestorInfo>, x: Input): set<nat>
    requires |x.scores| <= |m|
  {
    set i: nat | i < |m| && Candidate(m, x, i)
  }

  /** Worst score first, then by index. */
  predicate Before(scores: seq<nat>, i: nat, j: nat) {
    && i < |scores| && j < |scores|
    && (scores[i] < scores[j] || (scores[i] == scores[j] && i < j))
  }

  ghost function Earlier(scores: seq<nat>, s: set<nat>, i: nat): set<nat> {
    set j | j in s && Before(scores, j, i)
  }

  ghost function Below(s: set<nat>, n: nat): set<nat> {
    set j | j in s && j < n
  }

  lemma BelowStep(s: set<nat>, i: nat, n: nat)
    requires InRange(s, n)
    ensures Below(s, 0) == {} && Below(s, n) == s
    ensures Below(s, i + 1) == if i in s then Below(s, i) + {i} else Below(s, i)
  {}

  ghost predicate InRange(s: set<nat>, n: nat) { forall i | i in s :: i < n }

  /** A candidate is chosen exactly if it still fits after the chosen ones before it. */
  ghost predicate GreedyChoice(stakes: seq<nat>, cap: nat, kept: set<nat>, scores: seq<nat>, candidates: set<nat>,
                               chosen: set<nat>) {
    && |scores| <= |stakes| && InRange(candidates, |scores|) && chosen <= candidates
    && forall i | i in candidates ::
         i in chosen <==> StakeOf(stakes, kept + Earlier(scores, chosen, i)) + stakes[i] <= cap
  }

  /** Recovered authorities return, as many low ones leave as the cap allows, and each
      that moved is locked. */
  ghost predicate Updated(c: Committee, cap: nat, x: Input, network: nat, m: seq<AncestorInfo>, m': seq<AncestorInfo>)
    requires |x.scores| <= |m| == |m'| == |x.quorumRounds| == c.Size()
  {
    var chosen := Excluded(m') - Excluded(m);
    && (forall i: nat | i < |m| :: m'[i] ==
          if Returns(m, x, network, i) then AncestorInfo(Include, x.clock + STATE_LOCK_CLOCK_ROUNDS)
          else if i in chosen && i < |x.scores| then
            AncestorInfo(Exclude(x.scores[i]), x.clock + STATE_LOCK_CLOCK_ROUNDS)
          else m[i])
    && GreedyChoice(c.stakes, cap, Excluded(m) - Returning(m, x, network), x.scores, Candidates(m, x), chosen)
  }

  /** One update with the network's high quorum round as it follows from the quorum rounds given. */
  ghost predicate IsUpdate(c: Committee, cap: nat, x: Input, m: seq<AncestorInfo>, m': seq<AncestorInfo>) {
    && |x.scores| <= |m| == |m'| == |x.quorumRounds| == c.Size()
    && exists network :: IsHighQuorumRound(c, x.quorumRounds, network) && Updated(c, cap, x, network, m, m')
  }

  lemma ByUpdate(c: Committee, cap: nat, x: Input, network: nat, m: seq<AncestorInfo>, m': seq<AncestorInfo>)
    requires |x.scores| <= |m| == |m'| == |x.quorumRounds| == c.Size()
    requires IsHighQuorumRound(c, x.quorumRounds, network) && Updated(c, cap, x, network, m, m')
    ensures IsUpdate(c, cap, x, m, m')
  {
    hide Updated, IsHighQuorumRound;
  }

  /** The greedy choice is unique: it is decided candidate by candidate. */
  lemma {:induction false} GreedyIsUnique(stakes: seq<nat>, cap: nat, kept: set<nat>, scores: seq<nat>,
                                          candidates: set<nat>,
                                          x: set<nat>, y: set<nat>, i: nat)
    requires GreedyChoice(stakes, cap, kept, scores, candidates, x)
      && GreedyChoice(stakes, cap, kept, scores, candidates, y)
    requires i in candidates
    ensures i in x <==> i in y
    decreases Earlier(scores, candidates, i)
  {
    forall j | j in Earlier(scores, candidates, i) ensures j in x <==> j in y {
      assert i !in Earlier(scores, candidates, j) && j !in Earlier(scores, candidates, j);
      assert Earlier(scores, candidates, j) <= Earlier(scores, candidates, i);
      GreedyIsUnique(stakes, cap, kept, scores, candidates, x, y, j);
    }
    assert Earlier(scores, x, i) == Earlier(scores, y, i);
  }

  lemma UpdatedExcludes(c: Committee, cap: nat, x: Input, network: nat, m: seq<AncestorInfo>, m': seq<AncestorInfo>)
    requires |x.scores| <= |m| == |m'| == |x.quorumRounds| == c.Size() && Updated(c, cap, x, network, m, m')
    ensures Excluded(m') == (Excluded(m) - Returning(m, x, network)) + (Excluded(m') - Excluded(m))
  {
    hide GreedyChoice;
  }

  /** Whoever is left included although unlocked and low would break the cap. */
  lemma ExclusionIsMaximal(c: Committee, cap: nat, x: Input, network: nat, m: seq<AncestorInfo>, m': seq<AncestorInfo>,
                           i: nat)
    requires |x.scores| <= |m| == |m'| == |x.quorumRounds| == c.Size() && Updated(c, cap, x, network, m, m')
    requires i in Candidates(m, x) && i !in Excluded(m')
    ensures StakeOf(c.stakes, Excluded(m')) + c.Stake(i) > cap
  {
    var kept, chosen := Excluded(m) - Returning(m, x, network), Excluded(m') - Excluded(m);
    UpdatedExcludes(c, cap, x, network, m, m');
    StakeMonotone(c.stakes, kept + Earlier(x.scores, chosen, i), Excluded(m'), |c.stakes|);
  }

  /** A worse score has priority over a better one that weighs as much. */
  lemma WorstScoresFirst(c: Committee, cap: nat, x: Input, network: nat, m: seq<AncestorInfo>, m': seq<AncestorInfo>,
                         i: nat, j: nat)
    requires |x.scores| <= |m| == |m'| == |x.quorumRounds| == c.Size() && Updated(c, cap, x, network, m, m')
    requires i in Candidates(m, x) && j in Candidates(m, x) && c.Stake(i) <= c.Stake(j)
    requires x.scores[i] < x.scores[j] || (x.scores[i] == x.scores[j] && i < j)
    ensures j in Excluded(m') ==> i in Excluded(m')
  {
    var kept, chosen := Excluded(m) - Returning(m, x, network), Excluded(m') - Excluded(m);
    assert Earlier(x.scores, chosen, i) <= Earlier(x.scores, chosen, j);
    StakeMonotone(c.stakes, kept + Earlier(x.scores, chosen, i), kept + Earlier(x.scores, chosen, j), |c.stakes|);
  }

  // ---------- The greedy loop ----------

  function Authorities(ts: seq<StateTransition>): set<nat> {
    set t | t in ts :: t.authority
  }

  /** The transitions of the authorities in `s`, with their scores and stakes. */
  ghost predicate Lists(c: Committee, scores: seq<nat>, ts: seq<StateTransition>, s: set<nat>) {
    && |scores| <= c.Size() && Authorities(ts) == s
    && forall t | t in ts ::
         t.authority < |scores| && t.score == scores[t.authority] && t.stake == c.stakes[t.authority]
  }

  ghost predicate IndexOrder(ts: seq<StateTransition>) {
    forall i, j | 0 <= i < j < |ts| :: ts[i].authority < ts[j].authority
  }

  predicate Precedes(t: StateTransition, u: StateTransition) {
    t.score < u.score || (t.score == u.score && t.authority < u.authority)
  }

  ghost predicate ScoreOrder(ts: seq<StateTransition>) {
    forall i, j | 0 <= i < j < |ts| :: Precedes(ts[i], ts[j])
  }

  const ScoreOf: StateTransition -> int := (t: StateTransition) => t.score

  lemma HeadPrecedes(ts: seq<StateTransition>)
    requires ScoreOrder(ts) && ts != []
    ensures ScoreOrder(ts[1..]) && forall u | u in ts[1..] :: Precedes(ts[0], u)
  {
    forall u | u in ts[1..] ensures Precedes(ts[0], u) {
      var k :| 0 <= k < |ts| - 1 && ts[1..][k] == u;
      assert u == ts[k + 1];
    }
  }

  lemma InsertElements(t: StateTransition, ts: seq<StateTransition>)
    ensures forall u :: u in Insert(t, ts, ScoreOf) <==> u == t || u in ts
  {
    SameElements(Insert(t, ts, ScoreOf), ts + [t]);
  }

  lemma {:induction false} InsertInScoreOrder(t: StateTransition, ts: seq<StateTransition>)
    requires ScoreOrder(ts) && forall u | u in ts :: t.authority < u.authority
    ensures ScoreOrder(Insert(t, ts, ScoreOf))
  {
    if ts == [] {
    } else {
      HeadPrecedes(ts);
      assert forall u :: u in ts <==> u == ts[0] || u in ts[1..] by { assert ts == [ts[0]] + ts[1..]; }
      hide ScoreOrder;
      if t.score <= ts[0].score {
        assert forall u | u in ts :: Precedes(t, u);
        ConsInScoreOrder(t, ts);
      } else {
        InsertInScoreOrder(t, ts[1..]);
        InsertElements(t, ts[1..]);
        ConsInScoreOrder(ts[0], Insert(t, ts[1..], ScoreOf));
      }
    }
  }

  lemma ConsInScoreOrder(t: StateTransition, ts: seq<StateTransition>)
    requires ScoreOrder(ts) && forall u | u in ts :: Precedes(t, u)
    ensures ScoreOrder([t] + ts)
  {}

  /** A stable sort by score orders by score, then by index. */
  lemma {:induction false} SortInScoreOrder(ts: seq<StateTransition>)
    requires IndexOrder(ts)
    ensures ScoreOrder(Sort(ts, ScoreOf))
  {
    if ts != [] {
      var rest := ts[1..];
      assert ts == [ts[0]] + rest && forall i | 0 <= i < |rest| :: rest[i] == ts[i + 1];
      SortInScoreOrder(rest);
      SameElements(Sort(rest, ScoreOf), rest);
      InsertInScoreOrder(ts[0], Sort(rest, ScoreOf));
    }
  }

  /** What the loop excludes. */
  function Pick(stakes: seq<nat>, cap: nat, kept: set<nat>, ts: seq<StateTransition>): (p: set<nat>)
    ensures p <= Authorities(ts)
  {
    if ts == [] then {} else
    var last := ts[|ts| - 1];
    var p := Pick(stakes, cap, kept, ts[..|ts| - 1]);
    if StakeOf(stakes, kept + p) + last.stake <= cap then p + {last.authority} else p
  }

  lemma OrderIsStrict(c: Committee, scores: seq<nat>, ts: seq<StateTransition>, k: nat, n: nat)
    requires ScoreOrder(ts) && Lists(c, scores, ts, Authorities(ts)) && k < n < |ts|
    ensures Before(scores, ts[k].authority, ts[n].authority) && !Before(scores, ts[n].authority, ts[k].authority)
  {
    assert ts[k] in ts && ts[n] in ts && Precedes(ts[k], ts[n]);
  }

  lemma PrefixIsEarlier(c: Committee, scores: seq<nat>, ts: seq<StateTransition>, n: nat, i: nat)
    requires ScoreOrder(ts) && Lists(c, scores, ts, Authorities(ts)) && n < |ts| && i in Authorities(ts[..n])
    ensures Before(scores, i, ts[n].authority) && i != ts[n].authority
  {
    hide ScoreOrder, Lists;
    var t :| t in ts[..n] && t.authority == i;
    var k :| 0 <= k < n && ts[k] == t;
    OrderIsStrict(c, scores, ts, k, n);
  }

  lemma PrefixLists(c: Committee, scores: seq<nat>, ts: seq<StateTransition>, n: nat)
    requires ScoreOrder(ts) && Lists(c, scores, ts, Authorities(ts)) && n <= |ts|
    ensures ScoreOrder(ts[..n]) && Lists(c, scores, ts[..n], Authorities(ts[..n]))
  {
    assert forall t | t in ts[..n] :: t in ts;
  }

  /** What is picked from a prefix is what is picked before its end. */
  lemma {:induction false} PickPrefix(c: Committee, cap: nat, kept: set<nat>, scores: seq<nat>,
                                      ts: seq<StateTransition>, k: nat)
    requires ScoreOrder(ts) && Lists(c, scores, ts, Authorities(ts)) && k < |ts|
    ensures Pick(c.stakes, cap, kept, ts[..k]) == Earlier(scores, Pick(c.stakes, cap, kept, ts), ts[k].authority)
    ensures ts[k].authority in Pick(c.stakes, cap, kept, ts)
      <==> ts[k].authority in Pick(c.stakes, cap, kept, ts[..k + 1])
    decreases |ts|
  {
    hide ScoreOrder, Lists, Authorities, StakeOf, Before;
    var n := |ts| - 1;
    var init := ts[..n];
    var p, all := Pick(c.stakes, cap, kept, init), Pick(c.stakes, cap, kept, ts);
    assert all == p || all == p + {ts[n].authority};
    forall i | i in p ensures Before(scores, i, ts[n].authority) && i != ts[n].authority {
      PrefixIsEarlier(c, scores, ts, n, i);
    }
    if k == n {
      assert ts[..k + 1] == ts;
      NotBeforeItself(scores, ts[n].authority);
    } else {
      assert init[..k] == ts[..k] && init[..k + 1] == ts[..k + 1] && init[k] == ts[k];
      PrefixLists(c, scores, ts, n);
      PickPrefix(c, cap, kept, scores, init, k);
      OrderIsStrict(c, scores, ts, k, n);
      NotBeforeItself(scores, ts[k].authority);
    }
  }

  lemma NotBeforeItself(scores: seq<nat>, i: nat)
    ensures !Before(scores, i, i)
  {}

  lemma PickedIfFits(c: Committee, cap: nat, kept: set<nat>, scores: seq<nat>, ts: seq<StateTransition>, k: nat)
    requires ScoreOrder(ts) && Lists(c, scores, ts, Authorities(ts)) && k < |ts|
    ensures var p := Pick(c.stakes, cap, kept, ts);
            ts[k].authority in p <==> StakeOf(c.stakes, kept + Earlier(scores, p, ts[k].authority)) + ts[k].stake <= cap
  {
    hide ScoreOrder, Lists, Earlier, StakeOf;
    PickPrefix(c, cap, kept, scores, ts, k);
    assert ts[..k + 1][..k] == ts[..k];
    var q := Pick(c.stakes, cap, kept, ts[..k]);
    if ts[k].authority in q { PrefixIsEarlier(c, scores, ts, k, ts[k].authority); }
  }

  lemma PickIsGreedy(c: Committee, cap: nat, kept: set<nat>, scores: seq<nat>, ts: seq<StateTransition>,
                     candidates: set<nat>)
    requires ScoreOrder(ts) && Lists(c, scores, ts, candidates)
    ensures GreedyChoice(c.stakes, cap, kept, scores, candidates, Pick(c.stakes, cap, kept, ts))
  {
    hide ScoreOrder, StakeOf, Earlier, Pick;
    var p := Pick(c.stakes, cap, kept, ts);
    forall i | i in candidates
      ensures i < |scores| && (i in p <==> StakeOf(c.stakes, kept + Earlier(scores, p, i)) + c.stakes[i] <= cap)
    {
      var t :| t in ts && t.authority == i;
      var k :| 0 <= k < |ts| && ts[k] == t;
      PickedIfFits(c, cap, kept, scores, ts, k);
    }
  }

  // ---------- Moving authorities ----------

  /** The states once the authorities in `s` moved. */
  function Moved(m: seq<AncestorInfo>, s: set<nat>, exclude: bool, scores: seq<nat>,
                 clock: nat): (m': seq<AncestorInfo>)
    ensures |m'| == |m|
  {
    seq(|m|, i requires 0 <= i < |m| =>
      if i in s then AncestorInfo(Target(exclude, scores, i), clock + STATE_LOCK_CLOCK_ROUNDS) else m[i])
  }

  function Target(exclude: bool, scores: seq<nat>, i: nat): AncestorState {
    if exclude then Exclude(if i < |scores| then scores[i] else 0) else Include
  }

  lemma MovedOne(m: seq<AncestorInfo>, s: set<nat>, exclude: bool, scores: seq<nat>, clock: nat, i: nat)
    requires i < |m|
    ensures Moved(m, s + {i}, exclude, scores, clock)
         == var info := AncestorInfo(Target(exclude, scores, i), clock + STATE_LOCK_CLOCK_ROUNDS);
            Moved(m, s, exclude, scores, clock)[i := info]
  {}

  lemma MovedNobody(m: seq<AncestorInfo>, scores: seq<nat>, clock: nat)
    ensures Moved(m, {}, true, scores, clock) == m
  {}

  class AncestorStateManager {
    const committee: Committee
    const excludedNodesStakeThreshold: nat
    var stateMap: seq<AncestorInfo>
    var totalExcludedStake: nat
    var propagationScores: seq<nat>

    /** The running total is the stake of the excluded authorities, within the cap. */
    ghost predicate Valid()
      reads this
    {
      && |stateMap| == committee.Size() && committee.quorumThreshold > 0
      && totalExcludedStake == StakeOf(committee.stakes, Excluded(stateMap)) <= excludedNodesStakeThreshold
    }

    constructor (c: Committee, badNodesStakeThreshold: nat)
      requires c.quorumThreshold > 0
      ensures Valid() && committee == c && Excluded(stateMap) == {} && propagationScores == []
      ensures excludedNodesStakeThreshold == Cap(badNodesStakeThreshold, c.totalStake)
      ensures 100 * excludedNodesStakeThreshold <= 2 * badNodesStakeThreshold / 3 * c.totalStake
        < 100 * excludedNodesStakeThreshold + 100
    {
      committee := c;
      excludedNodesStakeThreshold := Cap(badNodesStakeThreshold, c.totalStake);
      stateMap := seq(c.Size(), i => AncestorInfo(Include, 0));
      totalExcludedStake := 0;
      propagationScores := [];
      new;
      StakeOfEmpty(c.stakes, Excluded(stateMap), c.Size());
    }

    method SetPropagationScores(scores: seq<nat>)
      requires Valid()
      modifies this`propagationScores
      ensures Valid() && propagationScores == scores
    {
      propagationScores := scores;
    }

    /** Flips one authority. The subtraction cannot underflow: its stake is in the total. */
    method ApplyStateChange(t: StateTransition, newState: AncestorState, clock: nat)
      requires t.authority < |stateMap| == committee.Size() && t.stake == committee.Stake(t.authority)
      requires stateMap[t.authority].state.Include? <==> newState.Exclude?
      requires totalExcludedStake == StakeOf(committee.stakes, Excluded(stateMap))
      modifies this`stateMap, this`totalExcludedStake
      ensures stateMap == old(stateMap)[t.authority := AncestorInfo(newState, clock + STATE_LOCK_CLOCK_ROUNDS)]
      ensures totalExcludedStake == StakeOf(committee.stakes, Excluded(stateMap))
      ensures newState.Exclude? ==> totalExcludedStake == old(totalExcludedStake) + t.stake
      ensures newState.Include? ==> totalExcludedStake == old(totalExcludedStake) - t.stake
    {
      ghost var before := Excluded(stateMap);
      ghost var rest := before - {t.authority};
      StakeOfInsert(committee.stakes, rest, t.authority, committee.Size());
      if newState.Include? {
        assert rest + {t.authority} == before;
        totalExcludedStake := totalExcludedStake - t.stake;
      } else {
        assert rest == before;
        totalExcludedStake := totalExcludedStake + t.stake;
      }
      stateMap := stateMap[t.authority := AncestorInfo(newState, clock + STATE_LOCK_CLOCK_ROUNDS)];
      assert Excluded(stateMap) == if newState.Include? then rest else rest + {t.authority};
    }

    /** Who may return and who may leave, in index order. */
    method CollectTransitions(x: Input, network: nat)
      returns (toInclude: seq<StateTransition>, toExclude: seq<StateTransition>)
      requires |x.scores| <= |stateMap| == |x.quorumRounds| == committee.Size()
      ensures Lists(committee, x.scores, toInclude, Returning(stateMap, x, network)) && IndexOrder(toInclude)
      ensures Lists(committee, x.scores, toExclude, Candidates(stateMap, x)) && IndexOrder(toExclude)
    {
      hide LowScore, Lists, IndexOrder, Authorities;
      toInclude, toExclude := [], [];
      ListsNone(committee, x.scores);
      BelowStep(Returning(stateMap, x, network), 0, |x.scores|);
      BelowStep(Candidates(stateMap, x), 0, |x.scores|);
      var low := LowScore(x.scores);
      for i := 0 to |x.scores|
        invariant Lists(committee, x.scores, toInclude, Below(Returning(stateMap, x, network), i))
        invariant Lists(committee, x.scores, toExclude, Below(Candidates(stateMap, x), i))
        invariant IndexOrder(toInclude) && IndexOrder(toExclude)
      {
        var info := stateMap[i];
        var t := StateTransition(i, x.scores[i], committee.Stake(i));
        if !info.IsLocked(x.clock) {
          if info.state.Include? {
            if x.scores[i] <= low {
              ListsMore(committee, x.scores, toExclude, Below(Candidates(stateMap, x), i), t);
              toExclude := toExclude + [t];
            }
          } else if x.scores[i] > low || x.quorumRounds[i].1 >= network {
            ListsMore(committee, x.scores, toInclude, Below(Returning(stateMap, x, network), i), t);
            toInclude := toInclude + [t];
          }
        }
        BelowStep(Returning(stateMap, x, network), i, |x.scores|);
        BelowStep(Candidates(stateMap, x), i, |x.scores|);
      }
    }

    method IncludeAll(ts: seq<StateTransition>, clock: nat)
      requires Valid() && IndexOrder(ts)
      requires Lists(committee, propagationScores, ts, Authorities(ts)) && Authorities(ts) <= Excluded(stateMap)
      modifies this`stateMap, this`totalExcludedStake
      ensures Valid()
      ensures stateMap == Moved(old(stateMap), Authorities(ts), false, propagationScores, clock)
    {
      hide StakeOf;
      ghost var m := stateMap;
      for k := 0 to |ts|
        invariant Valid() && stateMap == Moved(m, Authorities(ts[..k]), false, propagationScores, clock)
      {
        assert ts[..k + 1] == ts[..k] + [ts[k]];
        AuthoritiesMore(ts[..k], ts[k]);
        assert ts[k] in ts && ts[k].authority in Authorities(ts);
        assert ts[k].authority !in Authorities(ts[..k]);
        MovedOne(m, Authorities(ts[..k]), false, propagationScores, clock, ts[k].authority);
        ApplyStateChange(ts[k], Include, clock);
      }
      assert ts[..|ts|] == ts;
    }

    method ExcludeWhileUnderCap(ts: seq<StateTransition>, clock: nat)
      requires Valid() && ScoreOrder(ts)
      requires Lists(committee, propagationScores, ts, Authorities(ts)) && Authorities(ts) !! Excluded(stateMap)
      modifies this`stateMap, this`totalExcludedStake
      ensures Valid()
      ensures var p := Pick(committee.stakes, excludedNodesStakeThreshold, Excluded(old(stateMap)), ts);
              stateMap == Moved(old(stateMap), p, true, propagationScores, clock)
    {
      hide StakeOf, ScoreOrder, Moved;
      ghost var m, kept := stateMap, Excluded(stateMap);
      ghost var p: set<nat> := {};
      MovedNobody(m, propagationScores, clock);
      for k := 0 to |ts|
        invariant Valid() && p == Pick(committee.stakes, excludedNodesStakeThreshold, kept, ts[..k])
        invariant stateMap == Moved(m, p, true, propagationScores, clock)
      {
        assert ts[..k + 1][..k] == ts[..k];
        assert ts[k] in ts && ts[k].authority in Authorities(ts);
        if ts[k].authority in Authorities(ts[..k]) {
          PrefixIsEarlier(committee, propagationScores, ts, k, ts[k].authority);
        }
        ExcludedMoved(m, p, propagationScores, clock);
        if totalExcludedStake + ts[k].stake <= excludedNodesStakeThreshold {
          MovedOne(m, p, true, propagationScores, clock, ts[k].authority);
          ApplyStateChange(ts[k], Exclude(ts[k].score), clock);
          p := p + {ts[k].authority};
        }
      }
      assert ts[..|ts|] == ts;
    }

    /** One update, from the latest quorum rounds. */
    method UpdateAllAncestorsState(quorumRounds: seq<(nat, nat)>, clock: nat) returns (ghost network: nat)
      requires Valid() && |propagationScores| <= committee.Size() == |quorumRounds|
      modifies this`stateMap, this`totalExcludedStake
      ensures Valid()
      ensures IsHighQuorumRound(committee, quorumRounds, network)
      ensures Updated(committee, excludedNodesStakeThreshold, Input(propagationScores, quorumRounds, clock), network,
        old(stateMap), stateMap)
    {
      hide Updated, GreedyChoice, Pick, StakeOf, LowScore, IsHighQuorumRound, ScoreOrder, IndexOrder, Lists, Returning,
        Candidates, Moved;
      var high := CalculateNetworkHighQuorumRound(committee, quorumRounds);
      network := high;
      var x := Input(propagationScores, quorumRounds, clock);
      ghost var m := stateMap;
      var toInclude, toExclude := CollectTransitions(x, high);
      ListedAre(committee, m, x, high, toInclude, toExclude);
      IncludeAll(toInclude, clock);
      ghost var between := stateMap;
      var sorted := Sort(toExclude, ScoreOf);
      SortInScoreOrder(toExclude);
      SameElements(sorted, toExclude);
      SameLists(committee, x.scores, toExclude, sorted, Candidates(m, x));
      ExcludedReturned(m, Returning(m, x, high), x.scores, clock);
      ExcludeWhileUnderCap(sorted, clock);
      PickIsGreedy(committee, excludedNodesStakeThreshold, Excluded(between), x.scores, sorted, Candidates(m, x));
      UpdatedByMoves(committee, excludedNodesStakeThreshold, x, high, m,
                     Pick(committee.stakes, excludedNodesStakeThreshold, Excluded(between), sorted));
    }
  }

  lemma ListedAre(c: Committee, m: seq<AncestorInfo>, x: Input, network: nat, toInclude: seq<StateTransition>,
                  toExclude: seq<StateTransition>)
    requires |x.scores| <= |m| == |x.quorumRounds| == c.Size()
    requires Lists(c, x.scores, toInclude, Returning(m, x, network)) && Lists(c, x.scores, toExclude, Candidates(m, x))
    ensures Authorities(toInclude) == Returning(m, x, network) <= Excluded(m)
    ensures Authorities(toExclude) == Candidates(m, x) && Candidates(m, x) !! Excluded(m)
  {
    hide LowScore;
  }

  lemma SameLists(c: Committee, scores: seq<nat>, ts: seq<StateTransition>, us: seq<StateTransition>, s: set<nat>)
    requires Lists(c, scores, ts, s) && forall t :: t in us <==> t in ts
    ensures Lists(c, scores, us, s) && Authorities(us) == s
  {
    assert Authorities(us) == Authorities(ts);
  }

  lemma ExcludedReturned(m: seq<AncestorInfo>, s: set<nat>, scores: seq<nat>, clock: nat)
    ensures Excluded(Moved(m, s, false, scores, clock)) == Excluded(m) - s
  {}

  /** The two rounds of moves together are an update. */
  lemma UpdatedByMoves(c: Committee, cap: nat, x: Input, network: nat, m: seq<AncestorInfo>, p: set<nat>)
    requires |x.scores| <= |m| == |x.quorumRounds| == c.Size()
    requires GreedyChoice(c.stakes, cap, Excluded(m) - Returning(m, x, network), x.scores, Candidates(m, x), p)
    ensures var between := Moved(m, Returning(m, x, network), false, x.scores, x.clock);
            Updated(c, cap, x, network, m, Moved(between, p, true, x.scores, x.clock))
  {
    hide LowScore, StakeOf, Earlier;
    var between := Moved(m, Returning(m, x, network), false, x.scores, x.clock);
    var m' := Moved(between, p, true, x.scores, x.clock);
    assert Excluded(m') - Excluded(m) == p;
  }

  lemma ListsNone(c: Committee, scores: seq<nat>)
    requires |scores| <= c.Size()
    ensures Lists(c, scores, [], {}) && IndexOrder([])
  {}

  lemma ListsMore(c: Committee, scores: seq<nat>, ts: seq<StateTransition>, s: set<nat>, t: StateTransition)
    requires Lists(c, scores, ts, s) && IndexOrder(ts) && forall i | i in s :: i < t.authority
    requires t.authority < |scores| && t.score == scores[t.authority] && t.stake == c.stakes[t.authority]
    ensures Lists(c, scores, ts + [t], s + {t.authority}) && IndexOrder(ts + [t])
  {
    AuthoritiesMore(ts, t);
    assert forall i | 0 <= i < |ts| :: ts[i] in ts && ts[i].authority in Authorities(ts);
  }

  lemma AuthoritiesMore(ts: seq<StateTransition>, t: StateTransition)
    ensures Authorities(ts + [t]) == Authorities(ts) + {t.authority}
  {
    assert forall u :: u in ts + [t] <==> u in ts || u == t;
  }

  lemma ExcludedMoved(m: seq<AncestorInfo>, p: set<nat>, scores: seq<nat>, clock: nat)
    requires InRange(p, |m|)
    ensures Excluded(Moved(m, p, true, scores, clock)) == Excluded(m) + p
  {}

  // ---------- Runs ----------

  ghost predicate Changed(m: seq<AncestorInfo>, m': seq<AncestorInfo>, i: nat)
    requires i < |m| == |m'|
  {
    m[i].state.Include? != m'[i].state.Include?
  }

  /** Only unlocked authorities move, and each move locks. */
  ghost predicate RespectsLocks(m: seq<AncestorInfo>, m': seq<AncestorInfo>, clock: nat) {
    && |m| == |m'|
    && forall i: nat | i < |m| ::
         m'[i] == m[i] || (Changed(m, m', i) && !m[i].IsLocked(clock)
           && m'[i].lockUntilRound == clock + 450)
  }

  lemma UpdatedRespectsLocks(c: Committee, cap: nat, x: Input, network: nat, m: seq<AncestorInfo>,
                             m': seq<AncestorInfo>)
    requires |x.scores| <= |m| == |m'| == |x.quorumRounds| == c.Size() && Updated(c, cap, x, network, m, m')
    ensures RespectsLocks(m, m', x.clock)
  {
    hide LowScore, StakeOf;
    var chosen := Excluded(m') - Excluded(m);
    forall i: nat | i < |m| && i in chosen ensures Candidate(m, x, i) { assert i in Candidates(m, x); }
  }

  ghost predicate IsRun(history: seq<seq<AncestorInfo>>, clocks: seq<nat>) {
    && |history| == |clocks| + 1
    && forall k | 0 <= k < |clocks| :: RespectsLocks(history[k], history[k + 1], clocks[k])
  }

  lemma {:induction false} RunKeepsSize(history: seq<seq<AncestorInfo>>, clocks: seq<nat>, k: nat)
    requires IsRun(history, clocks) && k < |history|
    ensures |history[k]| == |history[0]|
  {
    if k > 0 {
      RunKeepsSize(history, clocks, k - 1);
      assert RespectsLocks(history[k - 1], history[k], clocks[k - 1]);
    }
  }

  /** Once an authority moved, its lock never falls below the one it then got. */
  lemma {:induction false} LockLasts(history: seq<seq<AncestorInfo>>, clocks: seq<nat>, i: nat, p: nat, q: nat)
    requires IsRun(history, clocks) && p < q < |history| && i < |history[0]|
    requires |history[p]| == |history[p + 1]| == |history[q]| == |history[0]| && Changed(history[p], history[p + 1], i)
    ensures history[q][i].lockUntilRound >= clocks[p] + STATE_LOCK_CLOCK_ROUNDS
  {
    if q == p + 1 {
      assert RespectsLocks(history[p], history[q], clocks[p]);
    } else {
      RunKeepsSize(history, clocks, q - 1);
      LockLasts(history, clocks, i, p, q - 1);
      assert RespectsLocks(history[q - 1], history[q], clocks[q - 1]);
    }
  }

  /** Two moves of one authority are more than the lock apart. */
  lemma MovesAreFarApart(history: seq<seq<AncestorInfo>>, clocks: seq<nat>, i: nat, p: nat, q: nat)
    requires IsRun(history, clocks) && p < q < |clocks| && i < |history[0]|
    requires |history[p]| == |history[p + 1]| == |history[q]| == |history[q + 1]| == |history[0]|
    requires Changed(history[p], history[p + 1], i) && Changed(history[q], history[q + 1], i)
    ensures clocks[q] > clocks[p] + 450
  {
    LockLasts(history, clocks, i, p, q);
    assert RespectsLocks(history[q], history[q + 1], clocks[q]);
  }

  /** Every run of updates, each with its own scores, quorum rounds and clock: at every
      point the excluded stake is within the cap. */
  method Run(m: AncestorStateManager, inputs: seq<Input>)
    returns (history: seq<seq<AncestorInfo>>, ghost clocks: seq<nat>)
    requires m.Valid() && forall x | x in inputs :: |x.scores| <= m.committee.Size() == |x.quorumRounds|
    modifies m
    ensures |history| == |inputs| + 1 && |clocks| == |inputs|
    ensures m.Valid() && IsRun(history, clocks) && history[0] == old(m.stateMap) && history[|inputs|] == m.stateMap
    ensures forall k | 0 <= k < |inputs| :: clocks[k] == inputs[k].clock
    ensures forall h | h in history ::
      |h| == m.committee.Size() && StakeOf(m.committee.stakes, Excluded(h)) <= m.excludedNodesStakeThreshold
    ensures forall k | 0 <= k < |inputs| ::
      IsUpdate(m.committee, m.excludedNodesStakeThreshold, inputs[k], history[k], history[k + 1])
  {
    hide Updated, Excluded, StakeOf, IsHighQuorumRound, RespectsLocks, IsUpdate;
    history, clocks := [m.stateMap], [];
    for k := 0 to |inputs|
      invariant m.Valid() && |history| == k + 1 && |clocks| == k && history[0] == old(m.stateMap)
        && history[k] == m.stateMap
      invariant forall j | 0 <= j < k :: RespectsLocks(history[j], history[j + 1], clocks[j])
      invariant forall j | 0 <= j < k :: clocks[j] == inputs[j].clock
      invariant forall h | h in history ::
        |h| == m.committee.Size() && StakeOf(m.committee.stakes, Excluded(h)) <= m.excludedNodesStakeThreshold
      invariant forall j | 0 <= j < k ::
        IsUpdate(m.committee, m.excludedNodesStakeThreshold, inputs[j], history[j], history[j + 1])
    {
      var x := inputs[k];
      ghost var before := m.stateMap;
      m.SetPropagationScores(x.scores);
      ghost var network := m.UpdateAllAncestorsState(x.quorumRounds, x.clock);
      UpdatedRespectsLocks(m.committee, m.excludedNodesStakeThreshold, x, network, before, m.stateMap);
      ByUpdate(m.committee, m.excludedNodesStakeThreshold, x, network, before, m.stateMap);
      history, clocks := history + [m.stateMap], clocks + [x.clock];
    }
  }

  // ---------- The cap and quorums ----------

  function Cap(badNodesStakeThreshold: nat, total: nat): nat {
    2 * badNodesStakeThreshold / 3 * total / 100
  }

  lemma CapAtMostFaults(percentage: nat, total: nat)
    requires percentage <= 33 && total >= 1
    ensures percentage * total / 100 <= (total - 1) / 3
  {
    assert (33 - percentage) * total >= 0;
  }

  /** The cap stays within the tolerated faults of every committee exactly for thresholds
      of at most 50 percent. */
  lemma CapIsSafeIff(bad: nat)
    ensures (forall total: nat | total >= 1 :: Cap(bad, total) <= (total - 1) / 3) <==> bad <= 50
  {
    var percentage := 2 * bad / 3;
    if bad <= 50 {
      forall total: nat | total >= 1 ensures Cap(bad, total) <= (total - 1) / 3 { CapAtMostFaults(percentage, total); }
    } else {
      assert Cap(bad, 3) >= 1;
    }
  }

  /** The included authorities always hold a quorum. */
  lemma IncludedHoldQuorum(c: Committee, bad: nat, m: seq<AncestorInfo>)
    requires WellSized(c) && bad <= 50 && |m| == c.Size()
    requires StakeOf(c.stakes, Excluded(m)) <= Cap(bad, c.totalStake)
    ensures IsQuorum(c, Everyone(c.Size()) - Excluded(m))
  {
    var f :| Tolerates(c, f);
    CapAtMostFaults(2 * bad / 3, c.totalStake);
    StakeOfComplement(c.stakes, Everyone(c.Size()) - Excluded(m), Excluded(m), c.Size());
  }
}
