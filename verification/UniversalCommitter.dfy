/** Deciding a range of leaders, pipelined over three committers per leader
    (consensus/core/src/universal_committer.rs), and what two validators that run it
    can say about each other's output. */
module UniversalCommitters {
  import opened Committees
  import opened Blocks
  import opened CommitRule
  import opened Safety
  import opened Agreement
  import opened BaseCommitters

  /** Slots are numbered round by round, leader by leader. */
  function Scheduled(elect: (nat, nat) -> nat, leaders: nat): nat -> Slot
    requires leaders >= 1
  {
    (i: nat) => Slot(i / leaders, elect(i / leaders, i % leaders))
  }

  lemma ScheduledInOrder(elect: (nat, nat) -> nat, leaders: nat)
    requires leaders >= 1
    ensures InRoundOrder(Scheduled(elect, leaders))
  {
    forall i: nat, j: nat | i <= j ensures i / leaders <= j / leaders { DivMonotone(i, j, leaders); }
  }

  lemma DivMonotone(i: nat, j: nat, d: nat)
    requires d >= 1 && i <= j
    ensures i / d <= j / d
  {
    DivBounds(i, d);
    DivBounds(j, d);
    MulKeepsOrder(d, i / d, j / d);
    if i / d > j / d { MulKeepsOrder(d, j / d + 1, i / d); }
  }

  lemma IndexOf(round: nat, offset: nat, d: nat)
    requires offset < d
    ensures (round * d + offset) / d == round && (round * d + offset) % d == offset
  {
    var i := round * d + offset;
    DivBounds(i, d);
    MulKeepsOrder(d, round, i / d);
    MulKeepsOrder(d, round + 1, i / d);
    MulKeepsOrder(d, i / d + 1, round);
  }

  /** With offsets 0, 1, 2 every round has exactly one leading pipeline stage. */
  lemma PipelineElects(options: Options, round: nat)
    requires options.waveLength == 3 && options.roundOffset < 3
    ensures options.Elects(round) <==> round % 3 == options.roundOffset
  {}

  function Position(leaders: nat, stage: nat, leader: nat): nat { stage * leaders + leader }

  /** Stage by stage, leader by leader. */
  ghost predicate HasStages(committers: seq<Options>, leaders: nat, stages: nat) {
    && |committers| == stages * leaders
    && forall stage: nat, leader: nat {:trigger Position(leaders, stage, leader)} | stage < stages
      && leader < leaders ::
         Position(leaders, stage, leader) < |committers|
         && committers[Position(leaders, stage, leader)] == Options(DEFAULT_WAVE_LENGTH, leader, stage)
  }

  ghost predicate IsPipeline(committers: seq<Options>, leaders: nat) {
    HasStages(committers, leaders, DEFAULT_WAVE_LENGTH)
  }

  /** One stage per round of a wave with pipelining, a single one without. */
  method Build(numberOfLeaders: nat, pipeline: bool) returns (committers: seq<Options>)
    ensures HasStages(committers, numberOfLeaders, if pipeline then DEFAULT_WAVE_LENGTH else 1)
  {
    committers := [];
    var stages := if pipeline then DEFAULT_WAVE_LENGTH else 1;
    for roundOffset := 0 to stages
      invariant HasStages(committers, numberOfLeaders, roundOffset)
    {
      committers := AddStage(committers, numberOfLeaders, roundOffset);
    }
  }

  method AddStage(before: seq<Options>, numberOfLeaders: nat, roundOffset: nat) returns (committers: seq<Options>)
    requires HasStages(before, numberOfLeaders, roundOffset)
    ensures HasStages(committers, numberOfLeaders, roundOffset + 1)
  {
    committers := before;
    for leaderOffset := 0 to numberOfLeaders
      invariant |committers| == |before| + leaderOffset && before <= committers
      invariant forall l | 0 <= l < leaderOffset ::
                  committers[|before| + l] == Options(DEFAULT_WAVE_LENGTH, l, roundOffset)
    {
      committers := committers + [Options(DEFAULT_WAVE_LENGTH, leaderOffset, roundOffset)];
    }
    forall stage: nat, leader: nat | stage < roundOffset + 1 && leader < numberOfLeaders
      ensures Position(numberOfLeaders, stage, leader) < |committers|
      ensures committers[Position(numberOfLeaders, stage, leader)] == Options(DEFAULT_WAVE_LENGTH, leader, stage)
    {
      if stage == roundOffset { assert Position(numberOfLeaders, stage, leader) == |before| + leader; }
    }
  }

  /** Committer j leads `round` exactly when it belongs to the round's stage. */
  lemma CommitterAt(committers: seq<Options>, leaders: nat, j: nat, round: nat)
    requires IsPipeline(committers, leaders) && j < |committers|
    ensures committers[j].waveLength == 3
    ensures committers[j].Elects(round) <==> 0 <= j - (round % 3) * leaders < leaders
    ensures committers[j].Elects(round) ==> committers[j].leaderOffset == j - (round % 3) * leaders
  {
    var stage, leader := j / leaders, j % leaders;
    DivBounds(j, leaders);
    MulKeepsOrder(leaders, 3, stage);
    assert j == Position(leaders, stage, leader);
    MulKeepsOrder(leaders, stage + 1, round % 3);
    MulKeepsOrder(leaders, round % 3 + 1, stage);
    PipelineElects(committers[j], round);
  }

  /** How far down the slots of `round` are covered once committers j and up are done. */
  ghost function Covered(leaders: nat, round: nat, j: nat): nat {
    var base := (round % 3) * leaders;
    round * leaders + if j <= base then 0 else if j >= base + leaders then leaders else j - base
  }

  /** The next committer covers one more slot if it leads the round, otherwise none. */
  lemma CoveredNext(committers: seq<Options>, leaders: nat, j: nat, round: nat)
    requires IsPipeline(committers, leaders) && j < |committers|
    ensures committers[j].waveLength == 3
    ensures var now, next := Covered(leaders, round, j + 1), Covered(leaders, round, j);
      var offset := committers[j].leaderOffset;
      if committers[j].Elects(round) then offset < leaders && now == next + 1 && next == round * leaders + offset
      else now == next
  {
    hide IsPipeline, Options.Elects;
    CommitterAt(committers, leaders, j, round);
  }

  datatype UniversalCommitter = UniversalCommitter(
    committee: Committee, dag: Dag, lastCommitRound: nat, gcDepth: nat, highestAcceptedRound: nat,
    leadersPerRound: Option<nat>, elect: (nat, nat) -> nat, committers: seq<Options>)
  {
    function Leaders(): nat { if leadersPerRound.Some? then leadersPerRound.value else 1 }

    function Committer(options: Options): BaseCommitter {
      BaseCommitter(committee, options, dag, lastCommitRound, gcDepth)
    }

    function GcRound(): nat { Gc(lastCommitRound, gcDepth) }

    function Sched(): nat -> Slot
      requires Leaders() >= 1
    {
      Scheduled(elect, Leaders())
    }

    /** Slot `offset` of a round is led by whoever is elected for that offset; unless more leaders
        are set, a round has one. */
    lemma SlotsOfRound(round: nat, offset: nat)
      requires offset < Leaders()
      ensures Sched()(round * Leaders() + offset) == Slot(round, elect(round, offset))
      ensures leadersPerRound == None ==> Sched()(round) == Slot(round, elect(round, 0))
    {
      IndexOf(round, offset, Leaders());
    }

    ghost function AsView(): View { View(dag, GcRound()) }

    /** The DAG is a view of a sound network, and some rounds before the last commit
        are still held. */
    ghost predicate Valid(n: Network) {
      && Sound(n) && n.c == committee && IsView(n, AsView())
      && gcDepth >= 1 && Leaders() >= 1 && IsPipeline(committers, Leaders())
    }

    function FirstRound(lastDecided: Slot): nat {
      if leadersPerRound == Some(1) then lastDecided.round + 1 else lastDecided.round
    }

    /** One past the last round that is looked at. */
    function EndRound(): nat { (if highestAcceptedRound >= 2 then highestAcceptedRound - 2 else 0) + 1 }

    /** One past the last slot that is looked at. */
    function End(): nat { EndRound() * Leaders() }

    /** Slots up to two rounds below the highest accepted round are looked at, no others but
        those of the genesis round. */
    lemma LooksAtIff(k: nat)
      requires Leaders() >= 1
      ensures k < End() <==> Sched()(k).round == GENESIS_ROUND || Sched()(k).round + 2 <= highestAcceptedRound
    {
      var top := EndRound();
      DivBounds(k, Leaders());
      MulKeepsOrder(Leaders(), k / Leaders() + 1, top);
      MulKeepsOrder(Leaders(), top, k / Leaders());
    }

    lemma ReadyFrom(n: Network, lo: nat)
      requires Valid(n) && lastCommitRound * Leaders() <= lo
      ensures Ready(dag, Sched(), lo)
    {
      ScheduledInOrder(elect, Leaders());
      IndexOf(lastCommitRound, 0, Leaders());
      forall k: nat | lo <= k ensures Walkable(dag, Sched()(k).round) {
        DivMonotone(lastCommitRound * Leaders(), k, Leaders());
      }
    }

    lemma CommitterCanDecide(n: Network, options: Options, slot: Slot)
      requires Valid(n) && options.waveLength == 3 && options.Elects(slot.round) && slot.round >= lastCommitRound
      ensures Committer(options).CanDecide(slot)
      ensures AtMostOneSupported(committee, dag, slot, slot.round + 2)
      ensures forall a | a in dag :: AtMostOneCertified(committee, dag, slot, slot.round + 2, a)
    {
      hide AtMostOneSupported, AtMostOneCertified;
      assert WellSized(committee);
      assert Walkable(dag, GcRound());
      if slot.round == 0 { NothingAtGenesis(n, slot); } else { LeadersAreUnique(n, AsView(), slot); }
    }

    lemma NothingAtGenesis(n: Network, slot: Slot)
      requires Valid(n) && slot.round == 0 && Walkable(dag, 0)
      ensures AtMostOneSupported(committee, dag, slot, slot.round + 2)
      ensures forall a | a in dag :: AtMostOneCertified(committee, dag, slot, slot.round + 2, a)
    {
      hide Supported, Reaches, Certifies;
    }

    /** Direct rule, then indirect rule, as `Decide` says. */
    method DecideSlot(options: Options, slot: Slot, leaders: seq<LeaderStatus>, ghost n: Network)
      returns (status: LeaderStatus)
      requires Valid(n) && options.waveLength == 3 && options.Elects(slot.round) && slot.round >= lastCommitRound
      requires Walkable(dag, slot.round) && CommitsIn(dag, leaders)
      ensures status == Decide(committee, dag, slot, leaders)
    {
      hide Valid, DirectDecision, IndirectDecision, AtMostOneSupported, AtMostOneCertified, Walkable;
      CommitterCanDecide(n, options, slot);
      status := Committer(options).TryDirectDecide(slot);
      if !status.IsDecided() {
        status := Committer(options).TryIndirectDecide(slot, leaders);
      }
    }

    ghost predicate IsStart(lastDecided: Slot, lo: nat)
      requires Leaders() >= 1
    {
      var first := FirstRound(lastDecided) * Leaders();
      && first <= lo <= End()
      && (lo == first || Sched()(lo - 1) == lastDecided)
      && (forall k: nat | lo <= k < End() :: Sched()(k) != lastDecided)
    }

    /** The slots that are looked at start at `lo`; there is at least one round of them. */
    ghost predicate LooksFrom(lastDecided: Slot, lo: nat)
      requires Leaders() >= 1
    {
      FirstRound(lastDecided) * Leaders() < End() && IsStart(lastDecided, lo)
    }

    /** `leaders` are the statuses of every slot from `lo` to the end. */
    ghost predicate AreStatuses(leaders: seq<LeaderStatus>, lo: nat)
      requires Leaders() >= 1
      ensures AreStatuses(leaders, lo) ==> CommitsIn(dag, leaders)
    {
      lo <= End() && Ready(dag, Sched(), lo) && leaders == Statuses(committee, dag, Sched(), lo, End())
    }

    /** One round: its leaders from the last committer to the first, each put in front
        of the statuses decided so far. Stops on reaching `lastDecided`. */
    method DecideRound(round: nat, lastDecided: Slot, later: seq<LeaderStatus>, ghost n: Network)
      returns (leaders: seq<LeaderStatus>, stop: bool, ghost next: nat)
      requires Valid(n) && lastCommitRound <= round && (round + 1) * Leaders() <= End()
      requires Ready(dag, Sched(), round * Leaders()) && AreStatuses(later, (round + 1) * Leaders())
      ensures round * Leaders() <= next <= (round + 1) * Leaders()
      ensures AreStatuses(leaders, next)
      ensures !stop ==> next == round * Leaders()
      ensures stop ==> next > 0 && Sched()(next - 1) == lastDecided
      ensures forall k: nat | next <= k < (round + 1) * Leaders() :: Sched()(k) != lastDecided
    {
      hide Ready, AreStatuses, Decide, Sound, IsView, Scheduled, CommitsIn, Walkable, IsPipeline, Covered,
        UniversalCommitter.End, Options.Elects;
      leaders, next := later, (round + 1) * Leaders();
      var j := |committers|;
      CoveredEnds(round);
      while j > 0
        invariant 0 <= j <= |committers|
        invariant next == Covered(Leaders(), round, j)
        invariant round * Leaders() <= next <= (round + 1) * Leaders()
        invariant AreStatuses(leaders, next)
        invariant forall k: nat | next <= k < (round + 1) * Leaders() :: Sched()(k) != lastDecided
      {
        j := j - 1;
        var options := committers[j];
        CoveredNext(committers, Leaders(), j, round);
        if options.Elects(round) {
          var slot := Slot(round, elect(round, options.leaderOffset));
          SlotsOfRound(round, options.leaderOffset);
          if slot == lastDecided { return leaders, true, next; }
          ReadyLater(round * Leaders(), next - 1);
          var status := DecideSlot(options, slot, leaders, n);
          StatusesStep(leaders, next - 1);
          leaders, next := [status] + leaders, next - 1;
        }
      }
      stop := false;
    }

    lemma CoveredEnds(round: nat)
      requires Leaders() >= 1 && IsPipeline(committers, Leaders())
      ensures Covered(Leaders(), round, |committers|) == (round + 1) * Leaders()
      ensures Covered(Leaders(), round, 0) == round * Leaders()
    {
      MulKeepsOrder(Leaders(), round % 3, 2);
    }

    lemma ReadyLater(lo: nat, next: nat)
      requires Leaders() >= 1 && Ready(dag, Sched(), lo) && lo <= next
      ensures Ready(dag, Sched(), next) && Walkable(dag, Sched()(next).round)
    {
      hide Walkable;
    }

    lemma NoStatuses(lo: nat)
      requires Leaders() >= 1 && lo <= End() && Ready(dag, Sched(), lo)
      ensures AreStatuses([], End())
    {
      ReadyLater(lo, End());
    }

    lemma StatusesStep(later: seq<LeaderStatus>, lo: nat)
      requires Leaders() >= 1 && lo < End() && Ready(dag, Sched(), lo) && AreStatuses(later, lo + 1)
      ensures AreStatuses([Decide(committee, dag, Sched()(lo), later)] + later, lo)
    {
      hide Decide, Walkable;
    }

    /** The statuses from the first slot after `lastDecided` on, if there is any. */
    method AllStatuses(lastDecided: Slot, ghost n: Network) returns (leaders: seq<LeaderStatus>, ghost lo: nat)
      requires Valid(n) && lastCommitRound <= lastDecided.round
      ensures End() <= FirstRound(lastDecided) * Leaders() ==> leaders == []
      ensures FirstRound(lastDecided) * Leaders() < End() ==>
        IsStart(lastDecided, lo) && AreStatuses(leaders, lo)
    {
      leaders := [];
      var lastRound, r := FirstRound(lastDecided), EndRound();
      lo := End();
      MulKeepsOrder(Leaders(), lastRound, r);
      MulKeepsOrder(Leaders(), r, lastRound);
      MulKeepsOrder(Leaders(), lastCommitRound, lastRound);
      hide Ready, Sound, IsView, IsPipeline, Scheduled, AreStatuses, Walkable, UniversalCommitter.End,
        UniversalCommitter.EndRound, UniversalCommitter.FirstRound;
      if r <= lastRound { return; }
      ReadyFrom(n, lastRound * Leaders());
      NoStatuses(lastRound * Leaders());
      while r > lastRound
        invariant lastRound <= r && lo == r * Leaders() && lastRound * Leaders() <= lo <= End()
        invariant AreStatuses(leaders, lo)
        invariant forall k: nat | lo <= k < End() :: Sched()(k) != lastDecided
      {
        r := r - 1;
        MulKeepsOrder(Leaders(), lastRound, r);
        ReadyLater(lastRound * Leaders(), r * Leaders());
        var stop;
        leaders, stop, lo := DecideRound(r, lastDecided, leaders, n);
        if stop { return; }
      }
    }

    ghost predicate Decides(lastDecided: Slot, decided: seq<LeaderStatus>, lo: nat)
      requires Leaders() >= 1
    {
      if End() <= FirstRound(lastDecided) * Leaders() then decided == []
      else
        && IsStart(lastDecided, lo) && Ready(dag, Sched(), AfterGenesis(lo)) && AfterGenesis(lo) <= End()
        && decided == TakeDecided(Statuses(committee, dag, Sched(), AfterGenesis(lo), End()))
    }

    /** Decides as far as the DAG allows: the longest decided run of leaders after
        `lastDecided`, leaving out genesis slots. */
    method TryDecide(lastDecided: Slot, ghost n: Network) returns (decided: seq<LeaderStatus>, ghost lo: nat)
      requires Valid(n) && lastCommitRound <= lastDecided.round
      ensures Decides(lastDecided, decided, lo)
    {
      hide Ready, Sound, IsView, Scheduled, Statuses, PastGenesis, TakeDecided;
      NothingPastGenesis();
      var leaders;
      leaders, lo := AllStatuses(lastDecided, n);
      if FirstRound(lastDecided) * Leaders() < End() {
        MulKeepsOrder(Leaders(), FirstRound(lastDecided), 0);
        DropGenesis(lo);
      }
      decided := LongestDecided(leaders);
    }

    /** Genesis slots come first, so leaving them out leaves the statuses of the rest. */
    lemma {:induction false} DropGenesis(lo: nat)
      requires Leaders() >= 1 && lo <= End() && Ready(dag, Sched(), lo)
      ensures Ready(dag, Sched(), AfterGenesis(lo)) && AfterGenesis(lo) <= End()
      ensures PastGenesis(Statuses(committee, dag, Sched(), lo, End()))
           == Statuses(committee, dag, Sched(), AfterGenesis(lo), End())
      decreases End() - lo
    {
      EndsPastGenesis();
      hide Decide, Walkable, CommitsIn, Scheduled, PastGenesis, UniversalCommitter.End;
      ReadyLater(lo, AfterGenesis(lo));
      if lo < End() {
        ReadyLater(lo, lo + 1);
        StatusesCons(committee, dag, Sched(), lo, End());
        hide Statuses, StatusAt, Ready;
        DropGenesis(lo + 1);
        GenesisIndex(lo);
        PastGenesisOf(StatusAt(committee, dag, Sched(), lo, End()), Statuses(committee, dag, Sched(), lo + 1, End()));
      } else {
        NothingPastGenesis();
      }
    }

    lemma EndsPastGenesis()
      ensures Leaders() <= End()
    {}

    lemma GenesisIndex(i: nat)
      requires Leaders() >= 1
      ensures Sched()(i).round == GENESIS_ROUND <==> i < Leaders()
    {
      DivBounds(i, Leaders());
      MulKeepsOrder(Leaders(), 1, i / Leaders());
    }

    function AfterGenesis(lo: nat): nat { if lo < Leaders() then Leaders() else lo }
  }

  function PastGenesis(s: seq<LeaderStatus>): seq<LeaderStatus> {
    if s == [] then []
    else (if s[0].Round() == GENESIS_ROUND then [] else [s[0]]) + PastGenesis(s[1..])
  }

  lemma NothingPastGenesis()
    ensures PastGenesis([]) == [] && TakeDecided(PastGenesis([])) == []
  {}

  lemma PastGenesisOf(first: LeaderStatus, later: seq<LeaderStatus>)
    ensures PastGenesis([first] + later)
         == if first.Round() == GENESIS_ROUND then PastGenesis(later) else [first] + PastGenesis(later)
  {
    assert ([first] + later)[1..] == later;
  }

  lemma PastGenesisCons(first: LeaderStatus, later: seq<LeaderStatus>)
    ensures TakeDecided(PastGenesis([first] + later))
         == if first.Round() == GENESIS_ROUND then TakeDecided(PastGenesis(later))
            else if first.IsDecided() then [first] + TakeDecided(PastGenesis(later)) else []
  {
    assert ([first] + later)[1..] == later;
    assert ([first] + PastGenesis(later))[1..] == PastGenesis(later);
    assert [] + PastGenesis(later) == PastGenesis(later);
  }

  /** The longest decided run, leaving out genesis slots. */
  method LongestDecided(leaders: seq<LeaderStatus>) returns (decided: seq<LeaderStatus>)
    ensures decided == TakeDecided(PastGenesis(leaders))
  {
    hide PastGenesis, TakeDecided;
    decided := [];
    var i := 0;
    assert leaders[0..] == leaders;
    NothingPastGenesis();
    while i < |leaders|
      invariant 0 <= i <= |leaders|
      invariant decided + TakeDecided(PastGenesis(leaders[i..])) == TakeDecided(PastGenesis(leaders))
    {
      var leader := leaders[i];
      assert leaders[i..] == [leader] + leaders[i + 1..];
      PastGenesisCons(leader, leaders[i + 1..]);
      if leader.Round() != GENESIS_ROUND {
        if !leader.IsDecided() { return; }
        ghost var rest := TakeDecided(PastGenesis(leaders[i + 1..]));
        assert decided + ([leader] + rest) == (decided + [leader]) + rest;
        decided := decided + [leader];
      }
      i := i + 1;
    }
    assert leaders[|leaders|..] == [];
  }

  // ---------- Two validators ----------

  /** Both look for leaders after the same slot, with the same schedule. */
  lemma SameStart(u: UniversalCommitter, u': UniversalCommitter, lastDecided: Slot, lo: nat, lo': nat)
    requires u.Leaders() >= 1 && u.leadersPerRound == u'.leadersPerRound && u.elect == u'.elect
    requires u.FirstRound(lastDecided) * u.Leaders() < u.End() && u'.FirstRound(lastDecided) * u.Leaders() < u'.End()
    requires u.IsStart(lastDecided, lo) && u'.IsStart(lastDecided, lo')
    ensures lo == lo'
  {
    StartNotBelow(u, u', lastDecided, lo, lo');
    StartNotBelow(u', u, lastDecided, lo', lo);
  }

  lemma StartNotBelow(u: UniversalCommitter, u': UniversalCommitter, lastDecided: Slot, lo: nat, lo': nat)
    requires u.Leaders() >= 1 && u.leadersPerRound == u'.leadersPerRound && u.elect == u'.elect
    requires u.FirstRound(lastDecided) * u.Leaders() < u.End() && u'.FirstRound(lastDecided) * u.Leaders() < u'.End()
    requires u.IsStart(lastDecided, lo) && u'.IsStart(lastDecided, lo')
    ensures lo >= lo'
  {
    hide Scheduled;
    if lo < lo' { BeforeEnd(u, lastDecided, lo' - 1); }
  }

  /** A slot of a round before `top` has its index before that of the first slot of `top`. */
  lemma IndexBefore(leaders: nat, top: nat, first: nat, k: nat)
    requires leaders >= 1 && first * leaders < top * leaders && k / leaders <= first
    ensures k < top * leaders
  {
    DivBounds(k, leaders);
    MulKeepsOrder(leaders, top, first);
    var round := k / leaders;
    MulKeepsOrder(leaders, round + 1, top);
    assert leaders * (round + 1) == leaders * round + leaders;
  }

  /** The last decided slot lies at or before the first round that is looked at. */
  lemma BeforeEnd(u: UniversalCommitter, lastDecided: Slot, k: nat)
    requires u.Leaders() >= 1 && u.FirstRound(lastDecided) * u.Leaders() < u.End() && u.Sched()(k) == lastDecided
    ensures k < u.End()
  {
    IndexBefore(u.Leaders(), u.EndRound(), u.FirstRound(lastDecided), k);
  }

  lemma StartIsCovered(u: UniversalCommitter, n: Network, lastDecided: Slot, lo: nat)
    requires u.Valid(n) && u.lastCommitRound <= lastDecided.round && u.FirstRound(lastDecided) * u.Leaders() <= lo
    ensures CoversFrom(n, u.AsView(), u.Sched(), u.AfterGenesis(lo))
  {
    var leaders, start := u.Leaders(), u.AfterGenesis(lo);
    ScheduledInOrder(u.elect, leaders);
    u.GenesisIndex(start);
    MulKeepsOrder(leaders, u.lastCommitRound, u.FirstRound(lastDecided));
    IndexOf(u.lastCommitRound, 0, leaders);
    DivMonotone(u.lastCommitRound * leaders, start, leaders);
  }

  lemma DecidedExtend(u: UniversalCommitter, u': UniversalCommitter, lastDecided: Slot, n: Network,
                      p: seq<LeaderStatus>, lo: nat, q: seq<LeaderStatus>, lo': nat)
    requires u.Valid(n) && u'.Valid(n) && u.leadersPerRound == u'.leadersPerRound && u.elect == u'.elect
    requires u.lastCommitRound <= lastDecided.round && u'.lastCommitRound <= lastDecided.round
    requires u.Decides(lastDecided, p, lo) && u'.Decides(lastDecided, q, lo')
    ensures p <= q || q <= p
  {
    hide Ready, Sound, IsView, Scheduled, Statuses, TakeDecided;
    if p != [] && q != [] {
      SameStart(u, u', lastDecided, lo, lo');
      StartIsCovered(u, n, lastDecided, lo);
      StartIsCovered(u', n, lastDecided, lo);
      DecidedSequencesAgree(n, u.AsView(), u.End(), u'.AsView(), u'.End(), u.Sched(), u.AfterGenesis(lo));
    }
  }

  /** Whatever two validators hold, and however far each has got, the leaders they
      decide after the same slot extend one another. */
  method DecisionsExtendEachOther(u: UniversalCommitter, u': UniversalCommitter, lastDecided: Slot, ghost n: Network)
    returns (p: seq<LeaderStatus>, q: seq<LeaderStatus>, ghost lo: nat, ghost lo': nat)
    requires u.Valid(n) && u'.Valid(n) && u.leadersPerRound == u'.leadersPerRound && u.elect == u'.elect
    requires u.lastCommitRound <= lastDecided.round && u'.lastCommitRound <= lastDecided.round
    ensures u.Decides(lastDecided, p, lo) && u'.Decides(lastDecided, q, lo') && (p <= q || q <= p)
    ensures CommittedBlocks(p) <= CommittedBlocks(q) || CommittedBlocks(q) <= CommittedBlocks(p)
  {
    hide Ready, Sound, IsView, Scheduled, Statuses, TakeDecided, CommittedBlocks;
    p, lo := u.TryDecide(lastDecided, n);
    q, lo' := u'.TryDecide(lastDecided, n);
    DecidedExtend(u, u', lastDecided, n, p, lo, q, lo');
    if p <= q { CommittedOfPrefix(p, q); } else { CommittedOfPrefix(q, p); }
  }
}
