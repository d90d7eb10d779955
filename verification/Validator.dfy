/** Sequences of commit attempts of one validator (consensus/core/src/core.rs): each asks the
    committer for leaders after the last decided slot, takes no more of them than there are
    commits left before the leader schedule changes, commits them and moves the last decided
    slot. Such sequences are the runs of `TotalOrders`. */
module Validators {
  import opened Committees
  import opened Blocks
  import opened CommitRule
  import opened Safety
  import opened Agreement
  import opened UniversalCommitters
  import opened Linearizers
  import opened Looks
  import opened TotalOrders

  /** Who leads a round, for each offset in it. */
  type Election = (nat, nat) -> nat

  /** What all validators share. The election changes after every `interval` commits: the new one
      depends on the number of commits and on the last `interval` sub-dags. */
  datatype Protocol = Protocol(n: Network, leadersPerRound: Option<nat>, interval: nat,
                               elect: (nat, seq<seq<BlockRef>>) -> Election, gcDepth: nat)
  {
    function Leaders(): nat { if leadersPerRound.Some? then leadersPerRound.value else 1 }

    ghost predicate IsFixed() { forall i, x, j, y :: elect(i, x) == elect(j, y) }

    /** Elections change only where the committer never looks at the last decided round again. */
    ghost predicate Valid()
      ensures Valid() ==> Leaders() >= 1 && interval >= 1
    {
      && Leaders() >= 1 && interval >= 1
      && (forall i, x :: DistinctSlots(Scheduled(elect(i, x), Leaders())))
      && (IsFixed() || leadersPerRound == Some(1))
    }

    /** The sub-dags before the last change. */
    function Epoch(done: seq<seq<BlockRef>>): seq<seq<BlockRef>>
      requires interval >= 1
    {
      done[..|done| - |done| % interval]
    }

    /** Commits left before the next change. */
    function Remaining(done: seq<seq<BlockRef>>): (left: nat)
      requires interval >= 1
      ensures left >= 1
    {
      interval - |done| % interval
    }

    /** The election in force from a change on, or from genesis. */
    function ElectAfter(epoch: seq<seq<BlockRef>>): Election {
      if |epoch| < interval then elect(0, []) else elect(|epoch|, epoch[|epoch| - interval..])
    }

    function Elected(done: seq<seq<BlockRef>>): Election
      requires interval >= 1
    {
      ElectAfter(Epoch(done))
    }

    function Sched(done: seq<seq<BlockRef>>): nat -> Slot
      requires Leaders() >= 1 && interval >= 1
    {
      Scheduled(Elected(done), Leaders())
    }

    ghost function InRuns(): Policy
      requires Leaders() >= 1 && interval >= 1
    {
      Policy(n, (done: seq<seq<BlockRef>>) => Sched(done), gcDepth)
    }

    ghost predicate IsCommitter(u: UniversalCommitter, done: seq<seq<BlockRef>>)
      requires interval >= 1
    {
      && u.Valid(n) && u.leadersPerRound == leadersPerRound && u.elect == Elected(done) && u.gcDepth == gcDepth
    }
  }

  /** The election after `k` changes depends on the sub-dags of the last interval before the last
      change; before the first it is that of genesis. */
  lemma ElectedAfter(p: Protocol, done: seq<seq<BlockRef>>, k: nat, j: nat)
    requires j < p.interval && |done| == k * p.interval + j
    ensures p.Remaining(done) == p.interval - j
    ensures k == 0 ==> p.Elected(done) == p.elect(0, [])
    ensures k > 0 ==>
      var change := k * p.interval;
      p.interval <= change <= |done| && p.Elected(done) == p.elect(change, done[change - p.interval..change])
  {
    IndexOf(k, j, p.interval);
    MulKeepsOrder(p.interval, 1, k);
    var epoch := p.Epoch(done);
    assert |epoch| == k * p.interval;
    if k > 0 { assert epoch[|epoch| - p.interval..] == done[|epoch| - p.interval..|epoch|]; }
  }

  lemma SameEpoch(n: nat, x: nat, interval: nat)
    requires interval >= 1 && n % interval + x < interval
    ensures (n + x) - (n + x) % interval == n - n % interval
  {
    DivBounds(n, interval);
    IndexOf(n / interval, n % interval + x, interval);
  }

  lemma EpochStays(p: Protocol, done: seq<seq<BlockRef>>, x: seq<seq<BlockRef>>)
    requires p.interval >= 1 && |x| < p.Remaining(done)
    ensures p.Epoch(done + x) == p.Epoch(done)
  {
    SameEpoch(|done|, |x|, p.interval);
    var k := |done| - |done| % p.interval;
    assert (done + x)[..k] == done[..k];
  }

  /** The schedule stays as it is for as many commits as are left. */
  lemma RemainingKeeps(p: Protocol, done: seq<seq<BlockRef>>, limit: nat)
    requires p.Leaders() >= 1 && p.interval >= 1 && limit <= p.Remaining(done)
    ensures p.InRuns().Keeps(done, limit)
  {
    hide Scheduled, Protocol.ElectAfter, Protocol.Epoch, Protocol.Remaining;
    forall x: seq<seq<BlockRef>> | |x| < limit ensures p.Epoch(done + x) == p.Epoch(done) { EpochStays(p, done, x); }
  }

  /** No round elects an authority twice. */
  ghost predicate ElectsOnce(elect: (nat, nat) -> nat, leaders: nat) {
    forall round: nat, i: nat, j: nat {:trigger elect(round, i), elect(round, j)} | i < j < leaders ::
      elect(round, i) != elect(round, j)
  }

  /** Slots are distinct if and only if no round elects an authority twice; with one leader
      per round they always are. */
  lemma SlotsAreDistinctIff(elect: (nat, nat) -> nat, leaders: nat)
    requires leaders >= 1
    ensures DistinctSlots(Scheduled(elect, leaders)) <==> ElectsOnce(elect, leaders)
    ensures leaders == 1 ==> DistinctSlots(Scheduled(elect, leaders))
  {
    var sched := Scheduled(elect, leaders);
    if DistinctSlots(sched) {
      forall round: nat, i: nat, j: nat | i < j < leaders ensures elect(round, i) != elect(round, j) {
        IndexOf(round, i, leaders);
        IndexOf(round, j, leaders);
        assert sched(round * leaders + i) != sched(round * leaders + j);
      }
    }
    if ElectsOnce(elect, leaders) {
      forall x: nat, y: nat | x < y ensures sched(x) != sched(y) {
        DivBounds(x, leaders);
        DivBounds(y, leaders);
        if x / leaders == y / leaders {
          assert elect(x / leaders, x % leaders) != elect(y / leaders, y % leaders);
        }
      }
    }
  }

  /** What a validator keeps between attempts. */
  datatype Validator = Validator(lastDecided: Slot, committed: set<BlockRef>, last: nat, done: seq<seq<BlockRef>>)

  /** One attempt: the committer with its DAG as it is then, the limit on decisions, all the
      decisions, the slot it looked from, and the sub-dags it output. */
  datatype Call = Call(u: UniversalCommitter, limit: nat, all: seq<LeaderStatus>, lo: nat, subDags: seq<seq<BlockRef>>)
  {
    function Taken(): seq<LeaderStatus> { UpTo(all, limit) }

    function AsLook(): Look { Look(u.dag, u.End(), limit) }
  }

  function SlotOfStatus(s: LeaderStatus): Slot {
    match s
    case Commit(block) => block.ref.SlotOf()
    case Skip(slot) => slot
    case Undecided(slot) => slot
  }

  function LastSlot(lastDecided: Slot, decided: seq<LeaderStatus>): Slot {
    if decided == [] then lastDecided else SlotOfStatus(decided[|decided| - 1])
  }

  /** `call` takes the validator from `v` to `v'`. */
  ghost predicate IsCall(p: Protocol, v: Validator, call: Call, v': Validator)
    requires p.Leaders() >= 1 && p.interval >= 1
  {
    var u, leaders := call.u, LeaderRefs(call.Taken());
    && p.IsCommitter(u, v.done) && p.InRuns().Keeps(v.done, call.limit)
    && u.lastCommitRound == v.last && u.Decides(v.lastDecided, call.all, call.lo)
    && Due(u.dag, p.gcDepth, v.last, leaders)
    && call.subDags == SubDags(u.dag, p.gcDepth, v.committed, v.last, leaders)
    && v'.lastDecided == LastSlot(v.lastDecided, call.Taken())
    && v'.committed == After(u.dag, p.gcDepth, v.committed, v.last, leaders)
    && v'.last == LastRound(v.last, leaders) && v'.done == v.done + call.subDags
  }

  ghost predicate AreCalls(p: Protocol, calls: seq<Call>, vs: seq<Validator>)
    requires p.Leaders() >= 1 && p.interval >= 1
    ensures AreCalls(p, calls, vs) ==> vs != []
  {
    |vs| == |calls| + 1 && forall i | 0 <= i < |calls| :: IsCall(p, vs[i], calls[i], vs[i + 1])
  }

  function Outputs(calls: seq<Call>): seq<seq<BlockRef>> {
    if calls == [] then [] else calls[0].subDags + Outputs(calls[1..])
  }

  // ---------- Where the next call starts ----------

  /** Slot `lo` comes right after the last decided one; at genesis it is the first slot. With one
      leader per round it is the slot of the next round, whoever led the last. */
  ghost predicate Follows(p: Protocol, v: Validator, lo: nat)
    requires p.Leaders() >= 1 && p.interval >= 1
  {
    if p.leadersPerRound == Some(1) then lo == v.lastDecided.round + 1
    else if v.lastDecided.round == GENESIS_ROUND then lo == p.Leaders()
    else lo > p.Leaders() && p.Sched(v.done)(lo - 1) == v.lastDecided
  }

  /** Once slot `lo - 1` is decided the committer looks on from `lo`, under whatever schedule it
      has now, if and only if rounds have one leader or the schedule still has that slot. */
  lemma LooksOnIff(u: UniversalCommitter, lastDecided: Slot, lo: nat, start: nat)
    requires u.Leaders() >= 1 && lastDecided.round >= 1 && lo >= 1 && (lo - 1) / u.Leaders() == lastDecided.round
    requires DistinctSlots(u.Sched()) && u.LooksFrom(lastDecided, start)
    ensures u.AfterGenesis(start) == lo <==> u.leadersPerRound == Some(1) || u.Sched()(lo - 1) == lastDecided
  {
    hide DistinctSlots, UniversalCommitter.End;
    SlotIndex(u, lo - 1);
    MulKeepsOrder(u.Leaders(), 1, u.FirstRound(lastDecided));
    if u.leadersPerRound == Some(1) {
      StartsNext(u, lastDecided, start);
    } else if u.Sched()(lo - 1) == lastDecided {
      if start == u.FirstRound(lastDecided) * u.Leaders() {
        StartsPast(u, lastDecided, lo - 1);
      } else {
        SameSlot(u.Sched(), start - 1, lo - 1);
      }
    }
  }

  lemma SameSlot(sched: nat -> Slot, i: nat, j: nat)
    requires DistinctSlots(sched) && sched(i) == sched(j)
    ensures i == j
  {}

  /** The committer finds the slot after the last decided one, wherever its search starts. */
  lemma NextStart(p: Protocol, u: UniversalCommitter, v: Validator, lo: nat, start: nat)
    requires p.Valid() && p.IsCommitter(u, v.done) && Follows(p, v, lo) && u.LooksFrom(v.lastDecided, start)
    ensures u.AfterGenesis(start) == lo
  {
    hide Sound, IsView, IsPipeline;
    if v.lastDecided.round >= 1 {
      LooksOnIff(u, v.lastDecided, lo, start);
    } else if p.leadersPerRound == Some(1) {
      StartsNext(u, v.lastDecided, start);
    } else if start != 0 {
      u.GenesisIndex(start - 1);
    }
  }

  /** The index of a slot lies in the block of indices of its round. */
  lemma SlotIndex(u: UniversalCommitter, i: nat)
    requires u.Leaders() >= 1
    ensures var round := u.Sched()(i).round; round * u.Leaders() <= i < (round + 1) * u.Leaders()
  {
    DivBounds(i, u.Leaders());
  }

  /** With one leader per round, the search starts in the round after the last decided one. */
  lemma StartsNext(u: UniversalCommitter, lastDecided: Slot, start: nat)
    requires u.leadersPerRound == Some(1) && u.LooksFrom(lastDecided, start)
    ensures start == lastDecided.round + 1
  {
    SlotIndex(u, start - 1);
  }

  /** If the search starts at the first slot of a round, the last decided slot is just before. */
  lemma StartsPast(u: UniversalCommitter, lastDecided: Slot, i: nat)
    requires u.Leaders() >= 1 && u.Sched()(i) == lastDecided
    requires u.LooksFrom(lastDecided, u.FirstRound(lastDecided) * u.Leaders())
    ensures u.FirstRound(lastDecided) * u.Leaders() == i + 1
  {
    SlotIndex(u, i);
    BeforeEnd(u, lastDecided, i);
  }

  // ---------- Calls are runs ----------

  /** A validator between attempts, with `lo` the next slot. */
  ghost predicate IsBetween(p: Protocol, v: Validator, lo: nat)
    requires p.Leaders() >= 1 && p.interval >= 1
  {
    Follows(p, v, lo) && v.last <= v.lastDecided.round
  }

  function InRun(v: Validator, lo: nat): Progress { Progress(lo, v.committed, v.last, v.done) }

  ghost function SettingAt(p: Protocol, v: Validator): Setting
    requires p.Leaders() >= 1 && p.interval >= 1
  {
    Setting(p.n, p.Sched(v.done), p.gcDepth)
  }

  lemma NothingTaken(p: Protocol, v: Validator, call: Call, v': Validator)
    requires p.Valid() && IsCall(p, v, call, v') && call.Taken() == []
    ensures v' == v && call.subDags == []
  {
    hide Sound, IsView, IsPipeline, CanWalk, Protocol.Valid;
  }

  /** The last decision of a look is the slot just before the next. */
  lemma LastTaken(e: Setting, look: Look, lo: nat)
    requires lo <= look.hi && Ready(look.dag, e.sched, lo) && Decided(e, look, lo) != []
    ensures var decided := Decided(e, look, lo); LastSlot(e.sched(lo), decided) == e.sched(lo + |decided| - 1)
  {
    hide Statuses, StatusAt, Walkable, TakeDecided;
    var s := Statuses(e.n.c, look.dag, e.sched, lo, look.hi);
    var i := |Decided(e, look, lo)| - 1;
    DecidedIsPrefix(s, i);
    StatusesAreStatusAt(e.n.c, look.dag, e.sched, lo, look.hi, i);
    assert IsFor(StatusAt(e.n.c, look.dag, e.sched, lo + i, look.hi), e.sched(lo + i));
  }

  /** A call that takes something is a look from the slot after the last decided one. */
  lemma TakingIsLook(p: Protocol, v: Validator, call: Call, v': Validator, lo: nat)
    requires p.Valid() && IsCall(p, v, call, v') && IsBetween(p, v, lo) && call.Taken() != []
    ensures CanTake(p.InRuns(), call.AsLook(), InRun(v, lo))
    ensures call.Taken() == Decided(SettingAt(p, v), call.AsLook(), lo)
    ensures Commits(SettingAt(p, v), call.AsLook(), InRun(v, lo)) == call.subDags
  {
    hide Sound, IsView, IsPipeline, Due, SubDags, After, Scheduled, CanLook, Decided, DistinctSlots, LeaderRefs,
      Policy.Keeps, CanTake;
    assert call.u.LooksFrom(v.lastDecided, call.lo);
    NextStart(p, call.u, v, lo, call.lo);
    CallIsLook(call.u, p.n, v.lastDecided, call.all, call.lo, call.limit);
    KeepingIsEnough(p.InRuns(), call.AsLook(), InRun(v, lo));
  }

  /** Where a look ends: its last slot, and the last round committed. */
  lemma LookEnds(p: Protocol, v: Validator, look: Look, lo: nat)
    requires p.Valid() && IsBetween(p, v, lo) && CanLook(SettingAt(p, v), look, lo, v.last)
    requires Decided(SettingAt(p, v), look, lo) != []
    ensures var decided := Decided(SettingAt(p, v), look, lo);
      var end := p.Sched(v.done)(lo + |decided| - 1);
      LastSlot(v.lastDecided, decided) == end && LastRound(v.last, LeaderRefs(decided)) <= end.round
  {
    hide CanLook, Decided, LeaderRefs, Ready, Follows, SlotOfStatus, Scheduled, Protocol.Valid, Protocol.Elected;
    var e := SettingAt(p, v);
    var decided := Decided(e, look, lo);
    var leaders := LeaderRefs(decided);
    LastTaken(e, look, lo);
    PastGenesisRound(p, v, lo, lo + |decided| - 1);
    assert decided[..|decided|] == decided;
    if leaders != [] { LeaderRounds(e, look, lo, |decided|, leaders[|leaders| - 1]); }
  }

  /** After as many decisions, the validator is between attempts again. */
  lemma EndIsBetween(p: Protocol, v: Validator, v': Validator, lo: nat, next: nat)
    requires p.Valid() && IsBetween(p, v, lo) && lo < next && v'.lastDecided == p.Sched(v.done)(next - 1)
    requires v'.last <= v'.lastDecided.round
    ensures IsBetween(p, v', next)
  {
    hide DistinctSlots;
    PastGenesisRound(p, v, lo, next - 1);
    if p.leadersPerRound == Some(1) {
      DivBounds(next - 1, 1);
    } else {
      assert p.Elected(v.done) == p.Elected(v'.done);
    }
  }

  /** The look ends where the call leaves the validator. */
  lemma TakingEnds(p: Protocol, v: Validator, call: Call, v': Validator, lo: nat)
    requires p.Valid() && IsCall(p, v, call, v') && CanLook(SettingAt(p, v), call.AsLook(), lo, v.last)
    requires call.Taken() == Decided(SettingAt(p, v), call.AsLook(), lo)
    ensures Next(SettingAt(p, v), call.AsLook(), InRun(v, lo)) == InRun(v', lo + |call.Taken()|)
  {
    hide UniversalCommitter.Valid, Due, SubDags, After, Scheduled, Decided, LeaderRefs, CanLook, Policy.Keeps,
      Protocol.Valid, UniversalCommitter.Decides, Protocol.Elected;
    LookIsDue(SettingAt(p, v), call.AsLook(), lo, v.last);
  }

  lemma LastRises(dag: Dag, depth: nat, last: nat, leaders: seq<BlockRef>)
    requires Due(dag, depth, last, leaders)
    ensures last <= LastRound(last, leaders)
  {
    if leaders != [] { assert leaders[|leaders| - 1] in leaders; }
  }

  lemma CallEnds(p: Protocol, v: Validator, call: Call, v': Validator)
    requires p.Valid() && IsCall(p, v, call, v')
    ensures v'.lastDecided == LastSlot(v.lastDecided, call.Taken())
    ensures v.last <= v'.last == LastRound(v.last, LeaderRefs(call.Taken()))
  {
    hide UniversalCommitter.Valid, Due, SubDags, After, Scheduled, LeaderRefs, Policy.Keeps, Protocol.Valid,
      UniversalCommitter.Decides;
    LastRises(call.u.dag, p.gcDepth, v.last, LeaderRefs(call.Taken()));
  }

  lemma TakingMovesOn(p: Protocol, v: Validator, call: Call, v': Validator, lo: nat)
    requires p.Valid() && IsCall(p, v, call, v') && IsBetween(p, v, lo) && call.Taken() != []
    ensures CanTake(p.InRuns(), call.AsLook(), InRun(v, lo))
    ensures Commits(SettingAt(p, v), call.AsLook(), InRun(v, lo)) == call.subDags
    ensures Taking(p.InRuns(), call.AsLook(), InRun(v, lo)) == InRun(v', lo + |call.Taken()|)
    ensures IsBetween(p, v', lo + |call.Taken()|)
  {
    hide IsCall, IsBetween, Decided, CanLook, Policy.Keeps, Commits, Next, Protocol.Valid, Protocol.Sched, LastSlot,
      LeaderRefs, LastRound;
    TakingIsLook(p, v, call, v', lo);
    TakingEnds(p, v, call, v', lo);
    CallEnds(p, v, call, v');
    LookEnds(p, v, call.AsLook(), lo);
    EndIsBetween(p, v, v', lo, lo + |call.Taken()|);
  }

  lemma PastGenesisRound(p: Protocol, v: Validator, lo: nat, i: nat)
    requires p.Leaders() >= 1 && p.interval >= 1 && Follows(p, v, lo) && lo <= i
    ensures p.Sched(v.done)(i).round != GENESIS_ROUND && v.lastDecided.round <= p.Sched(v.done)(i).round
  {
    ScheduledInOrder(p.Elected(v.done), p.Leaders());
    DivBounds(i, p.Leaders());
    if i / p.Leaders() < 1 { MulKeepsOrder(p.Leaders(), i / p.Leaders(), 0); }
  }

  /** Any sequence of calls, on whatever DAGs, is a run with the same output. */
  lemma {:induction false} CallsAreRun(p: Protocol, calls: seq<Call>, vs: seq<Validator>, lo: nat)
    returns (looks: seq<Look>)
    requires p.Valid() && AreCalls(p, calls, vs) && IsBetween(p, vs[0], lo)
    ensures IsRun(p.InRuns(), looks, InRun(vs[0], lo)) && Output(p.InRuns(), looks, InRun(vs[0], lo)) == Outputs(calls)
    decreases |calls|
  {
    hide IsCall, IsBetween, CanTake, Commits, Taking, Protocol.Valid, Policy.Keeps;
    if calls == [] {
      looks := [];
    } else {
      var call, v, v' := calls[0], vs[0], vs[1];
      RestAreCalls(p, calls, vs);
      if call.Taken() == [] {
        NothingTaken(p, v, call, v');
        looks := CallsAreRun(p, calls[1..], vs[1..], lo);
        assert Outputs(calls) == Outputs(calls[1..]);
      } else {
        TakingMovesOn(p, v, call, v', lo);
        var rest := CallsAreRun(p, calls[1..], vs[1..], lo + |call.Taken()|);
        looks := [call.AsLook()] + rest;
        assert looks[1..] == rest;
      }
    }
  }

  lemma RestAreCalls(p: Protocol, calls: seq<Call>, vs: seq<Validator>)
    requires p.Valid() && AreCalls(p, calls, vs) && calls != []
    ensures IsCall(p, vs[0], calls[0], vs[1]) && AreCalls(p, calls[1..], vs[1..]) && vs[1..][0] == vs[1]
  {
    hide IsCall;
  }

  /** Total order for calls: however often two validators call their committers, whatever they
      hold each time, and however what they commit changes the leader schedule, one output is a
      prefix of the other. */
  lemma CallsExtendEachOther(p: Protocol, lo: nat, calls: seq<Call>, vs: seq<Validator>, calls': seq<Call>,
                             vs': seq<Validator>)
    requires p.Valid() && AreCalls(p, calls, vs) && AreCalls(p, calls', vs') && vs[0] == vs'[0]
      && IsBetween(p, vs[0], lo)
    ensures Outputs(calls) <= Outputs(calls') || Outputs(calls') <= Outputs(calls)
  {
    hide AreCalls, IsBetween, IsRun, Output, Outputs;
    var x := CallsAreRun(p, calls, vs, lo);
    var y := CallsAreRun(p, calls', vs', lo);
    RunsExtendEachOther(p.InRuns(), x, y, InRun(vs[0], lo));
  }

  /** Integrity for calls: no block is output twice, nor one committed before. */
  lemma CallsCommitOnce(p: Protocol, lo: nat, calls: seq<Call>, vs: seq<Validator>)
    requires p.Valid() && AreCalls(p, calls, vs) && IsBetween(p, vs[0], lo) && IsOpen(p.InRuns(), InRun(vs[0], lo))
    ensures NoRepeats(Concat(Outputs(calls))) && Elements(Concat(Outputs(calls))) !! vs[0].committed
  {
    hide AreCalls, IsBetween, IsRun, Output, Outputs, IsOpen;
    var looks := CallsAreRun(p, calls, vs, lo);
    RunCommitsOnce(p.InRuns(), looks, InRun(vs[0], lo));
  }

  lemma OnePerRound(p: Protocol)
    requires p.Leaders() == 1 && p.interval >= 1
    ensures p.InRuns().HasOnePerRound()
  {}

  /** A new validator, whichever genesis block counts as decided, is where calls may start. */
  lemma GenesisIsBetween(p: Protocol, genesis: Slot)
    requires p.Valid() && genesis.round == GENESIS_ROUND
    ensures var v := Validator(genesis, {}, 0, []);
      IsBetween(p, v, p.Leaders()) && IsOpen(p.InRuns(), InRun(v, p.Leaders()))
  {
    hide DistinctSlots;
    if p.IsFixed() { assert p.InRuns().IsFixed(); } else { OnePerRound(p); }
  }

  // ---------- One more call ----------

  lemma OneMoreCall(p: Protocol, calls: seq<Call>, vs: seq<Validator>, call: Call, v: Validator)
    requires p.Valid() && AreCalls(p, calls, vs) && IsCall(p, vs[|vs| - 1], call, v)
    ensures AreCalls(p, calls + [call], vs + [v]) && Outputs(calls + [call]) == Outputs(calls) + call.subDags
  {
    hide IsCall;
    var calls', vs' := calls + [call], vs + [v];
    forall i | 0 <= i < |calls'| ensures IsCall(p, vs'[i], calls'[i], vs'[i + 1]) {
      if i < |calls| { assert vs'[i] == vs[i] && vs'[i + 1] == vs[i + 1] && calls'[i] == calls[i]; }
    }
    OutputsAppend(calls, call);
  }

  lemma {:induction false} OutputsAppend(calls: seq<Call>, call: Call)
    ensures Outputs(calls + [call]) == Outputs(calls) + call.subDags
  {
    if calls == [] {
      assert Outputs([call]) == call.subDags + Outputs([]);
    } else {
      assert (calls + [call])[1..] == calls[1..] + [call];
      OutputsAppend(calls[1..], call);
      AssociateOutputs(calls[0].subDags, Outputs(calls[1..]), call.subDags);
    }
  }

  /** No more sub-dags than the limit, and no decision past the last slot looked at. */
  lemma CallTakesFew(p: Protocol, v: Validator, call: Call, v': Validator, lo: nat)
    requires p.Valid() && IsCall(p, v, call, v') && IsBetween(p, v, lo)
    ensures |call.subDags| == |LeaderRefs(call.Taken())| <= call.limit
    ensures call.Taken() != [] ==> lo + |call.Taken()| <= call.u.End()
  {
    hide IsBetween, Decided, CanLook, Policy.Keeps, Commits, Ready, UniversalCommitter.Valid,
      UniversalCommitter.Decides, LeaderRefs, SubDags, After, Due, Protocol.Valid;
    OnePerLeader(call.u.dag, p.gcDepth, v.committed, v.last, LeaderRefs(call.Taken()));
    LeadersAtMost(call.Taken());
    if call.Taken() != [] {
      TakingIsLook(p, v, call, v', lo);
      DecidedRest(SettingAt(p, v), call.AsLook(), lo, |call.Taken()|);
    }
  }

  /** A call leaves the validator between attempts, with nothing committed that is still to be
      decided. */
  lemma StillBetween(p: Protocol, v: Validator, call: Call, v': Validator, lo: nat)
    requires p.Valid() && IsCall(p, v, call, v') && IsBetween(p, v, lo) && IsOpen(p.InRuns(), InRun(v, lo))
    ensures var next := lo + |call.Taken()|; IsBetween(p, v', next) && IsOpen(p.InRuns(), InRun(v', next))
    ensures v'.committed == v.committed + Elements(Concat(call.subDags))
  {
    hide IsCall, IsBetween, IsOpen, CanTake, Taking, Protocol.Valid, Commits;
    if call.Taken() == [] {
      NothingTaken(p, v, call, v');
      NoElements();
    } else {
      TakingMovesOn(p, v, call, v', lo);
      StaysOpen(p.InRuns(), call.AsLook(), InRun(v, lo));
    }
  }
}
