/** The commit loop of one validator (consensus/core/src/core.rs): it asks for decisions turn
    after turn, under a leader schedule that it renews after every `interval` commits. It may be
    restarted, and it may take commits that others have certified. */
module Cores {
  import opened Committees
  import opened Blocks
  import opened CommitRule
  import opened Safety
  import opened Agreement
  import opened UniversalCommitters
  import opened Liveness
  import opened Linearizers
  import opened Looks
  import opened TotalOrders
  import opened Recoveries
  import opened Validators

  /** The DAG as one attempt finds it. */
  datatype Local = Local(dag: Dag, highestAcceptedRound: nat, committers: seq<Options>)

  /** A run without restarts that stands for a validator: its looks and where it has got, with the
      slot after the last committed leader. */
  datatype Trail = Trail(looks: seq<Look>, run: Progress, base: nat)

  class Core {
    const p: Protocol
    const linearizer: Linearizer
    var lastDecided: Slot
    /** The leader of the last commit, as the store has it. */
    var lastLeader: Slot
    /** The election in force, and the sub-dags committed since it came into force. */
    var elect: Election
    var scored: seq<seq<BlockRef>>
    var commits: nat
    ghost var done: seq<seq<BlockRef>>
    ghost var lo: nat
    ghost var trail: Trail

    ghost function Here(): Validator
      reads this, linearizer
    {
      Validator(lastDecided, linearizer.committed, linearizer.lastCommitRound, done)
    }

    ghost predicate Valid()
      reads this, linearizer
    {
      && p.Valid() && linearizer.gcDepth == p.gcDepth && InForce(p, done, scored, commits, elect)
      && HasCome(p, trail, Here(), lo, lastLeader)
    }

    constructor (protocol: Protocol)
      requires protocol.Valid()
      ensures Valid() && fresh(linearizer) && p == protocol && done == []
    {
      StartsOut(protocol);
      p := protocol;
      linearizer := new Linearizer(map[], protocol.gcDepth);
      lastDecided, lastLeader := Slot(GENESIS_ROUND, 0), Slot(GENESIS_ROUND, 0);
      elect, scored, commits := protocol.elect(0, []), [], 0;
      done, lo, trail := [], protocol.Leaders(), Trail([], Genesis(protocol), protocol.Leaders());
    }

    function CommitterFor(local: Local): UniversalCommitter
      reads this, linearizer
    {
      UniversalCommitter(p.n.c, local.dag, linearizer.lastCommitRound, p.gcDepth, local.highestAcceptedRound,
        p.leadersPerRound, elect, local.committers)
    }

    /** Renews the election once as many sub-dags are committed as it is meant for, and says how
        many commits it is good for from here on. */
    method UpdateSchedule() returns (limit: nat)
      requires 1 <= p.interval && InForce(p, done, scored, commits, elect)
      modifies `elect, `scored
      ensures InForce(p, done, scored, commits, elect) && elect == p.Elected(done) && limit == p.Remaining(done)
      ensures limit == p.interval - |scored|
    {
      hide InForce, Protocol.Elected, Protocol.Remaining;
      ScoredAtMost(p, done, scored, commits, elect);
      if |scored| == p.interval {
        Renewed(p, done, scored, commits, elect);
        elect, scored := p.elect(commits, scored), [];
      }
      limit := p.interval - |scored|;
      ElectedNow(p, done, scored, commits, elect);
    }

    /** Counts what is committed towards the next election. */
    method AddScoringSubDags(subDags: seq<seq<BlockRef>>)
      requires 1 <= p.interval && InForce(p, done, scored, commits, elect) && |scored| + |subDags| <= p.interval
      modifies `scored, `commits, `done
      ensures InForce(p, done, scored, commits, elect) && done == old(done) + subDags
    {
      hide InForce;
      MoreScored(p, done, scored, commits, elect, subDags);
      scored, commits, done := scored + subDags, commits + |subDags|, done + subDags;
    }

    /** One turn: decides on the DAG as it is, commits no more than the election is good for, and
        counts what it commits towards the next one. */
    method Turn(local: Local) returns (decided: seq<LeaderStatus>, subDags: seq<seq<BlockRef>>, ghost call: Call)
      requires Valid() && CommitterFor(local).Valid(p.n)
      modifies this, linearizer
      ensures Valid() && IsCall(p, old(Here()), call, Here()) && call.subDags == subDags
      ensures call.u == old(CommitterFor(local)).(elect := p.Elected(old(done))) && call.u.dag == local.dag
      ensures call.u.highestAcceptedRound == local.highestAcceptedRound && call.u.committers == local.committers
      ensures call.limit == p.Remaining(old(done)) && decided == call.Taken()
      ensures decided <= call.all && |decided| == if |call.all| <= call.limit then |call.all| else call.limit
      ensures lo == old(lo) + |decided| && |subDags| == |LeaderRefs(decided)|
      ensures (decided != [] ==> lo <= CommitterFor(local).End()) && CommitterFor(local).Valid(p.n)
    {
      hide UniversalCommitter.Valid, Protocol.Valid, InForce, HasCome, Protocol.Elected, Protocol.Remaining, SubDags,
        After, Due, LeaderRefs, UpTo, Policy.Keeps, NoRepeats, Concat, FromSlot, DistinctSlots, Scheduled, IsCall,
        IsPairedWith, UniversalCommitter.Decides, LastSlot, LastRound, Committable, LeaderAfter;
      ghost var before := Here();
      var limit := UpdateSchedule();
      var u := CommitterFor(local);
      StillValid(old(CommitterFor(local)), u, p.n);
      linearizer.dag := local.dag;
      BetweenIsPaired(p, u, linearizer, trail, before, lo, lastLeader);
      ghost var all, start;
      decided, subDags, all, start := DecideAndCommit(u, linearizer, lastDecided, limit, p.n);
      call := Call(u, limit, all, start, subDags);
      lastDecided := LastSlot(lastDecided, decided);
      ghost var after := Validator(lastDecided, linearizer.committed, linearizer.lastCommitRound, done + subDags);
      TurnIsCall(p, before, call, after);
      trail := ComesOn(p, trail, before, lo, lastLeader, call, after);
      lastLeader := LeaderAfter(lastLeader, LeaderRefs(decided));
      StillValid(u, CommitterFor(local), p.n);
      AddScoringSubDags(subDags);
      lo := lo + |decided|;
    }

    /** Takes turns on the DAG as it is until one of them commits nothing. */
    method TryCommit(local: Local)
      returns (subDags: seq<seq<BlockRef>>, ghost calls: seq<Call>, ghost vs: seq<Validator>)
      requires Valid() && CommitterFor(local).Valid(p.n)
      modifies this, linearizer
      ensures Valid() && done == old(done) + subDags
      ensures AreCalls(p, calls, vs) && vs[0] == old(Here()) && vs[|calls|] == Here()
      ensures calls != [] && calls[|calls| - 1].subDags == []
      ensures var last := calls[|calls| - 1];
        forall i | 0 <= i < |last.all| && i < last.limit :: !last.all[i].Commit?
      ensures forall c | c in calls ::
        c.u.dag == local.dag && c.u.highestAcceptedRound == local.highestAcceptedRound && c.limit >= 1
    {
      hide UniversalCommitter.Valid, LeaderRefs, UpTo, HasCome, InForce, IsCall, AreCalls;
      subDags, calls, vs := [], [], [Here()];
      ghost var end := CommitterFor(local).End();
      NoCalls(p, Here());
      while true
        invariant Valid() && CommitterFor(local).Valid(p.n) && CommitterFor(local).End() == end
        invariant AreCalls(p, calls, vs) && |vs| == |calls| + 1 && vs[0] == old(Here()) && vs[|calls|] == Here()
        invariant done == old(done) + subDags
        invariant forall c | c in calls ::
          c.u.dag == local.dag && c.u.highestAcceptedRound == local.highestAcceptedRound && c.limit >= 1
        decreases if lo <= end then end - lo else 0
      {
        var decided, found, call := Turn(local);
        OneMoreCall(p, calls, vs, call, Here());
        calls, vs := calls + [call], vs + [Here()];
        CallAdds(p, vs[|vs| - 2], call, Here());
        LeadersAreCommits(decided);
        if LeaderRefs(decided) == [] { break; }
        LeadersAtMost(decided);
        AssociateOutputs(old(done), subDags, found);
        subDags := subDags + found;
      }
    }

    /** A restart: the last decided slot is that of the last commit, and what was skipped since is
        to be decided again. */
    method Recover()
      requires Valid()
      modifies `lastDecided, `lo
      ensures Valid() && lastDecided == lastLeader
    {
      hide HasCome, InForce, Protocol.Valid;
      ComesBack(p, trail, Here(), lo, lastLeader);
      lastDecided, lo := lastLeader, trail.base;
    }

    /** Takes the leader of a commit that others have certified, on whatever part of the network
        it holds: in some view of it, `w`, that leader is the next to be committed. What it outputs
        is what it would output on that view. */
    method CommitCertified(leader: BlockRef, dag: Dag, ghost w: Look) returns (subDags: seq<seq<BlockRef>>)
      requires Valid() && IsNextLeader(p, Here(), trail.base, leader, w)
      requires IsView(p.n, View(dag, linearizer.GcRound())) && leader in dag
      modifies this, linearizer
      ensures Valid() && lastDecided == lastLeader == leader.SlotOf() && done == old(done) + subDags
      ensures subDags == old(Commits(SettingAt(p, Here()), w, InRun(Here(), trail.base)))
    {
      hide HasCome, InForce, Protocol.Valid, IsNextLeader, Commits, SubDags, After, Committable, Protocol.Elected,
        Protocol.Remaining, NoRepeats, Concat, IsView, Due, CanLook, Next, Protocol.Sched, LastRound;
      ghost var before := Here();
      var limit := UpdateSchedule();
      linearizer.dag := dag;
      OpenHere(p, trail, before, lo, lastLeader);
      NextLeaderMayCommit(p, before, trail.base, leader, w, dag);
      NextLeaderOutputs(p, before, trail.base, leader, w, dag);
      subDags := linearizer.HandleCommit([leader]);
      ghost var after := Validator(leader.SlotOf(), linearizer.committed, linearizer.lastCommitRound, done + subDags);
      trail := ComesToLeader(p, trail, before, lo, lastLeader, leader, w, after);
      AddScoringSubDags(subDags);
      lastDecided, lastLeader, lo := leader.SlotOf(), leader.SlotOf(), trail.base;
    }
  }

  /** Total order: what any two validators have output by now extends one another, however often
      they tried, were restarted or took certified commits. */
  lemma CoresExtendEachOther(a: Core, b: Core)
    requires a.Valid() && b.Valid() && a.p == b.p
    ensures a.done <= b.done || b.done <= a.done
  {
    hide StandsOn, InForce, Concat, Protocol.Valid, IsBetween;
    var t, t' := a.trail, b.trail;
    StandingsExtendEachOther(a.p.InRuns(), Genesis(a.p), t.looks, t.run, InRun(a.Here(), a.lo), t.base,
      t'.looks, t'.run, InRun(b.Here(), b.lo), t'.base);
  }

  /** Integrity: a validator has output each block once, and those are the blocks it has committed. */
  lemma CoreCommitsOnce(a: Core)
    requires a.Valid()
    ensures NoRepeats(Concat(a.done)) && a.linearizer.committed == Elements(Concat(a.done))
  {
    hide InForce, Concat, Protocol.Valid, IsBetween, IsRun, End, Output, Skipped, IsOpen;
    GenesisIsBetween(a.p, Slot(GENESIS_ROUND, 0));
    RunCommitsOnce(a.p.InRuns(), a.trail.looks, Genesis(a.p));
    assert [] + Output(a.p.InRuns(), a.trail.looks, Genesis(a.p)) == Output(a.p.InRuns(), a.trail.looks, Genesis(a.p));
  }

  // ---------- Progress ----------

  /** Every slot from the next one on comes after the last decided one. */
  lemma NextSlotsComeAfter(p: Protocol, u: UniversalCommitter, v: Validator, lo: nat, k: nat)
    requires p.Valid() && p.IsCommitter(u, v.done) && IsBetween(p, v, lo) && lo <= k
    ensures ComesAfter(u, v.lastDecided, k)
  {
    hide UniversalCommitter.Valid;
    assert u.Sched() == p.Sched(v.done) && DistinctSlots(u.Sched());
    forall j: nat | lo <= j ensures p.Sched(v.done)(j).round >= 1 && v.lastDecided.round <= p.Sched(v.done)(j).round {
      PastGenesisRound(p, v, lo, j);
    }
    forall j: nat | k <= j ensures u.Sched()(j) != v.lastDecided {
      if p.leadersPerRound == Some(1) {
        DivBounds(j, 1);
      } else if v.lastDecided.round != GENESIS_ROUND {
        assert u.Sched()(lo - 1) != u.Sched()(j);
      }
    }
    if p.leadersPerRound == Some(1) { DivBounds(k, 1); }
  }

  /** Progress: if the blocks held show what comes of every slot from the next one up to slot `k`,
      two rounds below the highest, a call takes all those decisions, as far as its limit goes. */
  lemma CallTakesWhatIsShown(p: Protocol, v: Validator, call: Call, v': Validator, lo: nat, k: nat,
                             shown: nat -> LeaderStatus)
    requires p.Valid() && IsCall(p, v, call, v') && IsBetween(p, v, lo) && lo <= k
    requires p.Sched(v.done)(k).round + 2 <= call.u.highestAcceptedRound
    requires forall j: nat | lo <= j <= k :: Shows(p.n, call.u.AsView(), p.Sched(v.done)(j), shown(j))
    ensures forall j: nat | lo <= j <= k && j - lo < call.limit ::
      j - lo < |call.Taken()| && call.Taken()[j - lo] == shown(j)
  {
    hide Shows, Due, SubDags, After, LeaderRefs, Policy.Keeps, Scheduled, Sound, IsView, IsPipeline, ComesAfter;
    var u := call.u;
    NextSlotsComeAfter(p, u, v, lo, k);
    LooksAtEverySlot(u, p.n, v.lastDecided, call.all, call.lo, k);
    NextStart(p, u, v, lo, call.lo);
    DecidesWhatIsShown(u, p.n, v.lastDecided, call.all, call.lo, k, shown);
  }

  // ---------- How far a validator has come ----------

  ghost function Genesis(p: Protocol): Progress { Progress(p.Leaders(), {}, 0, []) }

  ghost predicate HasCome(p: Protocol, t: Trail, v: Validator, lo: nat, lastLeader: Slot)
    requires p.Valid()
  {
    && StandsOn(p.InRuns(), Genesis(p), t.looks, t.run, InRun(v, lo), t.base)
    && IsBetween(p, v, lo) && IsBetween(p, v.(lastDecided := lastLeader), t.base)
    && v.committed == Elements(Concat(v.done))
  }

  function LeaderAfter(lastLeader: Slot, leaders: seq<BlockRef>): Slot {
    if leaders == [] then lastLeader else leaders[|leaders| - 1].SlotOf()
  }

  lemma StartsOut(p: Protocol)
    requires p.Valid()
    ensures var genesis := Slot(GENESIS_ROUND, 0);
      HasCome(p, Trail([], Genesis(p), p.Leaders()), Validator(genesis, {}, 0, []), p.Leaders(), genesis)
  {
    hide Protocol.Valid, IsBetween, IsOpen, CanTake, Policy.At;
    GenesisIsBetween(p, Slot(GENESIS_ROUND, 0));
    NoElements();
    NoOutput(p.InRuns(), Genesis(p));
  }

  /** Nothing committed is still to be decided. */
  lemma OpenHere(p: Protocol, t: Trail, v: Validator, lo: nat, lastLeader: Slot)
    requires p.Valid() && HasCome(p, t, v, lo, lastLeader)
    ensures IsOpen(p.InRuns(), InRun(v, lo)) && IsOpen(p.InRuns(), InRun(v, t.base))
    ensures IsBehind(p.InRuns(), InRun(v, t.base), t.run)
  {
    hide Protocol.Valid, IsBetween, IsOpen, IsRun, End, Output, Skipped, Concat;
    assert t.run.(lo := t.base) == InRun(v, t.base);
    OpenLater(p.InRuns(), InRun(v, t.base), InRun(v, lo));
  }

  /** A turn is a call with the limit that the schedule sets. */
  lemma TurnIsCall(p: Protocol, v: Validator, call: Call, v': Validator)
    requires p.Valid() && p.IsCommitter(call.u, v.done) && call.limit == p.Remaining(v.done)
    requires call.u.lastCommitRound == v.last && call.u.Decides(v.lastDecided, call.all, call.lo)
    requires var leaders := LeaderRefs(call.Taken());
      && Due(call.u.dag, p.gcDepth, v.last, leaders)
      && call.subDags == SubDags(call.u.dag, p.gcDepth, v.committed, v.last, leaders)
      && v' == Validator(LastSlot(v.lastDecided, call.Taken()),
        After(call.u.dag, p.gcDepth, v.committed, v.last, leaders), LastRound(v.last, leaders), v.done + call.subDags)
    ensures IsCall(p, v, call, v')
  {
    hide UniversalCommitter.Valid, Protocol.Valid, Protocol.Elected, Protocol.Remaining, SubDags, After, Due,
      LeaderRefs, UpTo, Policy.Keeps, UniversalCommitter.Decides, LastSlot, LastRound;
    RemainingKeeps(p, v.done, call.limit);
  }

  lemma CallAdds(p: Protocol, v: Validator, call: Call, v': Validator)
    requires p.Valid() && IsCall(p, v, call, v')
    ensures v'.done == v.done + call.subDags
  {
    hide UniversalCommitter.Valid, Protocol.Valid, SubDags, After, Due, LeaderRefs, Policy.Keeps,
      UniversalCommitter.Decides;
  }

  lemma NoCalls(p: Protocol, v: Validator)
    requires p.Valid()
    ensures AreCalls(p, [], [v])
  {
    hide Protocol.Valid, IsCall;
  }

  /** A call takes the validator on. */
  lemma ComesOn(p: Protocol, t: Trail, v: Validator, lo: nat, lastLeader: Slot, call: Call, v': Validator)
    returns (t': Trail)
    requires p.Valid() && HasCome(p, t, v, lo, lastLeader) && IsCall(p, v, call, v')
    ensures HasCome(p, t', v', lo + |call.Taken()|, LeaderAfter(lastLeader, LeaderRefs(call.Taken())))
    ensures |call.subDags| <= call.limit && (call.Taken() != [] ==> lo + |call.Taken()| <= call.u.End())
    ensures v.last <= v'.last && |call.subDags| == |LeaderRefs(call.Taken())|
  {
    hide Protocol.Valid, IsBetween, IsOpen, IsCall, StandsOn, Concat, LeaderRefs, CanTake, Taking, Commits, UpTo,
      LastRound;
    OpenHere(p, t, v, lo, lastLeader);
    StillBetween(p, v, call, v', lo);
    CallTakesFew(p, v, call, v', lo);
    CallEnds(p, v, call, v');
    CallAdds(p, v, call, v');
    ConcatAppend(v.done, call.subDags);
    LeadersAtMost(call.Taken());
    if LeaderRefs(call.Taken()) == [] { NothingCommitted(p, v, call, v'); }
    if call.Taken() == [] {
      NothingTaken(p, v, call, v');
      t' := t;
    } else {
      t' := StandsAfter(p, t, v, lo, call, v');
    }
  }

  /** Without a leader only the last decided slot moves. */
  lemma NothingCommitted(p: Protocol, v: Validator, call: Call, v': Validator)
    requires p.Valid() && IsCall(p, v, call, v') && LeaderRefs(call.Taken()) == []
    ensures v' == v.(lastDecided := v'.lastDecided)
  {
    hide Protocol.Valid, UniversalCommitter.Valid, UniversalCommitter.Decides, Due, LeaderRefs, Policy.Keeps;
    assert v.done + [] == v.done;
  }

  lemma StandsAfter(p: Protocol, t: Trail, v: Validator, lo: nat, call: Call, v': Validator) returns (t': Trail)
    requires p.Valid() && IsCall(p, v, call, v') && IsBetween(p, v, lo) && call.Taken() != []
    requires StandsOn(p.InRuns(), Genesis(p), t.looks, t.run, InRun(v, lo), t.base)
    ensures StandsOn(p.InRuns(), Genesis(p), t'.looks, t'.run, InRun(v', lo + |call.Taken()|), t'.base)
    ensures var leaders := LeaderRefs(call.Taken());
      if leaders == [] then t'.base == t.base
      else IsBetween(p, v'.(lastDecided := leaders[|leaders| - 1].SlotOf()), t'.base)
  {
    hide Protocol.Valid, IsBetween, IsCall, StandsOn, LeaderRefs, CanTake, Taking, Commits, UpTo, Decided, CanLook,
      AtLeader, LastRound, Protocol.Sched;
    TakingMovesOn(p, v, call, v', lo);
    TakingIsLook(p, v, call, v', lo);
    CallEnds(p, v, call, v');
    var looks, run, base := StandsFurther(p.InRuns(), Genesis(p), t.looks, t.run, InRun(v, lo), t.base, call.AsLook());
    t' := Trail(looks, run, base);
    LeaderIsBetween(p, v, call.AsLook(), lo, v');
  }

  /** After the last leader of a look the validator may be restarted. */
  lemma LeaderIsBetween(p: Protocol, v: Validator, look: Look, lo: nat, v': Validator)
    requires p.Valid() && IsBetween(p, v, lo) && CanLook(SettingAt(p, v), look, lo, v.last)
    requires v'.last == LastRound(v.last, LeaderRefs(Decided(SettingAt(p, v), look, lo)))
    ensures var leaders := LeaderRefs(Decided(SettingAt(p, v), look, lo));
      leaders != [] ==> IsBetween(p, v'.(lastDecided := LeaderAfter(v.lastDecided, leaders)),
        AtLeader(SettingAt(p, v), look, InRun(v, lo)).lo)
  {
    hide Protocol.Valid, IsBetween, CanLook, Decided, LeaderRefs, AtLeader, Ready;
    var e := SettingAt(p, v);
    var leaders := LeaderRefs(Decided(e, look, lo));
    if leaders != [] {
      LeaderSlot(e, look, InRun(v, lo));
      EndIsBetween(p, v, v'.(lastDecided := LeaderAfter(v.lastDecided, leaders)), lo,
        AtLeader(e, look, InRun(v, lo)).lo);
    }
  }

  /** A restart takes the validator back to the slot after the last leader. */
  lemma ComesBack(p: Protocol, t: Trail, v: Validator, lo: nat, lastLeader: Slot)
    requires p.Valid() && HasCome(p, t, v, lo, lastLeader)
    ensures HasCome(p, t, v.(lastDecided := lastLeader), t.base, lastLeader)
  {
    hide Protocol.Valid, IsBetween, StandsOn, Concat;
    StandsAgain(p.InRuns(), Genesis(p), t.looks, t.run, InRun(v, lo), t.base);
  }

  // ---------- Certified commits ----------

  /** In a view of the network `leader` is the next to be committed from slot `base` on. */
  ghost predicate IsNextLeader(p: Protocol, v: Validator, base: nat, leader: BlockRef, w: Look)
    requires p.Valid()
    ensures IsNextLeader(p, v, base, leader, w) ==> CanLook(SettingAt(p, v), w, base, v.last)
  {
    LeadsTo(SettingAt(p, v), w, base, v.last, leader)
  }

  /** What one validator has output and another has not: its next sub-dag is that of the next leader
      in a view of the network, so the other may take it. */
  lemma OthersLead(a: Core, b: Core) returns (leader: BlockRef, w: Look)
    requires a.Valid() && b.Valid() && a.p == b.p && |a.done| < |b.done|
    ensures IsNextLeader(a.p, a.Here(), a.trail.base, leader, w)
    ensures Commits(SettingAt(a.p, a.Here()), w, InRun(a.Here(), a.trail.base)) == [b.done[|a.done|]]
  {
    hide InForce, Concat, Protocol.Valid, IsBetween, IsRun, End, Output, Skipped, IsOpen, LeadsTo, Commits,
      Protocol.Sched;
    var q, start, t := a.p.InRuns(), Genesis(a.p), a.trail;
    OpenHere(a.p, t, a.Here(), a.lo, a.lastLeader);
    var rest := RunGoesOn(q, t.looks, b.trail.looks, start);
    w, leader := NextOutput(q, rest, t.run, t.base);
  }

  /** Up to the first leader the schedule cannot change. */
  lemma NextLeaderCanBeTaken(p: Protocol, v: Validator, base: nat, leader: BlockRef, w: Look)
    requires p.Valid() && IsNextLeader(p, v, base, leader, w)
    ensures CanTake(p.InRuns(), w, InRun(v, base))
  {
    hide Protocol.Valid, CanLook, Decided, LeaderRefs, Ready, Protocol.Sched, UpToLeader;
    var e, s := SettingAt(p, v), InRun(v, base);
    var d := Decided(e, w, base);
    UpToLeaderEndsThere(d);
    forall k: nat | k < |d| ensures FirstCommits(e, w, s, k) == [] { NothingBeforeLeader(e, w, s, k); }
    assert v.done + [] == v.done;
  }

  lemma NothingBeforeLeader(e: Setting, w: Look, s: Progress, k: nat)
    requires CanLook(e, w, s.lo, s.last) && k < |Decided(e, w, s.lo)|
    requires |LeaderRefs(Decided(e, w, s.lo))| == 1 && UpToLeader(Decided(e, w, s.lo)) == |Decided(e, w, s.lo)|
    ensures FirstCommits(e, w, s, k) == []
  {
    hide CanLook, Decided, LeaderRefs, Ready, UpToLeader, Due;
    var d := Decided(e, w, s.lo);
    var last := |d| - 1;
    UpToLeaderEndsThere(d);
    NoLeadersInPart(d, k);
    NoLeadersInPart(d[k..], last - k);
    assert d[k..][last - k..] == [d[last]];
    OneLeader(d[last]);
    FirstPartIsDue(e, w, s.lo, s.last, k);
  }

  lemma OneLeader(status: LeaderStatus)
    requires status.Commit?
    ensures LeaderRefs([status]) == [status.block.ref]
  {}

  lemma NextLeaderIsNew(p: Protocol, v: Validator, base: nat, leader: BlockRef, w: Look)
    requires p.Valid() && IsNextLeader(p, v, base, leader, w) && IsOpen(p.InRuns(), InRun(v, base))
    ensures Due(w.dag, p.gcDepth, v.last, [leader]) && leader !in v.committed && leader.round >= 1
  {
    hide Protocol.Valid, Decided, LeaderRefs, Protocol.Sched, Ready, IsOpen, IsPoint, UpToLeader, Due, InSlots;
    var e, s := SettingAt(p, v), InRun(v, base);
    LookIsDue(e, w, base, v.last);
    OpenIsPoint(p.InRuns(), s);
    LeadersAreNew(e, w, s);
    var d := Decided(e, w, base);
    assert d[..|d|] == d && leader in [leader];
    LeaderRounds(e, w, base, |d|, leader);
  }

  lemma WalkableAndSettled(p: Protocol, v: Validator, base: nat, dag: Dag)
    requires p.Valid() && Sound(p.n) && IsOpen(p.InRuns(), InRun(v, base))
    requires IsView(p.n, View(dag, Gc(v.last, p.gcDepth)))
    ensures var gc := Gc(v.last, p.gcDepth); CanWalk(dag, gc) && Settled(dag, gc, v.committed, {})
  {
    var view := View(dag, Gc(v.last, p.gcDepth));
    OpenIsPoint(p.InRuns(), InRun(v, base));
    hide Protocol.Valid, Protocol.Sched, IsOpen, CanWalk, Settled, SettledIn, Sound, IsView, FromSlot;
    NetworkCanWalk(p.n, view);
    SettledInView(p.n, view, v.committed);
  }

  /** The linearizer may commit it on any part of the network that holds it. */
  lemma NextLeaderMayCommit(p: Protocol, v: Validator, base: nat, leader: BlockRef, w: Look, dag: Dag)
    requires p.Valid() && IsNextLeader(p, v, base, leader, w) && IsOpen(p.InRuns(), InRun(v, base))
    requires IsView(p.n, View(dag, Gc(v.last, p.gcDepth))) && leader in dag
    ensures Committable(dag, p.gcDepth, v.committed, v.last, [leader])
  {
    hide Protocol.Valid, Decided, LeaderRefs, Protocol.Sched, Ready, IsOpen, UpToLeader, DistinctSlots, CanWalk,
      Settled, Sound, IsView;
    NextLeaderIsNew(p, v, base, leader, w);
    WalkableAndSettled(p, v, base, dag);
    assert leader in [leader];
  }

  /** What it outputs does not depend on that part. */
  lemma NextLeaderOutputs(p: Protocol, v: Validator, base: nat, leader: BlockRef, w: Look, dag: Dag)
    requires p.Valid() && IsNextLeader(p, v, base, leader, w)
    requires IsView(p.n, View(dag, Gc(v.last, p.gcDepth))) && Due(dag, p.gcDepth, v.last, [leader])
    ensures SubDags(dag, p.gcDepth, v.committed, v.last, [leader]) == Commits(SettingAt(p, v), w, InRun(v, base))
    ensures After(dag, p.gcDepth, v.committed, v.last, [leader]) == Next(SettingAt(p, v), w, InRun(v, base)).committed
  {
    hide Protocol.Valid, Decided, LeaderRefs, Protocol.Sched, Ready, UpToLeader, DistinctSlots, SubDags, After, Due,
      IsView;
    var e, gc := SettingAt(p, v), Gc(v.last, p.gcDepth);
    LookIsDue(e, w, base, v.last);
    ViewsAgree(p.n, View(dag, gc), View(w.dag, gc));
    SameCommits(dag, w.dag, p.gcDepth, v.committed, v.last, [leader]);
  }

  /** A certified commit takes the validator to its leader. */
  lemma ComesToLeader(p: Protocol, t: Trail, v: Validator, lo: nat, lastLeader: Slot, leader: BlockRef, w: Look,
                      v': Validator)
    returns (t': Trail)
    requires p.Valid() && HasCome(p, t, v, lo, lastLeader) && IsNextLeader(p, v, t.base, leader, w)
    requires var e, s := SettingAt(p, v), InRun(v, t.base);
      v' == Validator(leader.SlotOf(), Next(e, w, s).committed, LastRound(v.last, [leader]), v.done + Commits(e, w, s))
    ensures HasCome(p, t', v', t'.base, leader.SlotOf())
    ensures |Commits(SettingAt(p, v), w, InRun(v, t.base))| == 1
  {
    hide Protocol.Valid, IsBetween, StandsOn, Concat, CanTake, Decided, LeaderRefs, CanLook, Ready, IsOpen, UpToLeader,
      Protocol.Sched, NoRepeats;
    var q, e, s := p.InRuns(), SettingAt(p, v), InRun(v, t.base);
    OpenHere(p, t, v, lo, lastLeader);
    NextLeaderCanBeTaken(p, v, t.base, leader, w);
    StandsAgain(q, Genesis(p), t.looks, t.run, InRun(v, lo), t.base);
    var looks, run, base := StandsFurther(q, Genesis(p), t.looks, t.run, s, t.base, w);
    t' := Trail(looks, run, base);
    LeaderIsBetween(p, v.(lastDecided := lastLeader), w, t.base, v');
    StaysOpen(q, w, s);
    ConcatAppend(v.done, Commits(e, w, s));
    LookIsDue(e, w, t.base, v.last);
    OnePerLeader(w.dag, p.gcDepth, v.committed, v.last, [leader]);
    PartwayLo(e, w, s, |Decided(e, w, t.base)|);
  }

  /** The same DAG will do for any election and once more is committed. */
  lemma StillValid(u: UniversalCommitter, v: UniversalCommitter, n: Network)
    requires u.Valid(n) && u.lastCommitRound <= v.lastCommitRound
    requires v == u.(elect := v.elect, lastCommitRound := v.lastCommitRound)
    ensures v.Valid(n)
  {
    hide Sound, IsPipeline;
  }

  /** The linearizer may commit what the committer decides next. */
  lemma BetweenIsPaired(p: Protocol, u: UniversalCommitter, a: Linearizer, t: Trail, v: Validator, lo: nat,
                        lastLeader: Slot)
    requires p.Valid() && p.IsCommitter(u, v.done) && HasCome(p, t, v, lo, lastLeader)
    requires a.dag == u.dag && a.gcDepth == u.gcDepth && a.lastCommitRound == u.lastCommitRound == v.last
    requires a.committed == v.committed
    ensures IsPairedWith(a, u, v.lastDecided) && u.lastCommitRound <= v.lastDecided.round && DistinctSlots(u.Sched())
  {
    OpenHere(p, t, v, lo, lastLeader);
    hide StandsOn, Concat;
    OpenIsPoint(p.InRuns(), InRun(v, lo));
    SettledInView(p.n, u.AsView(), a.committed);
    hide Sound, IsView, IsPipeline, Scheduled, FromSlot, DistinctSlots, Settled, SettledIn, Protocol.Elected, IsOpen;
    forall start: nat, r | u.LooksFrom(v.lastDecided, start) && r in a.committed
      ensures !FromSlot(u.Sched(), u.AfterGenesis(start), r)
    {
      NextStart(p, u, v, lo, start);
    }
  }

  // ---------- The schedule in force ----------

  /** `elect` is the election for the commits after the first |done| - |scored|. */
  ghost predicate InForce(p: Protocol, done: seq<seq<BlockRef>>, scored: seq<seq<BlockRef>>, commits: nat,
                          elect: Election)
    requires 1 <= p.interval
  {
    && |scored| <= p.interval && commits == |done| && |scored| <= |done| && scored == done[|done| - |scored|..]
    && (|done| - |scored|) % p.interval == 0 && elect == p.ElectAfter(done[..|done| - |scored|])
  }

  lemma ScoredAtMost(p: Protocol, done: seq<seq<BlockRef>>, scored: seq<seq<BlockRef>>, commits: nat, elect: Election)
    requires 1 <= p.interval && InForce(p, done, scored, commits, elect)
    ensures |scored| <= p.interval
  {}

  /** Until it is due for renewal, the election in force is the one all validators use. */
  lemma ElectedNow(p: Protocol, done: seq<seq<BlockRef>>, scored: seq<seq<BlockRef>>, commits: nat, elect: Election)
    requires 1 <= p.interval && InForce(p, done, scored, commits, elect) && |scored| < p.interval
    ensures elect == p.Elected(done) && p.Remaining(done) == p.interval - |scored|
  {
    hide Protocol.ElectAfter;
    EpochOf(|done| - |scored|, |scored|, p.interval);
  }

  lemma Renewed(p: Protocol, done: seq<seq<BlockRef>>, scored: seq<seq<BlockRef>>, commits: nat, elect: Election)
    requires 1 <= p.interval && InForce(p, done, scored, commits, elect) && |scored| == p.interval
    ensures InForce(p, done, [], commits, p.elect(commits, scored))
  {
    EpochEnds(|done| - p.interval, p.interval);
    assert done[..|done|] == done;
  }

  lemma MoreScored(p: Protocol, done: seq<seq<BlockRef>>, scored: seq<seq<BlockRef>>, commits: nat, elect: Election,
                   x: seq<seq<BlockRef>>)
    requires 1 <= p.interval && InForce(p, done, scored, commits, elect) && |scored| + |x| <= p.interval
    ensures InForce(p, done + x, scored + x, commits + |x|, elect)
  {
    hide Protocol.ElectAfter;
    var k := |done| - |scored|;
    assert (done + x)[..k] == done[..k] && (done + x)[k..] == done[k..] + x;
  }

  lemma EpochEnds(m: nat, interval: nat)
    requires interval >= 1 && m % interval == 0
    ensures (m + interval) % interval == 0
  {
    DivBounds(m, interval);
    IndexOf(m / interval + 1, 0, interval);
  }

  lemma EpochOf(m: nat, x: nat, interval: nat)
    requires interval >= 1 && m % interval == 0 && x < interval
    ensures (m + x) % interval == x
  {
    DivBounds(m, interval);
    IndexOf(m / interval, x, interval);
  }
}
