/** One look of a validator at its DAG: what it decides from the next slot on, at most so many
    decisions, and what it commits. Two looks from the same point agree as far as both go. */
module Looks {
  import opened Blocks
  import opened CommitRule
  import opened Safety
  import opened Agreement
  import opened UniversalCommitters
  import opened Linearizers

  /** One look: the DAG as it is then, one past the last slot that is looked at, and how
      many decisions are taken at most. */
  datatype Look = Look(dag: Dag, hi: nat, limit: nat)
  {
    /** The same look once `k` of its decisions are committed. */
    function Rest(k: nat): Look { Look(dag, hi, if limit >= k then limit - k else 0) }

    /** The same look with at most `k` decisions. */
    function First(k: nat): Look { Look(dag, hi, if k <= limit then k else limit) }
  }

  /** How far a validator has got: the next slot, all that is committed, the round of the last
      committed leader, and the sub-dags it has output. */
  datatype Progress = Progress(lo: nat, committed: set<BlockRef>, last: nat, done: seq<seq<BlockRef>>)

  /** What all validators share while the leader schedule stays as it is. */
  datatype Setting = Setting(n: Network, sched: nat -> Slot, gcDepth: nat)

  ghost predicate CanLook(e: Setting, look: Look, lo: nat, last: nat)
    ensures CanLook(e, look, lo, last) ==> lo <= look.hi && Ready(look.dag, e.sched, lo)
  {
    && lo <= look.hi && e.gcDepth >= 1 && DistinctSlots(e.sched) && last <= e.sched(lo).round
    && CoversFrom(e.n, View(look.dag, Gc(last, e.gcDepth)), e.sched, lo)
  }

  ghost function Decided(e: Setting, look: Look, lo: nat): seq<LeaderStatus>
    requires lo <= look.hi && Ready(look.dag, e.sched, lo)
  {
    UpTo(TakeDecided(Statuses(e.n.c, look.dag, e.sched, lo, look.hi)), look.limit)
  }

  lemma NetworkCanWalk(n: Network, v: View)
    requires Sound(n) && IsView(n, v)
    ensures CanWalk(v.dag, v.gc)
  {}

  /** The leaders of a look come out in slot order. */
  lemma LookLeaders(e: Setting, look: Look, lo: nat, last: nat)
    requires CanLook(e, look, lo, last)
    ensures var decided := Decided(e, look, lo);
      && LeadersIn(look.dag, e.sched, lo, lo + |decided|, LeaderRefs(decided)) && InCommitOrder(LeaderRefs(decided))
    ensures InRoundOrder(e.sched)
  {
    hide Statuses, TakeDecided, LeaderRefs, DistinctSlots, InSlots, LeadersIn, InCommitOrder, InRoundOrder, Sound,
      IsView, Walkable;
    LeadersInSlotOrder(e.n.c, look.dag, e.sched, lo, look.hi, look.limit);
  }

  /** What is decided in a look may be committed. */
  lemma LookIsDue(e: Setting, look: Look, lo: nat, last: nat)
    requires CanLook(e, look, lo, last)
    ensures Due(look.dag, e.gcDepth, last, LeaderRefs(Decided(e, look, lo)))
  {
    NetworkCanWalk(e.n, View(look.dag, Gc(last, e.gcDepth)));
    LookLeaders(e, look, lo, last);
    hide LeaderRefs, DistinctSlots, InSlots, Ready, InCommitOrder, InRoundOrder, FromSlot, CanWalk, Decided, CoversFrom;
    var decided := Decided(e, look, lo);
    forall l | l in LeaderRefs(decided) ensures l in look.dag && l.round >= last {
      SlotRound(e.sched, lo, lo + |decided|, l);
    }
  }

  /** The sub-dags that a look outputs. */
  ghost function Commits(e: Setting, look: Look, s: Progress): seq<seq<BlockRef>>
    requires CanLook(e, look, s.lo, s.last)
  {
    LookIsDue(e, look, s.lo, s.last);
    SubDags(look.dag, e.gcDepth, s.committed, s.last, LeaderRefs(Decided(e, look, s.lo)))
  }

  ghost function Next(e: Setting, look: Look, s: Progress): Progress
    requires CanLook(e, look, s.lo, s.last)
  {
    LookIsDue(e, look, s.lo, s.last);
    var decided := Decided(e, look, s.lo);
    Progress(s.lo + |decided|, After(look.dag, e.gcDepth, s.committed, s.last, LeaderRefs(decided)),
      LastRound(s.last, LeaderRefs(decided)), s.done + Commits(e, look, s))
  }

  /** One call of the committer is a look. */
  lemma CallIsLook(u: UniversalCommitter, n: Network, lastDecided: Slot, all: seq<LeaderStatus>, lo: nat, limit: nat)
    requires u.Valid(n) && u.lastCommitRound <= lastDecided.round && DistinctSlots(u.Sched())
    requires u.Decides(lastDecided, all, lo) && all != []
    ensures var e, look := Setting(n, u.Sched(), u.gcDepth), Look(u.dag, u.End(), limit);
      && CanLook(e, look, u.AfterGenesis(lo), u.lastCommitRound)
      && UpTo(all, limit) == Decided(e, look, u.AfterGenesis(lo))
  {
    hide Statuses, TakeDecided, Scheduled, DistinctSlots, CoversFrom, Ready;
    StartIsCovered(u, n, lastDecided, lo);
    StartRound(u, n, lastDecided, lo);
  }

  // ---------- Splitting a look ----------

  lemma {:induction false} LeaderRefsAppend(p: seq<LeaderStatus>, q: seq<LeaderStatus>)
    ensures LeaderRefs(p + q) == LeaderRefs(p) + LeaderRefs(q)
  {
    if p == [] {
      assert p + q == q;
    } else {
      assert (p + q)[1..] == p[1..] + q && (p + q)[0] == p[0];
      LeaderRefsAppend(p[1..], q);
      var head := if p[0].Commit? then [p[0].block.ref] else [];
      assert LeaderRefs(p + q) == head + LeaderRefs(p[1..] + q) && LeaderRefs(p) == head + LeaderRefs(p[1..]);
      hide LeaderRefs;
      Associate(head, LeaderRefs(p[1..]), LeaderRefs(q));
    }
  }

  lemma Associate(x: seq<BlockRef>, y: seq<BlockRef>, z: seq<BlockRef>)
    ensures x + (y + z) == (x + y) + z
  {}

  lemma OrderParts(x: seq<BlockRef>, y: seq<BlockRef>)
    requires InCommitOrder(x + y)
    ensures InCommitOrder(x) && InCommitOrder(y) && forall l | l in y :: x != [] ==> x[|x| - 1].round <= l.round
  {
    var all := x + y;
    forall i, j | 0 <= i < j < |x| ensures x[i].round <= x[j].round && x[i] != x[j] {
      assert all[i] == x[i] && all[j] == x[j];
    }
    forall i, j | 0 <= i < j < |y| ensures y[i].round <= y[j].round && y[i] != y[j] {
      assert all[|x| + i] == y[i] && all[|x| + j] == y[j];
    }
    forall l | l in y && x != [] ensures x[|x| - 1].round <= l.round {
      var k :| 0 <= k < |y| && y[k] == l;
      assert all[|x| + k] == l && all[|x| - 1] == x[|x| - 1];
    }
  }

  lemma CanWalkAbove(dag: Dag, lo: nat, hi: nat)
    requires CanWalk(dag, lo) && lo <= hi
    ensures CanWalk(dag, hi)
  {
    WalkableAbove(dag, lo);
    assert Walkable(dag, hi);
  }

  lemma DueParts(dag: Dag, depth: nat, last: nat, x: seq<BlockRef>, y: seq<BlockRef>)
    requires Due(dag, depth, last, x + y)
    ensures Due(dag, depth, last, x) && Due(dag, depth, LastRound(last, x), y)
  {
    hide CanWalk, InCommitOrder;
    OrderParts(x, y);
    assert forall l | l in x || l in y :: l in x + y;
    assert LastRound(last, x) >= last by { if x != [] { assert x[|x| - 1] in x; } }
    CanWalkAbove(dag, Gc(last, depth), Gc(LastRound(last, x), depth));
  }

  /** Committing in two goes is committing in one. */
  lemma {:induction false} CommitInTwo(dag: Dag, depth: nat, committed: set<BlockRef>, last: nat, x: seq<BlockRef>,
                                       y: seq<BlockRef>)
    requires Due(dag, depth, last, x + y) && Due(dag, depth, last, x) && Due(dag, depth, LastRound(last, x), y)
    ensures var after := After(dag, depth, committed, last, x);
      && SubDags(dag, depth, committed, last, x + y)
        == SubDags(dag, depth, committed, last, x) + SubDags(dag, depth, after, LastRound(last, x), y)
      && After(dag, depth, committed, last, x + y) == After(dag, depth, after, LastRound(last, x), y)
    decreases |x|
  {
    hide Due, Walk, CanWalk, SortSubDag;
    if x == [] {
      assert x + y == y;
    } else {
      hide SubDags, After;
      CommitFirst(dag, depth, committed, last, x + y);
      CommitFirst(dag, depth, committed, last, x);
      assert (x + y)[1..] == x[1..] + y && (x + y)[0] == x[0];
      assert LastRound(x[0].round, x[1..]) == LastRound(last, x);
      var after := Walk(dag, Gc(last, depth), committed + {x[0]}, [x[0]]).1;
      CommitInTwo(dag, depth, after, x[0].round, x[1..], y);
    }
  }

  // ---------- A look may be cut in two ----------

  lemma DecidedNext(e: Setting, look: Look, lo: nat)
    requires lo <= look.hi && Ready(look.dag, e.sched, lo) && Decided(e, look, lo) != []
    ensures lo < look.hi && Decided(e, look, lo)[1..] == Decided(e, look.Rest(1), lo + 1)
  {
    hide Decide, Walkable, StatusAt, Statuses;
    StatusesCons(e.n.c, look.dag, e.sched, lo, look.hi);
    var s := Statuses(e.n.c, look.dag, e.sched, lo, look.hi);
    assert s[1..] == Statuses(e.n.c, look.dag, e.sched, lo + 1, look.hi);
  }

  lemma {:induction false} DecidedRest(e: Setting, look: Look, lo: nat, k: nat)
    requires lo <= look.hi && Ready(look.dag, e.sched, lo) && k <= |Decided(e, look, lo)|
    ensures lo + k <= look.hi && Decided(e, look.Rest(k), lo + k) == Decided(e, look, lo)[k..]
    decreases k
  {
    hide Decided, Walkable;
    if k > 0 {
      DecidedNext(e, look, lo);
      DecidedRest(e, look.Rest(1), lo + 1, k - 1);
      assert look.Rest(1).Rest(k - 1) == look.Rest(k);
    }
  }

  lemma {:induction false} DecidedIsPrefix(s: seq<LeaderStatus>, i: nat)
    requires i < |TakeDecided(s)|
    ensures i < |s| && TakeDecided(s)[i] == s[i]
  {
    if i > 0 { DecidedIsPrefix(s[1..], i - 1); }
  }

  lemma {:induction false} LeaderFrom(s: seq<LeaderStatus>, l: BlockRef) returns (i: nat)
    requires l in LeaderRefs(s)
    ensures i < |s| && s[i].Commit? && s[i].block.ref == l
  {
    if s[0].Commit? && s[0].block.ref == l {
      i := 0;
    } else {
      var j := LeaderFrom(s[1..], l);
      i := j + 1;
    }
  }

  /** Leaders decided in the first k slots lie in rounds between. */
  lemma LeaderRounds(e: Setting, look: Look, lo: nat, k: nat, l: BlockRef)
    requires lo <= look.hi && Ready(look.dag, e.sched, lo) && k <= |Decided(e, look, lo)|
    requires l in LeaderRefs(Decided(e, look, lo)[..k])
    ensures k > 0 && e.sched(lo).round <= l.round <= e.sched(lo + k - 1).round <= e.sched(lo + k).round
  {
    hide Statuses, StatusAt, Walkable, TakeDecided, LeaderRefs;
    var s := Statuses(e.n.c, look.dag, e.sched, lo, look.hi);
    var i := LeaderFrom(Decided(e, look, lo)[..k], l);
    DecidedIsPrefix(s, i);
    StatusesAreStatusAt(e.n.c, look.dag, e.sched, lo, look.hi, i);
    assert IsFor(StatusAt(e.n.c, look.dag, e.sched, lo + i, look.hi), e.sched(lo + i));
  }

  lemma CoversOn(e: Setting, dag: Dag, gc: nat, lo: nat, gc': nat, lo': nat)
    requires CoversFrom(e.n, View(dag, gc), e.sched, lo) && gc <= gc' && lo <= lo' && gc' < e.sched(lo').round
    ensures CoversFrom(e.n, View(dag, gc'), e.sched, lo')
  {
    hide Walkable;
  }

  /** After committing part of a look, the same look can go on. */
  lemma CanLookOn(e: Setting, look: Look, lo: nat, last: nat, k: nat)
    requires CanLook(e, look, lo, last) && k <= |Decided(e, look, lo)|
    ensures var leaders := LeaderRefs(Decided(e, look, lo)[..k]);
      lo + k <= look.hi && CanLook(e, look.Rest(k), lo + k, LastRound(last, leaders))
  {
    hide Walkable, LeaderRefs, Covers, DistinctSlots;
    assert e.sched(lo).round <= e.sched(lo + k).round && Gc(last, e.gcDepth) < e.sched(lo).round by {
      SlotsGoUp(e, look.dag, last, lo, lo + k);
    }
    hide Ready, CoversFrom;
    DecidedRest(e, look, lo, k);
    var leaders := LeaderRefs(Decided(e, look, lo)[..k]);
    hide Decided;
    if leaders != [] {
      LeaderRounds(e, look, lo, k, leaders[|leaders| - 1]);
    }
    CoversOn(e, look.dag, Gc(last, e.gcDepth), lo, Gc(LastRound(last, leaders), e.gcDepth), lo + k);
  }

  lemma SlotsGoUp(e: Setting, dag: Dag, last: nat, lo: nat, lo': nat)
    requires CoversFrom(e.n, View(dag, Gc(last, e.gcDepth)), e.sched, lo) && lo <= lo'
    ensures e.sched(lo).round <= e.sched(lo').round && Gc(last, e.gcDepth) < e.sched(lo).round
  {}

  lemma FirstPartIsDue(e: Setting, look: Look, lo: nat, last: nat, k: nat)
    requires CanLook(e, look, lo, last) && k <= |Decided(e, look, lo)|
    ensures var decided := Decided(e, look, lo);
      && LeaderRefs(decided) == LeaderRefs(decided[..k]) + LeaderRefs(decided[k..])
      && Due(look.dag, e.gcDepth, last, LeaderRefs(decided[..k]))
      && Due(look.dag, e.gcDepth, LastRound(last, LeaderRefs(decided[..k])), LeaderRefs(decided[k..]))
  {
    LookIsDue(e, look, lo, last);
    hide CanLook, Decided, LeaderRefs, Due;
    var decided := Decided(e, look, lo);
    assert decided == decided[..k] + decided[k..];
    LeaderRefsAppend(decided[..k], decided[k..]);
    DueParts(look.dag, e.gcDepth, last, LeaderRefs(decided[..k]), LeaderRefs(decided[k..]));
  }

  ghost function FirstCommits(e: Setting, look: Look, s: Progress, k: nat): seq<seq<BlockRef>>
    requires CanLook(e, look, s.lo, s.last) && k <= |Decided(e, look, s.lo)|
  {
    FirstPartIsDue(e, look, s.lo, s.last, k);
    SubDags(look.dag, e.gcDepth, s.committed, s.last, LeaderRefs(Decided(e, look, s.lo)[..k]))
  }

  /** Part of a look: the first `k` of its decisions committed. */
  ghost function Partway(e: Setting, look: Look, s: Progress, k: nat): Progress
    requires CanLook(e, look, s.lo, s.last) && k <= |Decided(e, look, s.lo)|
  {
    FirstPartIsDue(e, look, s.lo, s.last, k);
    var leaders := LeaderRefs(Decided(e, look, s.lo)[..k]);
    Progress(s.lo + k, After(look.dag, e.gcDepth, s.committed, s.last, leaders), LastRound(s.last, leaders),
      s.done + FirstCommits(e, look, s, k))
  }

  lemma LastRoundAppend(last: nat, x: seq<BlockRef>, y: seq<BlockRef>)
    ensures LastRound(last, x + y) == LastRound(LastRound(last, x), y)
  {}

  /** Stopping partway and looking again gives what the whole look gives. */
  lemma CutLook(e: Setting, look: Look, s: Progress, k: nat)
    requires CanLook(e, look, s.lo, s.last) && k <= |Decided(e, look, s.lo)|
    ensures var mid, rest := Partway(e, look, s, k), look.Rest(k);
      && CanLook(e, rest, mid.lo, mid.last) && Next(e, rest, mid) == Next(e, look, s)
      && Commits(e, look, s) == FirstCommits(e, look, s, k) + Commits(e, rest, mid)
  {
    hide CanLook, Decided, LeaderRefs, Due, SubDags, After, Ready;
    CanLookOn(e, look, s.lo, s.last, k);
    DecidedRest(e, look, s.lo, k);
    LookIsDue(e, look, s.lo, s.last);
    FirstPartIsDue(e, look, s.lo, s.last, k);
    var decided := Decided(e, look, s.lo);
    var x, y := LeaderRefs(decided[..k]), LeaderRefs(decided[k..]);
    CommitInTwo(look.dag, e.gcDepth, s.committed, s.last, x, y);
    LastRoundAppend(s.last, x, y);
    var mid := Partway(e, look, s, k);
    AssociateOutputs(s.done, FirstCommits(e, look, s, k), Commits(e, look.Rest(k), mid));
  }

  lemma AssociateOutputs(x: seq<seq<BlockRef>>, y: seq<seq<BlockRef>>, z: seq<seq<BlockRef>>)
    ensures x + (y + z) == (x + y) + z
  {}

  /** A look that decides less ends where a look that decides more passes. */
  lemma SamePoint(e: Setting, a: Look, b: Look, s: Progress)
    requires CanLook(e, a, s.lo, s.last) && CanLook(e, b, s.lo, s.last)
    requires Decided(e, a, s.lo) <= Decided(e, b, s.lo)
    ensures var k := |Decided(e, a, s.lo)|;
      Next(e, a, s) == Partway(e, b, s, k) && Commits(e, a, s) == FirstCommits(e, b, s, k)
  {
    hide CanLook, Decided, LeaderRefs, Due, SubDags, After, Ready;
    var k := |Decided(e, a, s.lo)|;
    assert Decided(e, b, s.lo)[..k] == Decided(e, a, s.lo);
    LookIsDue(e, a, s.lo, s.last);
    FirstPartIsDue(e, b, s.lo, s.last, k);
    LooksShare(e, a, s.lo, b, s.lo, s.last);
    SameCommits(a.dag, b.dag, e.gcDepth, s.committed, s.last, LeaderRefs(Decided(e, a, s.lo)));
  }

  /** A look that takes fewer decisions ends partway through the whole one. */
  lemma FirstIsPartway(e: Setting, look: Look, s: Progress, k: nat)
    requires CanLook(e, look, s.lo, s.last) && k <= |Decided(e, look, s.lo)|
    ensures CanLook(e, look.First(k), s.lo, s.last) && Decided(e, look.First(k), s.lo) == Decided(e, look, s.lo)[..k]
    ensures Commits(e, look.First(k), s) == FirstCommits(e, look, s, k)
    ensures Next(e, look.First(k), s) == Partway(e, look, s, k)
  {
    hide LeaderRefs, Due, SubDags, After, Ready, CoversFrom, DistinctSlots, TakeDecided, Statuses;
    assert CanLook(e, look.First(k), s.lo, s.last);
    FirstPartIsDue(e, look, s.lo, s.last, k);
  }

  /** What the first decisions of the rest commit comes after what the first ones do. */
  lemma FirstOfRest(e: Setting, look: Look, s: Progress, k: nat, i: nat)
    requires CanLook(e, look, s.lo, s.last) && k + i <= |Decided(e, look, s.lo)|
    ensures var mid := Partway(e, look, s, k);
      && CanLook(e, look.Rest(k), mid.lo, mid.last) && i <= |Decided(e, look.Rest(k), mid.lo)|
      && FirstCommits(e, look, s, k + i) == FirstCommits(e, look, s, k) + FirstCommits(e, look.Rest(k), mid, i)
  {
    hide CanLook, Decided, Due, SubDags, After, Ready, FirstCommits, Commits, LeaderRefs, LastRound;
    FirstIsPartway(e, look, s, k + i);
    FirstIsPartway(e, look, s, k);
    var part := look.First(k + i);
    FewCommits(e, look, s, k);
    FirstIsPartway(e, part, s, k);
    CutLook(e, part, s, k);
    CutLook(e, look, s, k);
    DecidedRest(e, look, s.lo, k);
    var mid := Partway(e, look, s, k);
    assert part.First(k) == look.First(k) && part.Rest(k) == look.Rest(k).First(i);
    FirstIsPartway(e, look.Rest(k), mid, i);
  }

  /** A look that stops nowhere is partway through all of it. */
  lemma AllTheWay(e: Setting, look: Look, s: Progress)
    requires CanLook(e, look, s.lo, s.last)
    ensures var k := |Decided(e, look, s.lo)|;
      Partway(e, look, s, k) == Next(e, look, s) && FirstCommits(e, look, s, k) == Commits(e, look, s)
  {
    hide CanLook, Decided, LeaderRefs, Due, SubDags, After, Ready;
    var decided := Decided(e, look, s.lo);
    assert decided[..|decided|] == decided;
  }

  lemma {:induction false} LeadersAtMost(s: seq<LeaderStatus>)
    ensures |LeaderRefs(s)| <= |s|
  {
    if s != [] { LeadersAtMost(s[1..]); }
  }

  lemma {:induction false} OnePerLeader(dag: Dag, depth: nat, committed: set<BlockRef>, last: nat,
                                        leaders: seq<BlockRef>)
    requires Due(dag, depth, last, leaders)
    ensures |SubDags(dag, depth, committed, last, leaders)| == |leaders|
    decreases |leaders|
  {
    hide Due, Walk, CanWalk, SortSubDag;
    if leaders != [] {
      CommitFirst(dag, depth, committed, last, leaders);
      var after := Walk(dag, Gc(last, depth), committed + {leaders[0]}, [leaders[0]]).1;
      OnePerLeader(dag, depth, after, leaders[0].round, leaders[1..]);
    }
  }

  /** No more sub-dags than decisions. */
  lemma FewCommits(e: Setting, look: Look, s: Progress, k: nat)
    requires CanLook(e, look, s.lo, s.last) && k <= |Decided(e, look, s.lo)|
    ensures |FirstCommits(e, look, s, k)| <= k && |Decided(e, look, s.lo)| <= look.limit
  {
    hide CanLook, LeaderRefs, Due, SubDags, After, Ready, TakeDecided, Statuses;
    FirstPartIsDue(e, look, s.lo, s.last, k);
    var leaders := LeaderRefs(Decided(e, look, s.lo)[..k]);
    OnePerLeader(look.dag, e.gcDepth, s.committed, s.last, leaders);
    LeadersAtMost(Decided(e, look, s.lo)[..k]);
  }

  lemma LooksShare(e: Setting, a: Look, lo: nat, b: Look, lo': nat, last: nat)
    requires CanLook(e, a, lo, last) && CanLook(e, b, lo', last)
    ensures forall r | r in a.dag && r in b.dag :: a.dag[r] == b.dag[r]
  {
    hide Walkable, Ready;
    ViewsAgree(e.n, View(a.dag, Gc(last, e.gcDepth)), View(b.dag, Gc(last, e.gcDepth)));
  }

  lemma {:induction false} SameCommits(v: Dag, w: Dag, depth: nat, committed: set<BlockRef>, last: nat,
                                       leaders: seq<BlockRef>)
    requires Due(v, depth, last, leaders) && Due(w, depth, last, leaders)
    requires forall r | r in v && r in w :: v[r] == w[r]
    ensures SubDags(v, depth, committed, last, leaders) == SubDags(w, depth, committed, last, leaders)
    ensures After(v, depth, committed, last, leaders) == After(w, depth, committed, last, leaders)
    decreases |leaders|
  {
    hide Due, Walk, CanWalk, SortSubDag;
    if leaders != [] {
      hide SubDags, After;
      CommitFirst(v, depth, committed, last, leaders);
      CommitFirst(w, depth, committed, last, leaders);
      WalkSameInBothViews(v, w, Gc(last, depth), committed + {leaders[0]}, [leaders[0]]);
      var after := Walk(v, Gc(last, depth), committed + {leaders[0]}, [leaders[0]]).1;
      SameCommits(v, w, depth, after, leaders[0].round, leaders[1..]);
    }
  }

  /** Two looks from the same slot: one decides a prefix of what the other does. */
  lemma LooksAgree(e: Setting, a: Look, b: Look, s: Progress)
    requires CanLook(e, a, s.lo, s.last) && CanLook(e, b, s.lo, s.last)
    ensures Decided(e, a, s.lo) <= Decided(e, b, s.lo) || Decided(e, b, s.lo) <= Decided(e, a, s.lo)
  {
    hide Walkable, Statuses, TakeDecided, Covers;
    var gc := Gc(s.last, e.gcDepth);
    DecidedSequencesAgree(e.n, View(a.dag, gc), a.hi, View(b.dag, gc), b.hi, e.sched, s.lo);
    var p := TakeDecided(Statuses(e.n.c, a.dag, e.sched, s.lo, a.hi));
    var q := TakeDecided(Statuses(e.n.c, b.dag, e.sched, s.lo, b.hi));
    if p <= q { UpToKeepsPrefix(p, q, a.limit, b.limit); } else { UpToKeepsPrefix(q, p, b.limit, a.limit); }
  }

  // ---------- Integrity ----------

  /** Committed blocks have their uncollected ancestors committed, whoever holds them. */
  ghost predicate SettledIn(n: Network, gc: nat, committed: set<BlockRef>) {
    forall r, a | r in committed && r in n.blocks && a in n.blocks[r].ancestors && a.round > gc :: a in committed
  }

  /** A validator that has committed nothing of what is still to be decided. */
  ghost predicate IsPoint(e: Setting, s: Progress) {
    SettledIn(e.n, Gc(s.last, e.gcDepth), s.committed) && forall r | r in s.committed :: !FromSlot(e.sched, s.lo, r)
  }

  lemma SettledInView(n: Network, v: View, committed: set<BlockRef>)
    requires IsView(n, v) && SettledIn(n, v.gc, committed)
    ensures Settled(v.dag, v.gc, committed, {})
  {}

  lemma SettledAgain(n: Network, v: View, gc: nat, committed: set<BlockRef>, after: set<BlockRef>)
    requires IsView(n, v) && SettledIn(n, v.gc, committed) && Settled(v.dag, gc, after, {}) && v.gc <= gc
    requires committed <= after && forall r | r in after && r !in committed :: r in v.dag
    ensures SettledIn(n, gc, after)
  {}

  lemma {:induction false} AfterIsSettled(dag: Dag, depth: nat, committed: set<BlockRef>, last: nat,
                                          leaders: seq<BlockRef>)
    requires Due(dag, depth, last, leaders) && Settled(dag, Gc(last, depth), committed, {})
    requires forall l | l in leaders :: l !in committed
    ensures var after := After(dag, depth, committed, last, leaders);
      && Settled(dag, Gc(LastRound(last, leaders), depth), after, {}) && committed <= after
      && (forall r | r in after && r !in committed :: r in dag && r.round <= LastRound(last, leaders))
      && last <= LastRound(last, leaders)
    decreases |leaders|
  {
    hide Due, Walk, CanWalk, Settled, NoRepeats, Reaches;
    if leaders != [] {
      DueNext(dag, depth, last, leaders);
      CanWalkWhenDue(dag, depth, last, leaders);
      var gc, leader := Gc(last, depth), leaders[0];
      var (out, after) := Walk(dag, gc, committed + {leader}, [leader]);
      SubDagIsHistory(dag, gc, committed, leader);
      forall r | r in out && r != leader ensures r in dag && r.round < leader.round { InDag(dag, gc, leader, r); }
      SettledLater(dag, gc, Gc(leader.round, depth), after);
      forall l | l in leaders[1..] ensures l !in after { CommitsNoLaterLeader(dag, gc, committed, leader, l); }
      AfterIsSettled(dag, depth, after, leader.round, leaders[1..]);
      assert LastRound(leader.round, leaders[1..]) == LastRound(last, leaders);
    }
  }

  lemma InDag(dag: Dag, gc: nat, leader: BlockRef, r: BlockRef)
    requires CanWalk(dag, gc) && leader in dag && Reaches(dag, gc, leader, r) && r.round > gc
    ensures r in dag && r.round < leader.round
  {
    ReachesLower(dag, gc, leader, r);
  }

  lemma {:induction false} ConcatAppend(x: seq<seq<BlockRef>>, y: seq<seq<BlockRef>>)
    ensures Concat(x + y) == Concat(x) + Concat(y)
  {
    if x == [] {
      assert x + y == y;
    } else {
      assert (x + y)[1..] == x[1..] + y;
      ConcatAppend(x[1..], y);
    }
  }

  /** What a look decides is new, and its slots come before the next one. */
  lemma LeadersAreNew(e: Setting, look: Look, s: Progress)
    requires CanLook(e, look, s.lo, s.last) && IsPoint(e, s)
    ensures var decided := Decided(e, look, s.lo);
      forall l | l in LeaderRefs(decided) :: l !in s.committed && InSlots(e.sched, 0, s.lo + |decided|, l)
  {
    hide LeaderRefs, InSlots, FromSlot, SettledIn, Decided, CanLook, InRoundOrder, Ready;
    LookLeaders(e, look, s.lo, s.last);
    var decided := Decided(e, look, s.lo);
    var next := s.lo + |decided|;
    forall l | l in LeaderRefs(decided) ensures l !in s.committed && InSlots(e.sched, 0, next, l) {
      SlotRound(e.sched, s.lo, next, l);
      FromStart(e.sched, s.lo, next, l);
    }
  }

  /** One look commits each block once, none of a round past its last leader, and leaves the
      validator ready for the next look. */
  lemma LookCommitsOnce(e: Setting, look: Look, s: Progress)
    requires CanLook(e, look, s.lo, s.last) && IsPoint(e, s)
    ensures var all, next := Concat(Commits(e, look, s)), Next(e, look, s);
      && NoRepeats(all) && Elements(all) !! s.committed && next.committed == s.committed + Elements(all)
      && (forall r | r in all :: r.round <= next.last) && IsPoint(e, next)
  {
    LookIsDue(e, look, s.lo, s.last);
    LeadersAreNew(e, look, s);
    hide LeaderRefs, DistinctSlots, InSlots, Ready, FromSlot, SubDags, After, Due, NoRepeats, Walkable, SettledIn,
      Settled, Decided, Concat, IsView;
    var gc := Gc(s.last, e.gcDepth);
    var v := View(look.dag, gc);
    assert IsView(e.n, v);
    hide CanLook;
    SettledInView(e.n, v, s.committed);
    var decided := Decided(e, look, s.lo);
    var leaders, next := LeaderRefs(decided), s.lo + |decided|;
    NothingTwice(look.dag, e.gcDepth, s.committed, s.last, leaders);
    AfterIsSettled(look.dag, e.gcDepth, s.committed, s.last, leaders);
    var after := After(look.dag, e.gcDepth, s.committed, s.last, leaders);
    SettledAgain(e.n, v, Gc(LastRound(s.last, leaders), e.gcDepth), s.committed, after);
    forall r | r in s.committed ensures !FromSlot(e.sched, next, r) { StillFrom(e.sched, s.lo, next, r); }
    LaterSlotsStayOpen(look.dag, e.gcDepth, s.committed, s.last, leaders, e.sched, next);
  }

  lemma FromStart(sched: nat -> Slot, lo: nat, hi: nat, r: BlockRef)
    requires InSlots(sched, lo, hi, r)
    ensures InSlots(sched, 0, hi, r)
  {}

  lemma StillFrom(sched: nat -> Slot, lo: nat, next: nat, r: BlockRef)
    requires lo <= next
    ensures FromSlot(sched, next, r) ==> FromSlot(sched, lo, r)
  {}
}
