/** Total order over whole runs: validators look at their growing DAGs as often as they
    like, decide what they can each time and commit it, under a leader schedule that what
    they have committed may change. Whatever they see and whenever they look, the blocks
    they output extend one another. */
module TotalOrders {
  import opened Blocks
  import opened CommitRule
  import opened Safety
  import opened Agreement
  import opened Linearizers
  import opened Looks

  /** What all validators share: the schedule of leaders depends on the sub-dags committed. */
  datatype Policy = Policy(n: Network, elected: seq<seq<BlockRef>> -> (nat -> Slot), gcDepth: nat)
  {
    ghost function At(done: seq<seq<BlockRef>>): Setting { Setting(n, elected(done), gcDepth) }

    /** The schedule stays as it is until `limit` more sub-dags are committed. */
    ghost predicate Keeps(done: seq<seq<BlockRef>>, limit: nat) {
      forall x: seq<seq<BlockRef>> | |x| < limit :: elected(done + x) == elected(done)
    }

    ghost predicate IsFixed() { forall x, y :: elected(x) == elected(y) }

    ghost predicate HasOnePerRound() { forall x, k: nat :: elected(x)(k).round == k }
  }

  /** A look stops no later than where the schedule changes: up to its last decision, what it
      commits leaves the schedule as it is. */
  ghost predicate CanTake(q: Policy, look: Look, s: Progress)
    ensures CanTake(q, look, s) ==> CanLook(q.At(s.done), look, s.lo, s.last)
  {
    var e := q.At(s.done);
    && CanLook(e, look, s.lo, s.last)
    && forall k: nat | k < |Decided(e, look, s.lo)| :: q.At(s.done + FirstCommits(e, look, s, k)) == e
  }

  /** So does a look with no more decisions than the schedule is good for. */
  lemma KeepingIsEnough(q: Policy, look: Look, s: Progress)
    requires CanLook(q.At(s.done), look, s.lo, s.last) && q.Keeps(s.done, look.limit)
    ensures CanTake(q, look, s)
  {
    hide CanLook, Decided, Ready, FirstCommits;
    var e := q.At(s.done);
    forall k: nat | k < |Decided(e, look, s.lo)| ensures q.At(s.done + FirstCommits(e, look, s, k)) == e {
      FewCommits(e, look, s, k);
    }
  }

  ghost function Taking(q: Policy, look: Look, s: Progress): Progress
    requires CanTake(q, look, s)
  {
    Next(q.At(s.done), look, s)
  }

  ghost predicate IsRun(q: Policy, looks: seq<Look>, s: Progress)
    decreases |looks|
  {
    looks == [] || (CanTake(q, looks[0], s) && IsRun(q, looks[1..], Taking(q, looks[0], s)))
  }

  /** The sub-dags a validator outputs over a run. */
  ghost function Output(q: Policy, looks: seq<Look>, s: Progress): seq<seq<BlockRef>>
    requires IsRun(q, looks, s)
    decreases |looks|
  {
    if looks == [] then []
    else Commits(q.At(s.done), looks[0], s) + Output(q, looks[1..], Taking(q, looks[0], s))
  }

  /** Where a run ends. */
  ghost function End(q: Policy, looks: seq<Look>, s: Progress): Progress
    requires IsRun(q, looks, s)
    decreases |looks|
  {
    if looks == [] then s else End(q, looks[1..], Taking(q, looks[0], s))
  }

  // ---------- Runs from the same point ----------

  /** The rest of a look may be taken where its first part ends. */
  lemma CanTakeRest(q: Policy, look: Look, s: Progress, k: nat)
    requires CanTake(q, look, s) && k < |Decided(q.At(s.done), look, s.lo)|
    ensures var mid := Partway(q.At(s.done), look, s, k);
      q.At(mid.done) == q.At(s.done) && CanTake(q, look.Rest(k), mid)
  {
    hide CanLook, Decided, Ready, FirstCommits, Policy.At;
    var e := q.At(s.done);
    var mid, rest := Partway(e, look, s, k), look.Rest(k);
    CutLook(e, look, s, k);
    DecidedRest(e, look, s.lo, k);
    forall i: nat | i < |Decided(e, rest, mid.lo)| ensures q.At(mid.done + FirstCommits(e, rest, mid, i)) == e {
      FirstOfRest(e, look, s, k, i);
      AssociateOutputs(s.done, FirstCommits(e, look, s, k), FirstCommits(e, rest, mid, i));
    }
  }

  /** A run whose first look is cut short. */
  lemma CutRun(q: Policy, looks: seq<Look>, s: Progress, k: nat)
    requires looks != [] && IsRun(q, looks, s) && CanLook(q.At(s.done), looks[0], s.lo, s.last)
    requires k < |Decided(q.At(s.done), looks[0], s.lo)|
    ensures var e, cut := q.At(s.done), [looks[0].Rest(k)] + looks[1..];
      var mid := Partway(e, looks[0], s, k);
      && IsRun(q, cut, mid) && Output(q, looks, s) == FirstCommits(e, looks[0], s, k) + Output(q, cut, mid)
      && End(q, cut, mid) == End(q, looks, s)
  {
    hide CanTake, CanLook, Decided, Ready, Next, Commits, FirstCommits, Partway, Policy.At;
    var e, look := q.At(s.done), looks[0];
    var mid, cut, first := Partway(e, look, s, k), [look.Rest(k)] + looks[1..], FirstCommits(e, look, s, k);
    CutLook(e, look, s, k);
    CanTakeRest(q, look, s, k);
    assert cut[1..] == looks[1..];
    assert Taking(q, cut[0], mid) == Taking(q, look, s);
    AssociateOutputs(first, Commits(e, look.Rest(k), mid), Output(q, looks[1..], Taking(q, look, s)));
  }

  /** Of two runs from the same point, the one whose first look decides less may take it
      away from both. */
  lemma TakeFirstLook(e: Policy, p: seq<Look>, q: seq<Look>, s: Progress)
    returns (s': Progress, q': seq<Look>, same: seq<seq<BlockRef>>)
    requires p != [] && q != [] && IsRun(e, p, s) && IsRun(e, q, s)
    requires Decided(e.At(s.done), p[0], s.lo) <= Decided(e.At(s.done), q[0], s.lo)
    ensures |q'| <= |q| && IsRun(e, p[1..], s') && IsRun(e, q', s')
    ensures End(e, p[1..], s') == End(e, p, s) && End(e, q', s') == End(e, q, s)
    ensures Output(e, p, s) == same + Output(e, p[1..], s') && Output(e, q, s) == same + Output(e, q', s')
  {
    hide CanTake, CanLook, Decided, Ready, Commits, Next, Partway, FirstCommits, Policy.At;
    var at, k := e.At(s.done), |Decided(e.At(s.done), p[0], s.lo)|;
    s', same := Taking(e, p[0], s), Commits(at, p[0], s);
    SamePoint(at, p[0], q[0], s);
    if k < |Decided(at, q[0], s.lo)| {
      q' := [q[0].Rest(k)] + q[1..];
      CutRun(e, q, s, k);
    } else {
      q' := q[1..];
      AllTheWay(at, q[0], s);
    }
  }

  /** Total order: for any two runs from the same point, with any number of looks at any
      views of the network, one output is a prefix of the other. */
  lemma {:induction false} RunsExtendEachOther(e: Policy, p: seq<Look>, q: seq<Look>, s: Progress)
    requires IsRun(e, p, s) && IsRun(e, q, s)
    ensures Output(e, p, s) <= Output(e, q, s) || Output(e, q, s) <= Output(e, p, s)
    decreases |p| + |q|
  {
    hide CanTake, CanLook, Decided, Ready, Next, Policy.At;
    if p != [] && q != [] {
      var at := e.At(s.done);
      LooksAgree(at, p[0], q[0], s);
      if Decided(at, p[0], s.lo) <= Decided(at, q[0], s.lo) {
        var s', q', same := TakeFirstLook(e, p, q, s);
        hide Output, IsRun;
        RunsExtendEachOther(e, p[1..], q', s');
        ExtendBoth(same, Output(e, p[1..], s'), Output(e, q', s'));
      } else {
        var s', p', same := TakeFirstLook(e, q, p, s);
        hide Output, IsRun;
        RunsExtendEachOther(e, p', q[1..], s');
        ExtendBoth(same, Output(e, p', s'), Output(e, q[1..], s'));
      }
    }
  }

  lemma ExtendBoth(x: seq<seq<BlockRef>>, y: seq<seq<BlockRef>>, z: seq<seq<BlockRef>>)
    ensures y <= z ==> x + y <= x + z
    ensures z <= y ==> x + z <= x + y
  {}

  // ---------- Integrity ----------

  /** A validator that has committed nothing of what is still to be decided. Where schedules
      change, rounds have one leader each, and all that is committed is of earlier rounds. */
  ghost predicate IsOpen(q: Policy, s: Progress) {
    if q.IsFixed() then IsPoint(q.At(s.done), s)
    else
      && q.HasOnePerRound() && SettledIn(q.n, Gc(s.last, q.gcDepth), s.committed)
      && forall r | r in s.committed :: r.round < s.lo
  }

  lemma OpenIsPoint(q: Policy, s: Progress)
    requires IsOpen(q, s)
    ensures IsPoint(q.At(s.done), s)
  {
    hide SettledIn;
    if !q.IsFixed() {
      forall r | r in s.committed ensures !FromSlot(q.elected(s.done), s.lo, r) {
        forall k: nat | s.lo <= k ensures r.SlotOf() != q.elected(s.done)(k) {}
      }
    }
  }

  /** With one leader a round, a look commits nothing of the rounds still to be decided. */
  lemma CommitsEarlierRounds(e: Setting, look: Look, s: Progress)
    requires CanLook(e, look, s.lo, s.last) && forall k: nat :: e.sched(k).round == k
    ensures var next := Next(e, look, s); Commits(e, look, s) != [] ==> next.last < next.lo
  {
    hide CanLook, Decided, LeaderRefs, Due, After, Ready;
    LookIsDue(e, look, s.lo, s.last);
    var decided := Decided(e, look, s.lo);
    var leaders := LeaderRefs(decided);
    assert decided[..|decided|] == decided;
    if leaders != [] { LeaderRounds(e, look, s.lo, |decided|, leaders[|leaders| - 1]); }
  }

  lemma StaysOpen(q: Policy, look: Look, s: Progress)
    requires CanTake(q, look, s) && IsOpen(q, s)
    ensures var all, next := Concat(Commits(q.At(s.done), look, s)), Taking(q, look, s);
      && NoRepeats(all) && Elements(all) !! s.committed && next.committed == s.committed + Elements(all)
      && IsOpen(q, next)
  {
    hide CanTake, CanLook, Decided, Ready, NoRepeats, SettledIn, FromSlot;
    var e := q.At(s.done);
    OpenIsPoint(q, s);
    LookCommitsOnce(e, look, s);
    var next := Taking(q, look, s);
    if q.IsFixed() {
      assert q.At(next.done) == e;
    } else {
      CommitsEarlierRounds(e, look, s);
      assert Concat([]) == [];
    }
  }

  /** Integrity: over a whole run no block is output twice, nor one committed before. */
  lemma {:induction false} RunCommitsOnce(q: Policy, looks: seq<Look>, s: Progress)
    requires IsRun(q, looks, s) && IsOpen(q, s)
    ensures var all := Concat(Output(q, looks, s)); NoRepeats(all) && Elements(all) !! s.committed
    decreases |looks|
  {
    hide CanTake, CanLook, Decided, Ready, Next, IsOpen, NoRepeats, Commits, Policy.At;
    if looks == [] {
      NoElements();
    } else {
      StaysOpen(q, looks[0], s);
      var next := Taking(q, looks[0], s);
      RunCommitsOnce(q, looks[1..], next);
      var first, rest := Commits(q.At(s.done), looks[0], s), Output(q, looks[1..], next);
      ConcatAppend(first, rest);
      ConcatHasNoRepeats(Concat(first), Concat(rest));
    }
  }
}
