/** Validators that look at skipped slots again: after a restart the last decided slot is that of
    the last committed leader, and what was skipped since is decided anew. Such a validator stays
    behind a run without restarts, and outputs the same. */
module Recoveries {
  import opened Blocks
  import opened CommitRule
  import opened Safety
  import opened Agreement
  import opened Linearizers
  import opened Looks
  import opened TotalOrders

  // ---------- Runs in turn ----------

  /** A run and a run from its end make one. */
  lemma {:induction false} RunsInTurn(q: Policy, p: seq<Look>, p': seq<Look>, s: Progress)
    requires IsRun(q, p, s) && IsRun(q, p', End(q, p, s))
    ensures IsRun(q, p + p', s) && End(q, p + p', s) == End(q, p', End(q, p, s))
    ensures Output(q, p + p', s) == Output(q, p, s) + Output(q, p', End(q, p, s))
    decreases |p|
  {
    hide CanTake, Taking, Commits;
    if p == [] {
      assert p + p' == p';
    } else {
      assert (p + p')[1..] == p[1..] + p' && (p + p')[0] == p[0];
      var next := Taking(q, p[0], s);
      RunsInTurn(q, p[1..], p', next);
      AssociateOutputs(Commits(q.At(s.done), p[0], s), Output(q, p[1..], next), Output(q, p', End(q, p, s)));
    }
  }

  lemma RunOfOne(q: Policy, look: Look, s: Progress)
    requires CanTake(q, look, s)
    ensures IsRun(q, [look], s) && End(q, [look], s) == Taking(q, look, s)
    ensures Output(q, [look], s) == Commits(q.At(s.done), look, s)
  {
    hide CanTake, Taking, Commits;
    assert [look][1..] == [];
    assert IsRun(q, [], Taking(q, look, s));
  }

  // ---------- Skipped slots ----------

  /** The look decides the slots from `a` to `b` and commits none. */
  ghost predicate SkipsTo(e: Setting, look: Look, a: nat, b: nat, last: nat) {
    CanLook(e, look, a, last) && a + |Decided(e, look, a)| == b && LeaderRefs(Decided(e, look, a)) == []
  }

  /** In some view of the network all slots from `a` to `b` are skipped. */
  ghost predicate Skipped(e: Setting, a: nat, b: nat, last: nat) {
    a == b || exists look :: SkipsTo(e, look, a, b, last)
  }

  /** `s` is where `v` is, but for skipped slots that it is still to decide. */
  ghost predicate IsBehind(q: Policy, s: Progress, v: Progress) {
    s == v.(lo := s.lo) && Skipped(q.At(v.done), s.lo, v.lo, v.last)
  }

  lemma SkippingCommitsNothing(e: Setting, look: Look, s: Progress)
    requires CanLook(e, look, s.lo, s.last)
    ensures LeaderRefs(Decided(e, look, s.lo)) == [] ==>
      Commits(e, look, s) == [] && Next(e, look, s) == s.(lo := s.lo + |Decided(e, look, s.lo)|)
  {
    hide CanLook, Decided, LeaderRefs, Ready, Due;
    LookIsDue(e, look, s.lo, s.last);
  }

  lemma {:induction false} NoLeadersInPart(d: seq<LeaderStatus>, k: nat)
    requires k <= |d|
    ensures LeaderRefs(d) == LeaderRefs(d[..k]) + LeaderRefs(d[k..])
  {
    assert d == d[..k] + d[k..];
    LeaderRefsAppend(d[..k], d[k..]);
  }

  lemma SkipsRest(e: Setting, look: Look, a: nat, b: nat, last: nat, k: nat)
    requires SkipsTo(e, look, a, b, last) && a + k <= b
    ensures SkipsTo(e, look.Rest(k), a + k, b, last)
  {
    hide CanLook, Decided, LeaderRefs, Ready;
    NoLeadersInPart(Decided(e, look, a), k);
    CanLookOn(e, look, a, last, k);
    DecidedRest(e, look, a, k);
  }

  /** What a validator that is behind takes, the run it is behind takes too, unless it is only
      skipping what that run has skipped already. */
  lemma BehindTakes(q: Policy, s: Progress, v: Progress, look: Look) returns (more: seq<Look>)
    requires IsBehind(q, s, v) && CanTake(q, look, s)
    ensures IsRun(q, more, v) && Output(q, more, v) == Commits(q.At(s.done), look, s)
    ensures IsBehind(q, Taking(q, look, s), End(q, more, v))
    ensures more == [] || (|more| == 1 && End(q, more, v) == Taking(q, look, s))
  {
    hide CanTake, CanLook, Decided, LeaderRefs, Ready, Commits, Next, Policy.At;
    var e := q.At(s.done);
    if s.lo == v.lo {
      more := [look];
      RunOfOne(q, look, s);
    } else {
      var w :| SkipsTo(e, w, s.lo, v.lo, s.last);
      LooksAgree(e, w, look, s);
      if Decided(e, look, s.lo) <= Decided(e, w, s.lo) {
        more := [];
        SkipsLess(q, s, v, w, look);
      } else {
        more := SkipsMore(q, s, v, w, look);
      }
    }
  }

  lemma SkipsLess(q: Policy, s: Progress, v: Progress, w: Look, look: Look)
    requires s == v.(lo := s.lo) && SkipsTo(q.At(s.done), w, s.lo, v.lo, s.last) && CanTake(q, look, s)
    requires Decided(q.At(s.done), look, s.lo) <= Decided(q.At(s.done), w, s.lo)
    ensures Commits(q.At(s.done), look, s) == [] && IsBehind(q, Taking(q, look, s), v)
  {
    hide CanTake, CanLook, Decided, LeaderRefs, Ready, Commits, Next, Policy.At;
    var e := q.At(s.done);
    var d, k := Decided(e, w, s.lo), |Decided(e, look, s.lo)|;
    NoLeadersInPart(d, k);
    assert d[..k] == Decided(e, look, s.lo);
    SkippingCommitsNothing(e, look, s);
    SkipsRest(e, w, s.lo, v.lo, s.last, k);
  }

  lemma SkipsMore(q: Policy, s: Progress, v: Progress, w: Look, look: Look) returns (more: seq<Look>)
    requires s == v.(lo := s.lo) && SkipsTo(q.At(s.done), w, s.lo, v.lo, s.last) && CanTake(q, look, s)
    requires Decided(q.At(s.done), w, s.lo) < Decided(q.At(s.done), look, s.lo)
    ensures IsRun(q, more, v) && Output(q, more, v) == Commits(q.At(s.done), look, s)
    ensures |more| == 1 && End(q, more, v) == Taking(q, look, s)
  {
    hide CanTake, CanLook, Decided, LeaderRefs, Ready, Commits, Next, Policy.At, FirstCommits, Partway;
    var e := q.At(s.done);
    var k := |Decided(e, w, s.lo)|;
    SamePoint(e, w, look, s);
    SkippingCommitsNothing(e, w, s);
    CutLook(e, look, s, k);
    CanTakeRest(q, look, s, k);
    more := [look.Rest(k)];
    RunOfOne(q, look.Rest(k), v);
  }

  // ---------- Skips in two views ----------

  /** The blocks of two looks together. */
  ghost function Both(a: Look, b: Look, limit: nat): Look {
    Look(a.dag + b.dag, if a.hi <= b.hi then b.hi else a.hi, limit)
  }

  lemma BothIsView(n: Network, v: Dag, w: Dag, gc: nat)
    requires IsView(n, View(v, gc)) && IsView(n, View(w, gc))
    ensures IsView(n, View(v + w, gc)) && (forall r | r in v || r in w :: r in v + w)
  {
    var both := v + w;
    forall r, a | r in both && a in both[r].ancestors && a.round > gc ensures a in both {
      if r in w { assert both[r] == w[r]; } else { assert both[r] == v[r]; }
    }
  }

  /** Both looks may be taken as one, from the slot of the earlier. */
  lemma CanLookAtBoth(e: Setting, a: Look, lo: nat, b: Look, lo': nat, last: nat, limit: nat)
    requires CanLook(e, a, lo, last) && CanLook(e, b, lo', last) && lo <= lo'
    ensures CanLook(e, Both(a, b, limit), lo, last)
    ensures forall k: nat | lo <= k :: CoversFrom(e.n, View(Both(a, b, limit).dag, Gc(last, e.gcDepth)), e.sched, k)
  {
    hide DistinctSlots, Ready, Walkable, Sound;
    BothIsView(e.n, a.dag, b.dag, Gc(last, e.gcDepth));
  }

  lemma {:induction false} LeadersAreCommits(d: seq<LeaderStatus>)
    ensures LeaderRefs(d) == [] <==> forall i | 0 <= i < |d| :: !d[i].Commit?
  {
    if d != [] {
      LeadersAreCommits(d[1..]);
      assert forall i | 0 < i < |d| :: d[i] == d[1..][i - 1];
    }
  }

  lemma {:induction false} DecidedAtLeast(s: seq<LeaderStatus>, k: nat)
    requires k <= |s| && forall i | 0 <= i < k :: s[i].IsDecided()
    ensures k <= |TakeDecided(s)| && TakeDecided(s)[..k] == s[..k]
  {
    if k > 0 { DecidedAtLeast(s[1..], k - 1); }
  }

  lemma {:induction false} DecidedAreDecided(s: seq<LeaderStatus>, i: nat)
    requires i < |TakeDecided(s)|
    ensures i < |s| && TakeDecided(s)[i] == s[i] && s[i].IsDecided()
  {
    if i > 0 { DecidedAreDecided(s[1..], i - 1); }
  }

  ghost predicate HasStatus(e: Setting, look: Look, k: nat, status: LeaderStatus) {
    k < look.hi && Ready(look.dag, e.sched, k) && StatusAt(e.n.c, look.dag, e.sched, k, look.hi) == status
  }

  /** What a look decides is decided for good: in every larger view. */
  lemma DecidedForGood(e: Setting, look: Look, lo: nat, last: nat, i: nat, larger: Look)
    requires CanLook(e, look, lo, last) && i < |Decided(e, look, lo)| && look.hi <= larger.hi
    requires CoversFrom(e.n, View(larger.dag, Gc(last, e.gcDepth)), e.sched, lo + i)
    requires forall r | r in look.dag :: r in larger.dag
    ensures HasStatus(e, larger, lo + i, Decided(e, look, lo)[i]) && Decided(e, look, lo)[i].IsDecided()
  {
    hide Statuses, TakeDecided, StatusAt, Walkable, DistinctSlots, Sound, IsView;
    var gc := Gc(last, e.gcDepth);
    DecidedAreDecided(Statuses(e.n.c, look.dag, e.sched, lo, look.hi), i);
    StatusesAreStatusAt(e.n.c, look.dag, e.sched, lo, look.hi, i);
    CoversOn(e, look.dag, gc, lo, gc, lo + i);
    DecisionsAreFinal(e.n, View(look.dag, gc), look.hi, View(larger.dag, gc), larger.hi, e.sched, lo + i);
  }

  /** Slots that are decided one by one are what a look decides. */
  lemma AllDecided(e: Setting, look: Look, lo: nat, last: nat, d: seq<LeaderStatus>)
    requires CanLook(e, look, lo, last) && look.limit == |d| && lo + |d| <= look.hi
    requires forall i | 0 <= i < |d| :: HasStatus(e, look, lo + i, d[i]) && d[i].IsDecided()
    ensures Decided(e, look, lo) == d
  {
    hide Statuses, TakeDecided, StatusAt, Walkable, CoversFrom, DistinctSlots, Ready;
    var s := Statuses(e.n.c, look.dag, e.sched, lo, look.hi);
    forall i | 0 <= i < |d| ensures s[i] == d[i] {
      StatusesAreStatusAt(e.n.c, look.dag, e.sched, lo, look.hi, i);
    }
    DecidedAtLeast(s, |d|);
    assert s[..|d|] == d;
  }

  /** Slots decided one after the other, in whatever views, are decided in one view. */
  lemma DecidedInTurn(e: Setting, a: Look, b: Look, x: nat, y: nat, last: nat, k: nat)
    requires CanLook(e, a, x, last) && CanLook(e, b, y, last) && x + |Decided(e, a, x)| == y
    requires k <= |Decided(e, b, y)|
    ensures var d := Decided(e, a, x) + Decided(e, b, y)[..k];
      var both := Both(a, b, |d|); CanLook(e, both, x, last) && Decided(e, both, x) == d
  {
    hide CanLook, Decided, HasStatus, Ready, CoversFrom;
    var d := Decided(e, a, x) + Decided(e, b, y)[..k];
    var both := Both(a, b, |d|);
    CanLookAtBoth(e, a, x, b, y, last, |d|);
    DecidedRest(e, b, y, k);
    DecidedRest(e, a, x, y - x);
    forall i | 0 <= i < |d| ensures HasStatus(e, both, x + i, d[i]) && d[i].IsDecided() {
      if i < y - x {
        DecidedForGood(e, a, x, last, i, both);
      } else {
        DecidedForGood(e, b, y, last, i - (y - x), both);
        assert y + (i - (y - x)) == x + i;
      }
    }
    AllDecided(e, both, x, last, d);
  }

  /** So are slots skipped one after the other. */
  lemma SkipsInTurn(e: Setting, a: Look, b: Look, x: nat, y: nat, z: nat, last: nat)
    requires SkipsTo(e, a, x, y, last) && SkipsTo(e, b, y, z, last)
    ensures Skipped(e, x, z, last)
  {
    hide CanLook, Decided, LeaderRefs, Ready, Both;
    var p, r := Decided(e, a, x), Decided(e, b, y);
    DecidedInTurn(e, a, b, x, y, last, |r|);
    assert r[..|r|] == r;
    LeaderRefsAppend(p, r);
    assert SkipsTo(e, Both(a, b, |p + r|), x, z, last);
  }

  // ---------- The last committed leader ----------

  /** How many decisions there are up to the last committed leader. */
  ghost function UpToLeader(d: seq<LeaderStatus>): (j: nat)
    ensures j <= |d| && (j > 0 <==> LeaderRefs(d) != [])
  {
    if LeaderRefs(d) == [] then 0 else 1 + UpToLeader(d[1..])
  }

  lemma {:induction false} UpToLeaderEndsThere(d: seq<LeaderStatus>)
    ensures var j, leaders := UpToLeader(d), LeaderRefs(d);
      && LeaderRefs(d[j..]) == []
      && (j > 0 ==> d[j - 1].Commit? && d[j - 1].block.ref == leaders[|leaders| - 1])
  {
    if LeaderRefs(d) != [] {
      var rest := d[1..];
      var j := UpToLeader(rest);
      UpToLeaderEndsThere(rest);
      assert d[j + 1..] == rest[j..];
      assert LeaderRefs(d) == (if d[0].Commit? then [d[0].block.ref] else []) + LeaderRefs(rest);
    } else {
      assert d[0..] == d;
    }
  }

  /** The point just after the last leader that a look commits. */
  ghost function AtLeader(e: Setting, look: Look, s: Progress): Progress
    requires CanLook(e, look, s.lo, s.last)
  {
    Partway(e, look, s, UpToLeader(Decided(e, look, s.lo)))
  }

  /** After the last leader that a look commits it only skips, under the same schedule. */
  lemma OnlySkipsAfterLeader(q: Policy, look: Look, s: Progress)
    requires CanTake(q, look, s)
    ensures IsBehind(q, AtLeader(q.At(s.done), look, s), Taking(q, look, s))
  {
    hide CanTake, CanLook, Decided, LeaderRefs, Ready, Commits, Next, Partway, Policy.At, UpToLeader, FirstCommits;
    var e := q.At(s.done);
    var d := Decided(e, look, s.lo);
    var j := UpToLeader(d);
    UpToLeaderEndsThere(d);
    if j == |d| {
      AllTheWay(e, look, s);
    } else {
      var mid, rest := Partway(e, look, s, j), look.Rest(j);
      CutLook(e, look, s, j);
      CanTakeRest(q, look, s, j);
      DecidedRest(e, look, s.lo, j);
      PartwayLo(e, look, s, j);
      SkippingCommitsNothing(e, rest, mid);
      assert SkipsTo(e, rest, mid.lo, Taking(q, look, s).lo, mid.last);
    }
  }

  lemma PartwayLo(e: Setting, look: Look, s: Progress, k: nat)
    requires CanLook(e, look, s.lo, s.last) && k <= |Decided(e, look, s.lo)|
    ensures Partway(e, look, s, k).lo == s.lo + k
  {}

  /** The slot before that point is the slot of the leader. */
  lemma LeaderSlot(e: Setting, look: Look, s: Progress)
    requires CanLook(e, look, s.lo, s.last)
    ensures var leaders, at := LeaderRefs(Decided(e, look, s.lo)), AtLeader(e, look, s);
      leaders != [] ==>
        && s.lo < at.lo && e.sched(at.lo - 1) == leaders[|leaders| - 1].SlotOf()
        && at.last == leaders[|leaders| - 1].round
  {
    hide CanLook, LeaderRefs, Ready, UpToLeader, Due, After, SubDags, Statuses, StatusAt, TakeDecided;
    var d := Decided(e, look, s.lo);
    var j := UpToLeader(d);
    UpToLeaderEndsThere(d);
    if j > 0 {
      var st := Statuses(e.n.c, look.dag, e.sched, s.lo, look.hi);
      DecidedIsPrefix(st, j - 1);
      StatusesAreStatusAt(e.n.c, look.dag, e.sched, s.lo, look.hi, j - 1);
      hide Decided;
      NoLeadersInPart(d, j);
      FirstPartIsDue(e, look, s.lo, s.last, j);
    }
  }

  /** A look that stops there leaves nothing open either. */
  lemma OpenAtLeader(q: Policy, look: Look, s: Progress)
    requires CanTake(q, look, s) && IsOpen(q, s)
    ensures IsOpen(q, AtLeader(q.At(s.done), look, s))
  {
    hide CanLook, Decided, LeaderRefs, Ready, Commits, Next, Partway, Policy.At, UpToLeader, FirstCommits, IsOpen;
    var e := q.At(s.done);
    var j := UpToLeader(Decided(e, look, s.lo));
    FirstIsPartway(e, look, s, j);
    FewCommits(e, look, s, j);
    forall k: nat | k < j ensures q.At(s.done + FirstCommits(e, look.First(j), s, k)) == e {
      FirstIsPartway(e, look, s, k);
      FirstIsPartway(e, look.First(j), s, k);
      assert look.First(j).First(k) == look.First(k);
    }
    assert CanTake(q, look.First(j), s);
    hide CanTake;
    StaysOpen(q, look.First(j), s);
  }

  /** What is open stays open where more is decided. */
  lemma OpenLater(q: Policy, s: Progress, v: Progress)
    requires IsOpen(q, s) && s == v.(lo := s.lo) && s.lo <= v.lo
    ensures IsOpen(q, v)
  {
    hide SettledIn, FromSlot;
    if q.IsFixed() {
      forall r | r in v.committed ensures !FromSlot(q.elected(v.done), v.lo, r) {
        StillFrom(q.elected(v.done), s.lo, v.lo, r);
      }
    }
  }

  // ---------- Standing ----------

  /** A validator at `s` stands on a run from `start` that is now at `v`: it is behind that run by
      skipped slots only, and so it is if it goes back to the slot after the last leader, `base`. */
  ghost predicate StandsOn(q: Policy, start: Progress, looks: seq<Look>, v: Progress, s: Progress, base: nat) {
    && IsRun(q, looks, start) && End(q, looks, start) == v && v.done == start.done + Output(q, looks, start)
    && IsBehind(q, s, v) && base <= s.lo && IsBehind(q, v.(lo := base), v) && IsOpen(q, v.(lo := base))
  }

  /** Going back to the slot after the last leader. */
  lemma StandsAgain(q: Policy, start: Progress, looks: seq<Look>, v: Progress, s: Progress, base: nat)
    requires StandsOn(q, start, looks, v, s, base)
    ensures StandsOn(q, start, looks, v, s.(lo := base), base)
  {
    hide IsRun, End, Output, Skipped, IsOpen;
  }

  /** Taking a look, whatever it decides again. */
  lemma StandsFurther(q: Policy, start: Progress, looks: seq<Look>, v: Progress, s: Progress, base: nat, look: Look)
    returns (looks': seq<Look>, v': Progress, base': nat)
    requires StandsOn(q, start, looks, v, s, base) && CanTake(q, look, s)
    ensures StandsOn(q, start, looks', v', Taking(q, look, s), base')
    ensures base' == if LeaderRefs(Decided(q.At(s.done), look, s.lo)) == [] then base
                     else AtLeader(q.At(s.done), look, s).lo
  {
    hide CanTake, CanLook, Decided, LeaderRefs, Ready, Commits, Next, IsRun, End, Output, Policy.At, IsOpen, Taking,
      AtLeader, Skipped;
    var e := q.At(s.done);
    var more := BehindTakes(q, s, v, look);
    RunsInTurn(q, looks, more, start);
    AssociateOutputs(start.done, Output(q, looks, start), Output(q, more, v));
    looks', v' := looks + more, End(q, more, v);
    CommitsIffLeaders(e, look, s);
    NextIsTaking(q, look, s);
    NoOutput(q, v);
    if LeaderRefs(Decided(e, look, s.lo)) == [] {
      base' := base;
      SkippingCommitsNothing(e, look, s);
      if more != [] { AnchorStays(q, v, base, more); }
      assert v'.(lo := base) == v.(lo := base);
    } else {
      base' := AtLeader(e, look, s).lo;
      OnlySkipsAfterLeader(q, look, s);
      OpenLater(q, v.(lo := base), s);
      OpenAtLeader(q, look, s);
      SkippedGoesUp(q.At(v'.done), base', v'.lo, v'.last);
    }
  }

  lemma NextIsTaking(q: Policy, look: Look, s: Progress)
    requires CanTake(q, look, s)
    ensures Taking(q, look, s) == Next(q.At(s.done), look, s)
    ensures Taking(q, look, s).done == s.done + Commits(q.At(s.done), look, s)
  {
    hide CanTake, Commits;
  }

  lemma NoOutput(q: Policy, v: Progress)
    ensures IsRun(q, [], v) && Output(q, [], v) == [] && End(q, [], v) == v
  {}

  lemma SkippedGoesUp(e: Setting, a: nat, b: nat, last: nat)
    requires Skipped(e, a, b, last)
    ensures a <= b
  {}

  /** A look commits something if and only if it decides to commit a leader. */
  lemma CommitsIffLeaders(e: Setting, look: Look, s: Progress)
    requires CanLook(e, look, s.lo, s.last)
    ensures Commits(e, look, s) == [] <==> LeaderRefs(Decided(e, look, s.lo)) == []
  {
    hide CanLook, Decided, LeaderRefs, Ready, Due, SubDags;
    LookIsDue(e, look, s.lo, s.last);
    OnePerLeader(look.dag, e.gcDepth, s.committed, s.last, LeaderRefs(Decided(e, look, s.lo)));
  }

  /** While nothing is committed the run only skips. */
  lemma AnchorStays(q: Policy, v: Progress, base: nat, more: seq<Look>)
    requires |more| == 1 && IsRun(q, more, v) && Output(q, more, v) == []
    requires Skipped(q.At(v.done), base, v.lo, v.last)
    ensures var v' := End(q, more, v); v' == v.(lo := v'.lo) && Skipped(q.At(v.done), base, v'.lo, v.last)
  {
    hide CanTake, CanLook, Decided, LeaderRefs, Ready, Commits, Next, Policy.At;
    var e, look := q.At(v.done), more[0];
    assert more == [look];
    RunOfOne(q, look, v);
    CommitsIffLeaders(e, look, v);
    SkippingCommitsNothing(e, look, v);
    var next := Taking(q, look, v);
    assert SkipsTo(e, look, v.lo, next.lo, v.last);
    if base != v.lo {
      var w :| SkipsTo(e, w, base, v.lo, v.last);
      SkipsInTurn(e, w, look, base, v.lo, next.lo, v.last);
    }
  }

  /** Two validators that stand on runs from the same start, restarted or not, have output what
      extends one another. */
  lemma StandingsExtendEachOther(q: Policy, start: Progress, p: seq<Look>, v: Progress, s: Progress, base: nat,
                                 p': seq<Look>, v': Progress, s': Progress, base': nat)
    requires StandsOn(q, start, p, v, s, base) && StandsOn(q, start, p', v', s', base')
    ensures s.done <= s'.done || s'.done <= s.done
  {
    hide IsRun, End, Output, Skipped, IsOpen;
    RunsExtendEachOther(q, p, p', start);
    ExtendBoth(start.done, Output(q, p, start), Output(q, p', start));
  }

  // ---------- Catching up ----------

  /** A run that outputs less than another goes on to output the rest. */
  lemma {:induction false} RunGoesOn(e: Policy, p: seq<Look>, q: seq<Look>, s: Progress) returns (rest: seq<Look>)
    requires IsRun(e, p, s) && IsRun(e, q, s) && |Output(e, p, s)| < |Output(e, q, s)|
    ensures IsRun(e, rest, End(e, p, s)) && Output(e, q, s) == Output(e, p, s) + Output(e, rest, End(e, p, s))
    decreases |p| + |q|
  {
    hide CanTake, CanLook, Decided, Ready, Next, Policy.At, Commits;
    if p == [] {
      rest := q;
    } else {
      var at := e.At(s.done);
      LooksAgree(at, p[0], q[0], s);
      var s', same;
      if Decided(at, p[0], s.lo) <= Decided(at, q[0], s.lo) {
        var q';
        s', q', same := TakeFirstLook(e, p, q, s);
        hide Output, IsRun, End;
        rest := RunGoesOn(e, p[1..], q', s');
        AssociateOutputs(same, Output(e, p[1..], s'), Output(e, rest, End(e, p, s)));
      } else {
        var p';
        s', p', same := TakeFirstLook(e, q, p, s);
        hide Output, IsRun, End;
        rest := RunGoesOn(e, p', q[1..], s');
        AssociateOutputs(same, Output(e, p', s'), Output(e, rest, End(e, p, s)));
      }
    }
  }

  /** The look commits one leader, as its last decision. */
  ghost predicate LeadsTo(e: Setting, look: Look, lo: nat, last: nat, leader: BlockRef)
    ensures LeadsTo(e, look, lo, last, leader) ==> CanLook(e, look, lo, last)
  {
    && CanLook(e, look, lo, last)
    && var d := Decided(e, look, lo); LeaderRefs(d) == [leader] && UpToLeader(d) == |d|
  }

  /** The decision that commits the first leader. */
  ghost function FirstLeader(d: seq<LeaderStatus>): (i: nat)
    requires LeaderRefs(d) != []
    ensures i < |d| && d[i].Commit? && forall j | 0 <= j < i :: !d[j].Commit?
  {
    if d[0].Commit? then 0 else 1 + FirstLeader(d[1..])
  }

  lemma {:induction false} SkipsThenLeader(d: seq<LeaderStatus>)
    requires d != [] && d[|d| - 1].Commit? && forall j | 0 <= j < |d| - 1 :: !d[j].Commit?
    ensures LeaderRefs(d) == [d[|d| - 1].block.ref] && UpToLeader(d) == |d|
  {
    if |d| > 1 {
      SkipsThenLeader(d[1..]);
    } else {
      assert d[1..] == [];
    }
  }

  /** What a look commits first, it commits in any view. */
  lemma LeaderInAnyView(e: Setting, look: Look, v: Progress, w: Look, s: Progress, leader: BlockRef)
    requires CanLook(e, look, v.lo, v.last) && LeadsTo(e, w, s.lo, s.last, leader) && s == v.(lo := s.lo)
    requires LeaderRefs(Decided(e, look, v.lo)) != []
      && leader == Decided(e, look, v.lo)[FirstLeader(Decided(e, look, v.lo))].block.ref
    ensures Commits(e, look, v) != [] && Commits(e, w, s) == [Commits(e, look, v)[0]]
  {
    hide CanLook, Decided, LeaderRefs, Ready, UpToLeader, FirstLeader, Due, SubDags, After;
    var d := Decided(e, look, v.lo);
    var k := FirstLeader(d) + 1;
    SkipsThenLeader(d[..k]);
    FirstPartIsDue(e, look, v.lo, v.last, k);
    LookIsDue(e, w, s.lo, s.last);
    OnePerLeader(look.dag, e.gcDepth, v.committed, v.last, [leader]);
    CutLook(e, look, v, k);
    LooksShare(e, look, v.lo, w, s.lo, v.last);
    SameCommits(look.dag, w.dag, e.gcDepth, v.committed, v.last, [leader]);
  }

  /** If all slots up to a look are skipped, its first leader is the next one in a single view. */
  lemma LeaderInOneView(e: Setting, look: Look, base: nat, lo: nat, last: nat) returns (w: Look, leader: BlockRef)
    requires CanLook(e, look, lo, last) && Skipped(e, base, lo, last) && LeaderRefs(Decided(e, look, lo)) != []
    ensures LeadsTo(e, w, base, last, leader)
    ensures leader == Decided(e, look, lo)[FirstLeader(Decided(e, look, lo))].block.ref
  {
    hide CanLook, Decided, LeaderRefs, Ready, UpToLeader, FirstLeader, Both;
    var d := Decided(e, look, lo);
    var k := FirstLeader(d) + 1;
    leader := d[k - 1].block.ref;
    if base == lo {
      w := look.First(k);
      FirstIsPartway(e, look, Progress(lo, {}, last, []), k);
      SkipsThenLeader(d[..k]);
    } else {
      var skips :| SkipsTo(e, skips, base, lo, last);
      DecidedInTurn(e, skips, look, base, lo, last, k);
      SkipsAndLeader(Decided(e, skips, base), d[..k]);
      w := Both(skips, look, |Decided(e, skips, base) + d[..k]|);
    }
  }

  lemma SkipsAndLeader(skips: seq<LeaderStatus>, d: seq<LeaderStatus>)
    requires LeaderRefs(skips) == [] && d != [] && d[|d| - 1].Commit? && forall j | 0 <= j < |d| - 1 :: !d[j].Commit?
    ensures LeaderRefs(skips + d) == [d[|d| - 1].block.ref] && UpToLeader(skips + d) == |skips + d|
  {
    hide LeaderRefs, UpToLeader;
    LeadersAreCommits(skips);
    SkipsThenLeader(skips + d);
  }

  /** The next sub-dag that a run outputs is that of the next leader in a single view, seen from
      any slot from which all is skipped. */
  lemma {:induction false} NextOutput(q: Policy, looks: seq<Look>, v: Progress, base: nat)
    returns (w: Look, leader: BlockRef)
    requires IsRun(q, looks, v) && Output(q, looks, v) != [] && Skipped(q.At(v.done), base, v.lo, v.last)
    ensures LeadsTo(q.At(v.done), w, base, v.last, leader)
    ensures Commits(q.At(v.done), w, v.(lo := base)) == [Output(q, looks, v)[0]]
    decreases |looks|
  {
    hide CanTake, CanLook, Decided, LeaderRefs, Ready, Commits, Next, Policy.At, LeadsTo, FirstLeader, Skipped;
    var e, look := q.At(v.done), looks[0];
    CommitsIffLeaders(e, look, v);
    if LeaderRefs(Decided(e, look, v.lo)) == [] {
      RunOfOne(q, look, v);
      AnchorStays(q, v, base, [look]);
      var next := Taking(q, look, v);
      w, leader := NextOutput(q, looks[1..], next, base);
      assert next.(lo := base) == v.(lo := base);
    } else {
      w, leader := LeaderInOneView(e, look, base, v.lo, v.last);
      LeaderInAnyView(e, look, v, w, v.(lo := base), leader);
    }
  }
}
