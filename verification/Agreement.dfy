/** Agreement over whole runs of the commit rule: whatever two validators hold, they
    never decide a slot differently, and the leader sequences they output extend one
    another. */
module Agreement {
  import opened Committees
  import opened Blocks
  import opened CommitRule
  import opened Safety

  /** The leader slots in commit order; rounds never go down. */
  ghost predicate InRoundOrder(sched: nat -> Slot) {
    forall i: nat, j: nat {:trigger sched(i), sched(j)} | i <= j :: sched(i).round <= sched(j).round
  }

  /** The DAG can be asked about every slot from `lo` on. */
  ghost predicate Ready(v: Dag, sched: nat -> Slot, lo: nat) {
    InRoundOrder(sched) && forall k: nat | lo <= k :: Walkable(v, sched(k).round)
  }

  /** The view covers every slot from `lo` on. */
  ghost predicate CoversFrom(n: Network, v: View, sched: nat -> Slot, lo: nat)
    ensures CoversFrom(n, v, sched, lo) ==> Ready(v.dag, sched, lo)
    ensures CoversFrom(n, v, sched, lo) ==> forall k: nat | lo <= k :: Covers(n, v, sched(k).round)
  {
    InRoundOrder(sched) && Covers(n, v, sched(lo).round)
  }

  /** One slot: the direct rule first, then the indirect rule over the later statuses. */
  ghost function Decide(c: Committee, v: Dag, slot: Slot, later: seq<LeaderStatus>): LeaderStatus
    requires Walkable(v, slot.round) && CommitsIn(v, later)
  {
    var direct := DirectDecision(c, v, slot, slot.round + 2);
    if direct.IsDecided() then direct
    else IndirectDecision(c, v, slot, slot.round + 2, DEFAULT_WAVE_LENGTH, later)
  }

  ghost predicate IsFor(status: LeaderStatus, slot: Slot) {
    match status
    case Commit(block) => block.ref.SlotOf() == slot
    case Skip(s) => s == slot
    case Undecided(s) => s == slot
  }

  lemma DecideIsFor(c: Committee, v: Dag, slot: Slot, later: seq<LeaderStatus>)
    requires Walkable(v, slot.round) && CommitsIn(v, later)
    ensures IsFor(Decide(c, v, slot, later), slot) && CommitsIn(v, [Decide(c, v, slot, later)] + later)
  {
    hide Supported, Reaches, Certifies, Blamed;
  }

  /** The statuses of slots `lo` to `hi`, decided from the last one down. */
  ghost function Statuses(c: Committee, v: Dag, sched: nat -> Slot, lo: nat, hi: nat): (r: seq<LeaderStatus>)
    requires lo <= hi && Ready(v, sched, lo)
    ensures |r| == hi - lo && CommitsIn(v, r)
    decreases hi - lo
  {
    if lo == hi then [] else
    var later := Statuses(c, v, sched, lo + 1, hi);
    DecideIsFor(c, v, sched(lo), later);
    [Decide(c, v, sched(lo), later)] + later
  }

  ghost function StatusAt(c: Committee, v: Dag, sched: nat -> Slot, i: nat, hi: nat): (s: LeaderStatus)
    requires i < hi && Ready(v, sched, i)
    ensures IsFor(s, sched(i))
  {
    var later := Statuses(c, v, sched, i + 1, hi);
    DecideIsFor(c, v, sched(i), later);
    Decide(c, v, sched(i), later)
  }

  /** The statuses form one list: its k-th entry is the status of slot lo + k. */
  lemma {:induction false} StatusesAreStatusAt(c: Committee, v: Dag, sched: nat -> Slot, lo: nat, hi: nat, k: nat)
    requires lo + k < hi && Ready(v, sched, lo)
    ensures Statuses(c, v, sched, lo, hi)[k] == StatusAt(c, v, sched, lo + k, hi)
    decreases k
  {
    hide Decide, Walkable, StatusAt;
    StatusesCons(c, v, sched, lo, hi);
    if k > 0 { StatusesAreStatusAt(c, v, sched, lo + 1, hi, k - 1); }
  }

  lemma StatusesCons(c: Committee, v: Dag, sched: nat -> Slot, lo: nat, hi: nat)
    requires lo < hi && Ready(v, sched, lo)
    ensures Statuses(c, v, sched, lo, hi) == [StatusAt(c, v, sched, lo, hi)] + Statuses(c, v, sched, lo + 1, hi)
  {
    hide Decide, Walkable;
  }

  /** Where the anchor comes from: slot j is committed, and every slot before it that
      is late enough to be an anchor is skipped. */
  ghost predicate IsAnchorIndex(c: Committee, v: Dag, sched: nat -> Slot, lo: nat, hi: nat, round: nat, j: nat)
    requires lo <= hi && Ready(v, sched, lo)
  {
    && lo <= j < hi && round <= sched(j).round
    && StatusAt(c, v, sched, j, hi).Commit?
    && forall k | lo <= k < j && round <= sched(k).round :: StatusAt(c, v, sched, k, hi).Skip?
  }

  lemma {:induction false} AnchorIndex(c: Committee, v: Dag, sched: nat -> Slot, lo: nat, hi: nat, round: nat)
    returns (j: nat)
    requires lo <= hi && Ready(v, sched, lo)
    requires var a := FindAnchor(round, Statuses(c, v, sched, lo, hi)); a.Some? && a.value.Commit?
    ensures IsAnchorIndex(c, v, sched, lo, hi, round, j)
    ensures FindAnchor(round, Statuses(c, v, sched, lo, hi)) == Some(StatusAt(c, v, sched, j, hi))
    decreases hi - lo
  {
    hide Decide, Walkable, StatusAt, CommitsIn;
    assert lo < hi;
    hide FindAnchor, Statuses;
    var first := StatusAt(c, v, sched, lo, hi);
    var later := Statuses(c, v, sched, lo + 1, hi);
    StatusesCons(c, v, sched, lo, hi);
    FindAnchorCons(round, first, later);
    if round <= sched(lo).round && !first.Skip? {
      j := lo;
    } else {
      j := AnchorIndex(c, v, sched, lo + 1, hi, round);
    }
  }

  lemma {:induction false} FindsAnchor(c: Committee, v: Dag, sched: nat -> Slot, lo: nat, hi: nat, round: nat, j: nat)
    requires lo <= hi && Ready(v, sched, lo)
    requires IsAnchorIndex(c, v, sched, lo, hi, round, j)
    ensures FindAnchor(round, Statuses(c, v, sched, lo, hi)) == Some(StatusAt(c, v, sched, j, hi))
    decreases hi - lo
  {
    hide Decide, Walkable, FindAnchor, StatusAt, CommitsIn;
    var first := StatusAt(c, v, sched, lo, hi);
    var later := Statuses(c, v, sched, lo + 1, hi);
    StatusesCons(c, v, sched, lo, hi);
    FindAnchorCons(round, first, later);
    if lo < j { FindsAnchor(c, v, sched, lo + 1, hi, round, j); }
  }

  // ---------- Agreement ----------

  /** How the status of a slot came about: directly, or through the anchor at j. */
  ghost predicate Through(n: Network, v: View, sched: nat -> Slot, i: nat, hi: nat, j: nat)
    requires i < hi && Ready(v.dag, sched, i)
  {
    && IsAnchorIndex(n.c, v.dag, sched, i + 1, hi, sched(i).round + 3, j)
    && var anchor := StatusAt(n.c, v.dag, sched, j, hi).block;
    && anchor.ref in v.dag && v.dag[anchor.ref] == anchor
    && StatusAt(n.c, v.dag, sched, i, hi) == Anchored(n, v, sched(i), anchor.ref)
  }

  lemma DecidedHow(n: Network, v: View, sched: nat -> Slot, i: nat, hi: nat) returns (j: nat)
    requires i < hi && Ready(v.dag, sched, i)
    requires StatusAt(n.c, v.dag, sched, i, hi).IsDecided() && !Direct(n, v, sched(i)).IsDecided()
    ensures Through(n, v, sched, i, hi, j)
  {
    hide Walkable, DirectDecision, AnchorDecision;
    var later := Statuses(n.c, v.dag, sched, i + 1, hi);
    AnchorIsInDag(v.dag, sched(i).round + 3, later);
    j := AnchorIndex(n.c, v.dag, sched, i + 1, hi, sched(i).round + 3);
  }

  /** A direct decision in one view and any decision in another are the same. */
  lemma DirectAgreesWithAny(n: Network, v: View, hi: nat, w: View, hi': nat, sched: nat -> Slot, i: nat)
    requires i < hi && i < hi' && CoversFrom(n, v, sched, i) && CoversFrom(n, w, sched, i)
    requires Direct(n, v, sched(i)).IsDecided() && StatusAt(n.c, w.dag, sched, i, hi').IsDecided()
    ensures StatusAt(n.c, w.dag, sched, i, hi') == Direct(n, v, sched(i))
  {
    hide Walkable, DirectDecision, AnchorDecision, Sound, IsView;
    if Direct(n, w, sched(i)).IsDecided() {
      DirectDecisionsAgree(n, v, w, sched(i));
    } else {
      var j := DecidedHow(n, w, sched, i, hi');
      var anchor := StatusAt(n.c, w.dag, sched, j, hi').block;
      if Direct(n, v, sched(i)).Commit? {
        DirectCommitBinds(n, v, w, sched(i), anchor.ref);
      } else {
        DirectSkipBinds(n, v, w, sched(i), anchor.ref);
      }
    }
  }

  /** Two validators that both decide a slot decide it alike: both skip it, or both
      commit the same block. */
  lemma {:induction false} SlotAgreement(n: Network, v: View, hi: nat, w: View, hi': nat, sched: nat -> Slot, i: nat)
    requires i < hi && i < hi' && CoversFrom(n, v, sched, i) && CoversFrom(n, w, sched, i)
    requires StatusAt(n.c, v.dag, sched, i, hi).IsDecided() && StatusAt(n.c, w.dag, sched, i, hi').IsDecided()
    ensures StatusAt(n.c, v.dag, sched, i, hi) == StatusAt(n.c, w.dag, sched, i, hi')
    decreases hi - i
  {
    hide Walkable, DirectDecision, AnchorDecision, Sound, IsView, Covers, Statuses;
    if Direct(n, v, sched(i)).IsDecided() {
      DirectAgreesWithAny(n, v, hi, w, hi', sched, i);
    } else if Direct(n, w, sched(i)).IsDecided() {
      DirectAgreesWithAny(n, w, hi', v, hi, sched, i);
    } else {
      var j := DecidedHow(n, v, sched, i, hi);
      var j' := DecidedHow(n, w, sched, i, hi');
      var first := if j <= j' then j else j';
      SlotAgreement(n, v, hi, w, hi', sched, first);
      AnchorDecisionsAgree(n, v, w, sched(i), StatusAt(n.c, v.dag, sched, first, hi).block.ref);
    }
  }

  /** A decision, direct or indirect, is final: no growth of the DAG loses or changes it. */
  lemma {:induction false} DecisionsAreFinal(n: Network, v: View, hi: nat, w: View, hi': nat, sched: nat -> Slot,
                                             i: nat)
    requires i < hi <= hi' && CoversFrom(n, v, sched, i) && CoversFrom(n, w, sched, i)
    requires forall r | r in v.dag && r.round >= sched(i).round :: r in w.dag
    requires StatusAt(n.c, v.dag, sched, i, hi).IsDecided()
    ensures StatusAt(n.c, w.dag, sched, i, hi') == StatusAt(n.c, v.dag, sched, i, hi)
    decreases hi - i
  {
    hide Walkable, DirectDecision, AnchorDecision, Sound, IsView, Covers, Statuses;
    var slot := sched(i);
    if Direct(n, v, slot).IsDecided() {
      DirectDecisionStable(n, v, w, slot);
    } else if Direct(n, w, slot).IsDecided() {
      DirectAgreesWithAny(n, w, hi', v, hi, sched, i);
    } else {
      var j := DecidedHow(n, v, sched, i, hi);
      forall k | i < k <= j && slot.round + 3 <= sched(k).round
        ensures StatusAt(n.c, w.dag, sched, k, hi') == StatusAt(n.c, v.dag, sched, k, hi)
      {
        DecisionsAreFinal(n, v, hi, w, hi', sched, k);
      }
      SameAnchorSameStatus(n, v, hi, w, hi', sched, i, j);
    }
  }

  lemma SameAnchorSameStatus(n: Network, v: View, hi: nat, w: View, hi': nat, sched: nat -> Slot, i: nat, j: nat)
    requires i < hi <= hi' && CoversFrom(n, v, sched, i) && CoversFrom(n, w, sched, i)
    requires !Direct(n, w, sched(i)).IsDecided()
    requires Through(n, v, sched, i, hi, j)
    requires forall k | i < k <= j && sched(i).round + 3 <= sched(k).round ::
               StatusAt(n.c, w.dag, sched, k, hi') == StatusAt(n.c, v.dag, sched, k, hi)
    ensures StatusAt(n.c, w.dag, sched, i, hi') == StatusAt(n.c, v.dag, sched, i, hi)
  {
    hide Walkable, DirectDecision, AnchorDecision, Sound, IsView;
    FindsAnchor(n.c, w.dag, sched, i + 1, hi', sched(i).round + 3, j);
    var later := Statuses(n.c, w.dag, sched, i + 1, hi');
    AnchorIsInDag(w.dag, sched(i).round + 3, later);
    AnchorDecisionsAgree(n, v, w, sched(i), StatusAt(n.c, v.dag, sched, j, hi).block.ref);
  }

  // ---------- Decided sequences ----------

  /** The longest prefix of decided statuses. */
  function TakeDecided(s: seq<LeaderStatus>): seq<LeaderStatus> {
    if s == [] || !s[0].IsDecided() then [] else [s[0]] + TakeDecided(s[1..])
  }

  /** A status is taken if and only if it and all before it are decided. */
  lemma {:induction false} TakesDecided(s: seq<LeaderStatus>, k: nat)
    ensures k < |TakeDecided(s)| <==> k < |s| && forall i | 0 <= i <= k :: s[i].IsDecided()
    ensures TakeDecided(s) <= s
  {
    if s != [] && s[0].IsDecided() {
      assert forall i | 0 < i < |s| :: s[i] == s[1..][i - 1];
      TakesDecided(s[1..], if k > 0 then k - 1 else 0);
    }
  }

  function CommittedBlocks(s: seq<LeaderStatus>): seq<Block> {
    if s == [] then []
    else (if s[0].Commit? then [s[0].block] else []) + CommittedBlocks(s[1..])
  }

  /** Starting from the same slot, one validator's decisions extend the other's. */
  lemma {:induction false} DecidedSequencesAgree(n: Network, v: View, hi: nat, w: View, hi': nat, sched: nat -> Slot,
                                                 lo: nat)
    requires lo <= hi && lo <= hi' && CoversFrom(n, v, sched, lo) && CoversFrom(n, w, sched, lo)
    ensures var p := TakeDecided(Statuses(n.c, v.dag, sched, lo, hi));
            var q := TakeDecided(Statuses(n.c, w.dag, sched, lo, hi'));
            p <= q || q <= p
    decreases hi - lo
  {
    hide Walkable, Decide, Sound, IsView, Covers;
    if lo < hi && lo < hi' {
      var s, t := Statuses(n.c, v.dag, sched, lo, hi), Statuses(n.c, w.dag, sched, lo, hi');
      StatusesCons(n.c, v.dag, sched, lo, hi);
      StatusesCons(n.c, w.dag, sched, lo, hi');
      assert s[1..] == Statuses(n.c, v.dag, sched, lo + 1, hi);
      assert t[1..] == Statuses(n.c, w.dag, sched, lo + 1, hi');
      if s[0].IsDecided() && t[0].IsDecided() {
        SlotAgreement(n, v, hi, w, hi', sched, lo);
        DecidedSequencesAgree(n, v, hi, w, hi', sched, lo + 1);
      }
    }
  }

  lemma {:induction false} CommittedOfPrefix(p: seq<LeaderStatus>, q: seq<LeaderStatus>)
    requires p <= q
    ensures CommittedBlocks(p) <= CommittedBlocks(q)
  {
    if p != [] { CommittedOfPrefix(p[1..], q[1..]); }
  }

  /** The leader blocks two validators output extend one another. */
  lemma CommittedLeadersAgree(n: Network, v: View, hi: nat, w: View, hi': nat, sched: nat -> Slot, lo: nat)
    requires lo <= hi && lo <= hi' && CoversFrom(n, v, sched, lo) && CoversFrom(n, w, sched, lo)
    ensures var p := CommittedBlocks(TakeDecided(Statuses(n.c, v.dag, sched, lo, hi)));
            var q := CommittedBlocks(TakeDecided(Statuses(n.c, w.dag, sched, lo, hi')));
            p <= q || q <= p
  {
    hide Walkable, Statuses, TakeDecided, CommittedBlocks, Covers;
    DecidedSequencesAgree(n, v, hi, w, hi', sched, lo);
    var p := TakeDecided(Statuses(n.c, v.dag, sched, lo, hi));
    var q := TakeDecided(Statuses(n.c, w.dag, sched, lo, hi'));
    if p <= q { CommittedOfPrefix(p, q); } else { CommittedOfPrefix(q, p); }
  }
}
