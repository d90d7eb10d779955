/** When slots are decided: what the direct and the indirect rule decide, said by links between
    blocks and by stake, and which slots the committer gets to. */
module Liveness {
  import opened Committees
  import opened Blocks
  import opened CommitRule
  import opened Safety
  import opened Agreement
  import opened UniversalCommitters

  // ---------- The direct rule ----------

  /** Who has a block right above the slot that names nothing of the leader. */
  ghost function SilentAuthors(v: View, slot: Slot): set<nat> {
    set r | r in v.dag && r.round == slot.round + 1
      && (forall a | a in v.dag[r].ancestors :: a.author != slot.authority) :: r.author
  }

  /** Who has a certificate for the leader. */
  ghost function CertifyingAuthors(n: Network, v: View, leader: BlockRef): set<nat> {
    set r | r in v.dag && IsCertificate(n, r, leader) :: r.author
  }

  lemma CertifiersAreLinked(n: Network, v: View, leader: BlockRef)
    requires Covers(n, v, leader.round)
    ensures Certifiers(n.c, v.dag, leader.round + 2, leader) == CertifyingAuthors(n, v, leader)
  {
    hide Certifies, IsQuorum, LinkAuthors, Walkable, Sound, IsView;
    forall r | r in v.dag && r.round == leader.round + 2
      ensures Certifies(n.c, v.dag, r, leader) <==> IsCertificate(n, r, leader)
    {
      CertificateInAnyView(n, v, r, leader);
    }
  }

  /** The direct rule skips the slot if and only if a quorum is silent about it. */
  lemma SkipsIff(n: Network, v: View, slot: Slot)
    requires Covers(n, v, slot.round)
    ensures Direct(n, v, slot) == Skip(slot) <==> IsQuorum(n.c, SilentAuthors(v, slot))
  {
    hide Supported, IsQuorum, Walkable, Sound, IsView;
    assert SilentAuthors(v, slot) == Blamers(v.dag, slot.round + 1, slot.authority);
  }

  /** It commits a block of the slot if and only if a quorum certifies it. */
  lemma CommitsIff(n: Network, v: View, leader: BlockRef)
    requires Covers(n, v, leader.round)
    ensures (leader in n.blocks && Direct(n, v, leader.SlotOf()) == Commit(n.blocks[leader]))
      <==> IsQuorum(n.c, CertifyingAuthors(n, v, leader))
  {
    hide IsQuorum, Walkable, Sound, IsView, Certifiers, IsCertificate, Blamed;
    CertifiersAreLinked(n, v, leader);
    if IsQuorum(n.c, CertifyingAuthors(n, v, leader)) {
      CertifiedIsSupported(n, v, leader);
      LeadersAreUnique(n, v, leader.SlotOf());
      SupportedIsCommitted(n.c, v.dag, leader.SlotOf(), leader.round + 2, leader);
    }
    if leader in n.blocks && Direct(n, v, leader.SlotOf()) == Commit(n.blocks[leader]) {
      var l := DirectCommitMeans(n, v, leader.SlotOf());
      assert l == leader by { NamedByItself(n, l); NamedByItself(n, leader); }
    }
  }

  lemma NamedByItself(n: Network, r: BlockRef)
    requires Sound(n) && r in n.blocks
    ensures n.blocks[r].ref == r
  {}

  lemma SomeCertificate(n: Network, v: View, leader: BlockRef) returns (r: BlockRef)
    requires Sound(n) && IsQuorum(n.c, CertifyingAuthors(n, v, leader))
    ensures r in v.dag && IsCertificate(n, r, leader)
  {
    hide IsCertificate;
    var h := SomeMember(n.c.stakes, CertifyingAuthors(n, v, leader));
    r :| r in v.dag && IsCertificate(n, r, leader) && r.author == h;
  }

  /** A quorum of certificates brings the leader with it and leaves no quorum of blame. */
  lemma CertifiedIsSupported(n: Network, v: View, leader: BlockRef)
    requires Covers(n, v, leader.round) && IsQuorum(n.c, CertifyingAuthors(n, v, leader))
    ensures leader in v.dag && leader in n.blocks && v.dag[leader] == n.blocks[leader]
    ensures IsSupported(n, v, leader) && !Blamed(n.c, v.dag, leader.SlotOf())
  {
    hide Walkable, Certifiers, IsCertificate, Blamed, Sound, IsQuorum;
    var r := SomeCertificate(n, v, leader);
    CertificateHoldsLeader(n, v, r, leader);
    if Blamed(n.c, v.dag, leader.SlotOf()) { BlameExcludesCertificate(n, v, leader.SlotOf(), r, leader); }
    CertifiersAreLinked(n, v, leader);
  }

  /** It leaves the slot undecided if and only if neither a quorum is silent about it nor a quorum
      certifies a block of it. */
  lemma UndecidedIff(n: Network, v: View, slot: Slot)
    requires Covers(n, v, slot.round)
    ensures Direct(n, v, slot) == Undecided(slot)
      <==> !IsQuorum(n.c, SilentAuthors(v, slot))
           && forall leader: BlockRef | leader.SlotOf() == slot :: !IsQuorum(n.c, CertifyingAuthors(n, v, leader))
  {
    hide IsQuorum, Walkable, Sound, IsView, SilentAuthors, CertifyingAuthors, Supported, Blamed;
    SkipsIff(n, v, slot);
    forall leader: BlockRef | leader.SlotOf() == slot
      ensures IsQuorum(n.c, CertifyingAuthors(n, v, leader)) ==> Direct(n, v, slot).Commit?
    {
      CommitsIff(n, v, leader);
    }
    if Direct(n, v, slot).Commit? {
      var leader := DirectCommitMeans(n, v, slot);
      CommitsIff(n, v, leader);
    }
  }

  /** A leader that a quorum of the next round names nothing of is skipped in every view that holds
      their blocks. */
  lemma SilentLeaderIsSkipped(n: Network, v: View, slot: Slot, silent: set<BlockRef>)
    requires Covers(n, v, slot.round) && IsQuorum(n.c, set r | r in silent :: r.author)
    requires forall r | r in silent :: r in v.dag && r.round == slot.round + 1
    requires forall r, a | r in silent && r in n.blocks && a in n.blocks[r].ancestors :: a.author != slot.authority
    ensures Direct(n, v, slot) == Skip(slot)
  {
    hide Walkable, Sound;
    SkipsIff(n, v, slot);
    SupersetOfQuorum(n.c, set r | r in silent :: r.author, SilentAuthors(v, slot));
  }

  /** A leader that a quorum certifies is committed in every view that holds their certificates. */
  lemma CertifiedLeaderIsCommitted(n: Network, v: View, leader: BlockRef, certs: set<BlockRef>)
    requires Covers(n, v, leader.round) && IsQuorum(n.c, set r | r in certs :: r.author)
    requires forall r | r in certs :: r in v.dag && IsCertificate(n, r, leader)
    ensures leader in n.blocks && Direct(n, v, leader.SlotOf()) == Commit(n.blocks[leader])
  {
    hide Walkable, Sound, IsCertificate;
    CommitsIff(n, v, leader);
    SupersetOfQuorum(n.c, set r | r in certs :: r.author, CertifyingAuthors(n, v, leader));
  }

  // ---------- The indirect rule ----------

  /** An anchor has a certificate for the leader in its history. */
  ghost predicate HasCertificate(n: Network, v: View, anchor: BlockRef, leader: BlockRef)
    requires Walkable(v.dag, leader.round) && anchor in v.dag
  {
    exists r :: r in v.dag && Reaches(v.dag, leader.round, anchor, r) && IsCertificate(n, r, leader)
  }

  /** Through an anchor a block of the slot is committed if and only if the anchor has a certificate
      for it in its history. */
  lemma AnchoredCommitsIff(n: Network, v: View, anchor: BlockRef, leader: BlockRef)
    requires Covers(n, v, leader.round) && anchor in v.dag
    ensures (leader in n.blocks && Anchored(n, v, leader.SlotOf(), anchor) == Commit(n.blocks[leader]))
      <==> HasCertificate(n, v, anchor, leader)
  {
    hide IsQuorum, Walkable, Sound, Reaches, IsCertificate, Certifies;
    if HasCertificate(n, v, anchor, leader) {
      var r :| r in v.dag && Reaches(v.dag, leader.round, anchor, r) && IsCertificate(n, r, leader);
      AnchorCommits(n, v, anchor, r, leader);
    }
    if leader in n.blocks && Anchored(n, v, leader.SlotOf(), anchor) == Commit(n.blocks[leader]) {
      var l := AnchoredCommitMeans(n, v, leader.SlotOf(), anchor);
      NamedByItself(n, l);
      NamedByItself(n, leader);
    }
  }

  lemma AnchoredCommitMeans(n: Network, v: View, slot: Slot, anchor: BlockRef) returns (l: BlockRef)
    requires Covers(n, v, slot.round) && anchor in v.dag && Anchored(n, v, slot, anchor).Commit?
    ensures l.SlotOf() == slot && l in n.blocks && Anchored(n, v, slot, anchor) == Commit(n.blocks[l])
    ensures HasCertificate(n, v, anchor, l)
  {
    hide IsQuorum, Walkable, Sound, Reaches, IsCertificate, Certifies;
    l :| CertifiedAt(n.c, v.dag, slot, slot.round + 2, anchor, l) && Anchored(n, v, slot, anchor) == Commit(v.dag[l]);
    var r := CertifiedHasCertificate(n, v, anchor, l);
  }

  /** Otherwise it is skipped. */
  lemma AnchoredSkipsIff(n: Network, v: View, slot: Slot, anchor: BlockRef)
    requires Covers(n, v, slot.round) && anchor in v.dag
    ensures Anchored(n, v, slot, anchor) == Skip(slot)
      <==> forall leader: BlockRef | leader.SlotOf() == slot :: !HasCertificate(n, v, anchor, leader)
  {
    hide IsQuorum, Walkable, Sound, IsView, HasCertificate, CertifiedAt;
    forall leader: BlockRef | leader.SlotOf() == slot
      ensures HasCertificate(n, v, anchor, leader) ==> Anchored(n, v, slot, anchor).Commit?
    {
      AnchoredCommitsIff(n, v, anchor, leader);
    }
    if Anchored(n, v, slot, anchor).Commit? { var l := AnchoredCommitMeans(n, v, slot, anchor); }
  }

  /** A slot that the direct rule leaves open is decided through the first slot three or more rounds
      above that is not skipped, if that is committed. */
  lemma DecidedThrough(n: Network, v: View, sched: nat -> Slot, i: nat, j: nat, hi: nat)
    requires i < j < hi && CoversFrom(n, v, sched, i) && sched(i).round + 3 <= sched(j).round
    requires Direct(n, v, sched(i)) == Undecided(sched(i)) && StatusAt(n.c, v.dag, sched, j, hi).Commit?
    requires forall k | i < k < j && sched(i).round + 3 <= sched(k).round :: StatusAt(n.c, v.dag, sched, k, hi).Skip?
    ensures var anchor := StatusAt(n.c, v.dag, sched, j, hi).block.ref;
      anchor in v.dag && StatusAt(n.c, v.dag, sched, i, hi) == Anchored(n, v, sched(i), anchor)
  {
    hide Walkable, DirectDecision, AnchorDecision, Sound, IsView;
    FindsAnchor(n.c, v.dag, sched, i + 1, hi, sched(i).round + 3, j);
    AnchorIsInDag(v.dag, sched(i).round + 3, Statuses(n.c, v.dag, sched, i + 1, hi));
  }

  /** Nothing else decides it. */
  lemma DecidedOnlyThrough(n: Network, v: View, sched: nat -> Slot, i: nat, hi: nat) returns (j: nat)
    requires i < hi && CoversFrom(n, v, sched, i)
    requires Direct(n, v, sched(i)) == Undecided(sched(i)) && StatusAt(n.c, v.dag, sched, i, hi).IsDecided()
    ensures i < j < hi && sched(i).round + 3 <= sched(j).round && StatusAt(n.c, v.dag, sched, j, hi).Commit?
    ensures forall k | i < k < j && sched(i).round + 3 <= sched(k).round :: StatusAt(n.c, v.dag, sched, k, hi).Skip?
  {
    hide Walkable, DirectDecision, AnchorDecision, StatusAt, Sound, IsView;
    j := DecidedHow(n, v, sched, i, hi);
  }

  lemma DirectComesFirst(n: Network, v: View, sched: nat -> Slot, i: nat, hi: nat)
    requires i < hi && CoversFrom(n, v, sched, i) && Direct(n, v, sched(i)).IsDecided()
    ensures StatusAt(n.c, v.dag, sched, i, hi) == Direct(n, v, sched(i))
  {
    hide Walkable, DirectDecision, IndirectDecision, Sound, IsView;
  }

  // ---------- The committer ----------

  /** If the DAG holds no higher round than counted, every slot that the direct rule could commit is
      looked at. */
  lemma CommittableIsLookedAt(u: UniversalCommitter, n: Network, k: nat, leader: BlockRef)
    requires u.Valid(n) && Covers(n, u.AsView(), leader.round) && u.Sched()(k) == leader.SlotOf()
    requires (forall r | r in u.dag :: r.round <= u.highestAcceptedRound)
    requires IsQuorum(n.c, CertifyingAuthors(n, u.AsView(), leader))
    ensures k < u.End()
  {
    hide IsQuorum, LinkAuthors, Sound, IsView, IsPipeline, Scheduled, UniversalCommitter.End;
    var r := SomeCertificate(n, u.AsView(), leader);
    u.LooksAtIff(k);
  }

  /** A slot one round below the highest is not looked at, although a quorum of silence there would
      skip it already. */
  lemma SkippableIsNotLookedAt(u: UniversalCommitter, n: Network, k: nat)
    requires u.Valid(n) && Covers(n, u.AsView(), u.Sched()(k).round)
    requires u.Sched()(k).round + 1 == u.highestAcceptedRound
    requires IsQuorum(n.c, SilentAuthors(u.AsView(), u.Sched()(k)))
    ensures Direct(n, u.AsView(), u.Sched()(k)) == Skip(u.Sched()(k)) && u.End() <= k
  {
    hide IsQuorum, Sound, IsView, IsPipeline, Scheduled, UniversalCommitter.End, SilentAuthors;
    SkipsIff(n, u.AsView(), u.Sched()(k));
    u.LooksAtIff(k);
  }

  /** A slot comes after the last decided one. */
  ghost predicate ComesAfter(u: UniversalCommitter, lastDecided: Slot, k: nat)
    requires u.Leaders() >= 1
  {
    && u.Sched()(k).round >= 1 && lastDecided.round <= u.Sched()(k).round
    && (u.leadersPerRound == Some(1) ==> lastDecided.round < u.Sched()(k).round)
    && forall j: nat | k <= j :: u.Sched()(j) != lastDecided
  }

  /** Every slot after the last decided one that is two rounds below the highest is looked at. */
  lemma LooksAtEverySlot(u: UniversalCommitter, n: Network, lastDecided: Slot, decided: seq<LeaderStatus>, lo: nat,
                         k: nat)
    requires u.Valid(n) && u.Decides(lastDecided, decided, lo) && ComesAfter(u, lastDecided, k)
    requires u.Sched()(k).round + 2 <= u.highestAcceptedRound
    ensures var start := u.AfterGenesis(lo);
      && start <= k < u.End() && Ready(u.dag, u.Sched(), start)
      && u.IsStart(lastDecided, lo)
      && decided == TakeDecided(Statuses(u.committee, u.dag, u.Sched(), start, u.End()))
  {
    hide Ready, Sound, IsView, IsPipeline, Statuses, TakeDecided, UniversalCommitter.End;
    u.LooksAtIff(k);
    u.GenesisIndex(k);
    DivBounds(k, u.Leaders());
    MulKeepsOrder(u.Leaders(), u.FirstRound(lastDecided), k / u.Leaders());
  }

  /** And it is among the decisions if and only if it and all slots before it are decided. */
  lemma DecidesIff(u: UniversalCommitter, n: Network, lastDecided: Slot, decided: seq<LeaderStatus>, lo: nat, k: nat)
    requires u.Valid(n) && u.Decides(lastDecided, decided, lo) && ComesAfter(u, lastDecided, k)
    requires u.Sched()(k).round + 2 <= u.highestAcceptedRound
    ensures var start := u.AfterGenesis(lo);
      && start <= k < u.End() && Ready(u.dag, u.Sched(), start)
      && u.IsStart(lastDecided, lo)
      && (k - start < |decided| <==> forall j: nat | start <= j <= k :: StatusOf(u, j).IsDecided())
      && (k - start < |decided| ==> forall j: nat | start <= j <= k :: decided[j - start] == StatusOf(u, j))
  {
    hide Walkable, Statuses, TakeDecided, UniversalCommitter.End, StatusAt, Scheduled, UniversalCommitter.Decides,
      ComesAfter, Sound, IsView, IsPipeline, Ready, StatusOf, UniversalCommitter.IsStart;
    LooksAtEverySlot(u, n, lastDecided, decided, lo, k);
    var start := u.AfterGenesis(lo);
    var s := Statuses(u.committee, u.dag, u.Sched(), start, u.End());
    TakesDecided(s, k - start);
    forall j: nat | start <= j <= k ensures s[j - start] == StatusOf(u, j) { StatusInList(u, start, j); }
    assert forall i | 0 <= i <= k - start :: s[i] == StatusOf(u, start + i);
  }

  lemma StatusInList(u: UniversalCommitter, start: nat, j: nat)
    requires u.Leaders() >= 1 && start <= j < u.End() && Ready(u.dag, u.Sched(), start)
    ensures Statuses(u.committee, u.dag, u.Sched(), start, u.End())[j - start] == StatusOf(u, j)
  {
    hide Walkable, Statuses, UniversalCommitter.End, StatusAt, Scheduled, Ready;
    StatusesAreStatusAt(u.committee, u.dag, u.Sched(), start, u.End(), j - start);
    u.ReadyLater(start, j);
  }

  /** The status of one slot in the DAG of the committer. */
  ghost function StatusOf(u: UniversalCommitter, k: nat): LeaderStatus
    requires u.Leaders() >= 1
  {
    if k < u.End() && Ready(u.dag, u.Sched(), k) then StatusAt(u.committee, u.dag, u.Sched(), k, u.End())
    else Undecided(u.Sched()(k))
  }

  // ---------- Decided by what is held ----------

  /** What the blocks of a view decide about a slot at once. */
  ghost predicate Shows(n: Network, v: View, slot: Slot, status: LeaderStatus) {
    match status
    case Commit(b) =>
      && b.ref in n.blocks && n.blocks[b.ref] == b && b.ref.SlotOf() == slot
      && IsQuorum(n.c, CertifyingAuthors(n, v, b.ref))
    case Skip(s) => s == slot && IsQuorum(n.c, SilentAuthors(v, slot))
    case Undecided(_) => false
  }

  lemma ShowsDirect(n: Network, v: View, slot: Slot, status: LeaderStatus)
    requires Covers(n, v, slot.round) && Shows(n, v, slot, status)
    ensures Direct(n, v, slot) == status && status.IsDecided()
  {
    hide IsQuorum, Walkable, Sound, IsView, SilentAuthors, CertifyingAuthors, DirectDecision;
    if status.Skip? { SkipsIff(n, v, slot); } else { CommitsIff(n, v, status.block.ref); }
  }

  /** Progress: if the blocks held show what comes of every slot after the last decided one, up to
      slot k two rounds below the highest, the committer decides them all, and so. */
  lemma DecidesWhatIsShown(u: UniversalCommitter, n: Network, lastDecided: Slot, decided: seq<LeaderStatus>, lo: nat,
                           k: nat, shown: nat -> LeaderStatus)
    requires u.Valid(n) && u.lastCommitRound <= lastDecided.round && u.Decides(lastDecided, decided, lo)
    requires ComesAfter(u, lastDecided, k) && u.Sched()(k).round + 2 <= u.highestAcceptedRound
    requires forall j: nat | u.AfterGenesis(lo) <= j <= k :: Shows(n, u.AsView(), u.Sched()(j), shown(j))
    ensures var start := u.AfterGenesis(lo);
      && start <= k && k - start < |decided| && forall j: nat | start <= j <= k :: decided[j - start] == shown(j)
  {
    hide Walkable, UniversalCommitter.End, StatusAt, Scheduled, Shows, ComesAfter, Sound, IsView, IsPipeline,
      DirectDecision, Statuses, TakeDecided, Ready, StatusOf, UniversalCommitter.Decides;
    DecidesIff(u, n, lastDecided, decided, lo, k);
    forall j: nat | u.AfterGenesis(lo) <= j <= k ensures StatusOf(u, j) == shown(j) && shown(j).IsDecided() {
      ShownIsStatus(u, n, lastDecided, lo, j, shown(j));
    }
  }

  lemma ShownIsStatus(u: UniversalCommitter, n: Network, lastDecided: Slot, lo: nat, j: nat, status: LeaderStatus)
    requires u.Valid(n) && u.lastCommitRound <= lastDecided.round && u.FirstRound(lastDecided) * u.Leaders() <= lo
    requires u.AfterGenesis(lo) <= j < u.End() && Shows(n, u.AsView(), u.Sched()(j), status)
    ensures StatusOf(u, j) == status && status.IsDecided()
  {
    StartIsCovered(u, n, lastDecided, lo);
    hide Walkable, UniversalCommitter.End, StatusAt, Scheduled, Shows, Sound, IsPipeline, DirectDecision, IsView;
    ShowsDirect(n, u.AsView(), u.Sched()(j), status);
    assert CoversFrom(n, u.AsView(), u.Sched(), j);
    DirectComesFirst(n, u.AsView(), u.Sched(), j, u.End());
  }
}
