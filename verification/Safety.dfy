/** Byzantine safety of the commit rule.

    A network holds every block any validator may ever accept; the DAG of a validator
    is a view of it. Faulty authorities equivocate at will, the others make at most
    one block per round. A leader in round R is voted for in R + 1 and certified in R + 2. */
module Safety {
  import opened Committees
  import opened Blocks
  import opened CommitRule

  // ---------- The fault model ----------

  datatype Network = Network(c: Committee, byz: set<nat>, blocks: Dag)

  /** The DAG of one validator and its garbage collection round. */
  datatype View = View(dag: Dag, gc: nat)

  predicate Twins(r: BlockRef, s: BlockRef) { r.SlotOf() == s.SlotOf() }

  ghost predicate Sound(n: Network) {
    && WellSized(n.c) && FaultBound(n.c, n.byz)
    && (forall r | r in n.blocks :: n.blocks[r].ref == r && WellFormed(n.c, n.blocks[r]))
    && (forall r, s {:trigger Twins(r, s)} | r in n.blocks && s in n.blocks && Twins(r, s) && r.author !in n.byz ::
      r == s)
  }

  /** Part of the network's blocks, causally closed above the collection round. */
  ghost predicate IsView(n: Network, v: View) {
    && (forall r | r in v.dag :: r in n.blocks && v.dag[r] == n.blocks[r])
    && (forall r, a | r in v.dag && a in v.dag[r].ancestors && a.round > v.gc :: a in v.dag)
  }

  /** A view that may be asked about slots of this round. A walk that stays at or above
      the collection round never misses a block. */
  ghost predicate Covers(n: Network, v: View, round: nat)
    ensures Covers(n, v, round) ==> Walkable(v.dag, round)
  {
    Sound(n) && IsView(n, v) && v.gc < round
  }

  /** A view can be walked down to its collection round. */
  lemma ViewIsWalkable(n: Network, v: View, lo: nat)
    requires Sound(n) && IsView(n, v) && v.gc <= lo
    ensures Walkable(v.dag, lo)
  {}

  // ---------- Votes are direct links ----------

  ghost predicate LinksTo(n: Network, vote: BlockRef, leader: BlockRef) {
    vote in n.blocks && vote.round == leader.round + 1 && leader in n.blocks[vote].ancestors
  }

  /** With one ancestor per author, scanning the ancestors of a block just above the
      slot finds the one ancestor in the slot, if there is one. */
  lemma {:induction false} ScanFindsLink(v: Dag, leader: BlockRef, from: BlockRef, i: nat)
    requires Walkable(v, leader.round) && from in v && from.round <= leader.round + 1
    requires DistinctAuthors(v[from].ancestors) && i <= |v[from].ancestors|
    ensures FindSupportedFrom(v, leader.SlotOf(), from, i) == Some(leader) <==> leader in v[from].ancestors[i..]
    decreases |v[from].ancestors| - i
  {
    if i < |v[from].ancestors| {
      ScanFindsLink(v, leader, from, i + 1);
      var rest := v[from].ancestors[i + 1..];
      assert v[from].ancestors[i..] == [v[from].ancestors[i]] + rest;
      assert forall k | 0 <= k < |rest| :: rest[k] == v[from].ancestors[i + 1 + k];
    }
  }

  lemma VoteIsLink(n: Network, v: View, vote: BlockRef, leader: BlockRef)
    requires Covers(n, v, leader.round) && vote in v.dag && vote.round <= leader.round + 1
    ensures IsVote(v.dag, vote, leader) <==> LinksTo(n, vote, leader)
  {
    ScanFindsLink(v.dag, leader, vote, 0);
    assert v.dag[vote].ancestors[0..] == v.dag[vote].ancestors;
  }

  ghost function LinkAuthors(n: Network, cert: BlockRef, leader: BlockRef): set<nat>
    requires cert in n.blocks
  {
    set a | a in n.blocks[cert].ancestors && LinksTo(n, a, leader) :: a.author
  }

  /** A block two rounds above `leader` whose ancestors link to it from a quorum. */
  ghost predicate IsCertificate(n: Network, cert: BlockRef, leader: BlockRef) {
    cert in n.blocks && cert.round == leader.round + 2 && IsQuorum(n.c, LinkAuthors(n, cert, leader))
  }

  /** Whether a block is a certificate does not depend on the view. */
  lemma CertificateInAnyView(n: Network, v: View, cert: BlockRef, leader: BlockRef)
    requires Covers(n, v, leader.round) && cert in v.dag && cert.round == leader.round + 2
    ensures Certifies(n.c, v.dag, cert, leader) <==> IsCertificate(n, cert, leader)
  {
    forall a | a in v.dag[cert].ancestors
      ensures (a in v.dag && IsVote(v.dag, a, leader)) <==> LinksTo(n, a, leader)
    {
      if a in v.dag { VoteIsLink(n, v, a, leader); }
    }
    assert Voters(v.dag, cert, leader) == LinkAuthors(n, cert, leader);
  }

  // ---------- Certificates are unique, and blame excludes them ----------

  lemma LinkBy(n: Network, cert: BlockRef, leader: BlockRef, h: nat) returns (a: BlockRef)
    requires cert in n.blocks && h in LinkAuthors(n, cert, leader)
    ensures LinksTo(n, a, leader) && a.author == h && a in n.blocks[cert].ancestors
  {
    a :| a in n.blocks[cert].ancestors && LinksTo(n, a, leader) && a.author == h;
  }

  /** One honest block links to at most one block of a slot. */
  lemma HonestLinksOnce(n: Network, a: BlockRef, l: BlockRef, b: BlockRef, m: BlockRef)
    requires Sound(n) && Twins(l, m) && LinksTo(n, a, l) && LinksTo(n, b, m)
    requires a.author == b.author && a.author !in n.byz
    ensures l == m
  {
    assert Twins(a, b);
  }

  /** Two certificates share an honest voter, so they certify one block of the slot. */
  lemma CertificatesAgree(n: Network, cert1: BlockRef, l1: BlockRef, cert2: BlockRef, l2: BlockRef)
    requires Sound(n) && Twins(l1, l2)
    requires IsCertificate(n, cert1, l1) && IsCertificate(n, cert2, l2)
    ensures l1 == l2
  {
    var h := QuorumsShareHonest(n.c, n.byz, LinkAuthors(n, cert1, l1), LinkAuthors(n, cert2, l2));
    var a1 := LinkBy(n, cert1, l1, h);
    var a2 := LinkBy(n, cert2, l2, h);
    HonestLinksOnce(n, a1, l1, a2, l2);
  }

  lemma BlameBy(v: Dag, round: nat, leader: nat, h: nat) returns (a: BlockRef)
    requires h in Blamers(v, round, leader)
    ensures a in v && a.round == round && IsBlame(v[a], leader) && a.author == h
  {
    a :| a in v && a.round == round && IsBlame(v[a], leader) && a.author == h;
  }

  /** A quorum of blame in any view rules out every certificate for the slot. */
  lemma BlameExcludesCertificate(n: Network, v: View, slot: Slot, cert: BlockRef, leader: BlockRef)
    requires Sound(n) && IsView(n, v) && Blamed(n.c, v.dag, slot) && leader.SlotOf() == slot
    ensures !IsCertificate(n, cert, leader)
  {
    if IsCertificate(n, cert, leader) {
      var h := QuorumsShareHonest(n.c, n.byz, LinkAuthors(n, cert, leader),
                                  Blamers(v.dag, slot.round + 1, slot.authority));
      var a1 := LinkBy(n, cert, leader, h);
      var a2 := BlameBy(v.dag, slot.round + 1, slot.authority, h);
      assert Twins(a1, a2);
    }
  }

  // ---------- Every later block meets a quorum of certificates ----------

  lemma SomeParent(n: Network, r: BlockRef) returns (p: BlockRef)
    requires Sound(n) && r in n.blocks
    ensures p in n.blocks[r].ancestors && p.round + 1 == r.round
  {
    var a := SomeMember(n.c.stakes, ParentAuthors(n.blocks[r]));
    p :| p in n.blocks[r].ancestors && p.round + 1 == r.round && p.author == a;
  }

  /** Authors of the blocks of one round in the history of `from`. */
  ghost function HistoryAuthors(v: Dag, lo: nat, from: BlockRef, round: nat): set<nat>
    requires Walkable(v, lo) && from in v
  {
    set r | r in v && r.round == round && Reaches(v, lo, from, r) :: r.author
  }

  /** Every verified block reaches, in every lower round above the collection round,
      blocks by distinct authors holding a quorum. */
  lemma {:induction false} HistoryHoldsQuorum(n: Network, v: View, lo: nat, from: BlockRef, round: nat)
    requires Sound(n) && IsView(n, v) && v.gc <= lo && Walkable(v.dag, lo)
    requires from in v.dag && lo < round < from.round
    ensures IsQuorum(n.c, HistoryAuthors(v.dag, lo, from, round))
    decreases from.round
  {
    var dag := v.dag;
    var all := HistoryAuthors(dag, lo, from, round);
    if round + 1 == from.round {
      forall h | h in ParentAuthors(dag[from]) ensures h in all {
        var a :| a in dag[from].ancestors && a.round + 1 == from.round && a.author == h;
        assert Reaches(dag, lo, from, a);
      }
      SupersetOfQuorum(n.c, ParentAuthors(dag[from]), all);
    } else {
      var p := SomeParent(n, from);
      assert Reaches(dag, lo, from, p);
      HistoryHoldsQuorum(n, v, lo, p, round);
      forall h | h in HistoryAuthors(dag, lo, p, round) ensures h in all {
        var r :| r in dag && r.round == round && Reaches(dag, lo, p, r) && r.author == h;
        ReachesTransitive(dag, lo, from, p, r);
      }
      SupersetOfQuorum(n.c, HistoryAuthors(dag, lo, p, round), all);
    }
  }

  /** Every author of `s` has a certificate for `leader`. */
  ghost predicate AllCertify(n: Network, s: set<nat>, leader: BlockRef) {
    forall h | h in s :: exists r :: IsCertificate(n, r, leader) && r.author == h
  }

  /** If certificates for `leader` come from a quorum of authors, every block past the
      wave has one of them in its history. */
  lemma ReachesCertificate(n: Network, s: set<nat>, leader: BlockRef, v: View, from: BlockRef) returns (cert: BlockRef)
    requires Covers(n, v, leader.round) && IsQuorum(n.c, s) && AllCertify(n, s, leader)
    requires from in v.dag && from.round >= leader.round + 3
    ensures cert in v.dag && Reaches(v.dag, leader.round, from, cert) && IsCertificate(n, cert, leader)
  {
    var lo := leader.round;
    HistoryHoldsQuorum(n, v, lo, from, lo + 2);
    var h := QuorumsShareHonest(n.c, n.byz, s, HistoryAuthors(v.dag, lo, from, lo + 2));
    cert := HistoryBy(v.dag, lo, from, lo + 2, h);
    var r :| IsCertificate(n, r, leader) && r.author == h;
    assert Twins(cert, r);
  }

  lemma HistoryBy(v: Dag, lo: nat, from: BlockRef, round: nat, h: nat) returns (r: BlockRef)
    requires Walkable(v, lo) && from in v && h in HistoryAuthors(v, lo, from, round)
    ensures r in v && r.round == round && Reaches(v, lo, from, r) && r.author == h
  {
    r :| r in v && r.round == round && Reaches(v, lo, from, r) && r.author == h;
  }

  /** A certificate held above the collection round brings its leader with it. */
  lemma CertificateHoldsLeader(n: Network, v: View, cert: BlockRef, leader: BlockRef)
    requires Covers(n, v, leader.round) && cert in v.dag && IsCertificate(n, cert, leader)
    ensures leader in v.dag
  {
    var h := SomeMember(n.c.stakes, LinkAuthors(n, cert, leader));
    var a := LinkBy(n, cert, leader, h);
    assert a in v.dag;
  }

  // ---------- The two rules for a wave of three rounds ----------

  ghost function Direct(n: Network, v: View, slot: Slot): LeaderStatus
    requires Walkable(v.dag, slot.round)
  {
    DirectDecision(n.c, v.dag, slot, slot.round + 2)
  }

  ghost predicate IsSupported(n: Network, v: View, leader: BlockRef)
    requires Walkable(v.dag, leader.round)
  {
    SupportedAt(n.c, v.dag, leader.SlotOf(), leader.round + 2, leader)
  }

  ghost function Anchored(n: Network, v: View, slot: Slot, anchor: BlockRef): LeaderStatus
    requires Walkable(v.dag, slot.round) && anchor in v.dag
  {
    AnchorDecision(n.c, v.dag, slot, slot.round + 2, anchor)
  }

  ghost predicate IsCertified(n: Network, v: View, anchor: BlockRef, leader: BlockRef)
    requires Walkable(v.dag, leader.round) && anchor in v.dag
  {
    CertifiedAt(n.c, v.dag, leader.SlotOf(), leader.round + 2, anchor, leader)
  }

  lemma SupportedHasCertificates(n: Network, v: View, leader: BlockRef) returns (s: set<nat>, cert: BlockRef)
    requires Covers(n, v, leader.round) && IsSupported(n, v, leader)
    ensures IsQuorum(n.c, s) && AllCertify(n, s, leader) && IsCertificate(n, cert, leader)
    ensures s == Certifiers(n.c, v.dag, leader.round + 2, leader)
  {
    s := Certifiers(n.c, v.dag, leader.round + 2, leader);
    forall h | h in s ensures exists r :: IsCertificate(n, r, leader) && r.author == h {
      var r :| r in v.dag && r.round == leader.round + 2 && Certifies(n.c, v.dag, r, leader) && r.author == h;
      CertificateInAnyView(n, v, r, leader);
    }
    var h := SomeMember(n.c.stakes, s);
    cert :| IsCertificate(n, cert, leader) && cert.author == h;
  }

  lemma CertifiedHasCertificate(n: Network, v: View, anchor: BlockRef, leader: BlockRef) returns (cert: BlockRef)
    requires Covers(n, v, leader.round) && anchor in v.dag && IsCertified(n, v, anchor, leader)
    ensures cert in v.dag && Reaches(v.dag, leader.round, anchor, cert) && IsCertificate(n, cert, leader)
  {
    var round := leader.round + 2;
    cert :| cert in v.dag && cert.round == round && Reaches(v.dag, leader.round, anchor, cert)
            && Certifies(n.c, v.dag, cert, leader);
    CertificateInAnyView(n, v, cert, leader);
  }

  lemma SupportedUnique(n: Network, v: View, l: BlockRef, m: BlockRef)
    requires Covers(n, v, l.round) && Twins(l, m) && IsSupported(n, v, l) && IsSupported(n, v, m)
    ensures l == m
  {
    var s, r := SupportedHasCertificates(n, v, l);
    var s', r' := SupportedHasCertificates(n, v, m);
    CertificatesAgree(n, r, l, r', m);
  }

  lemma CertifiedUnique(n: Network, v: View, anchor: BlockRef, l: BlockRef, m: BlockRef)
    requires Covers(n, v, l.round) && Twins(l, m) && anchor in v.dag
    requires IsCertified(n, v, anchor, l) && IsCertified(n, v, anchor, m)
    ensures l == m
  {
    var r := CertifiedHasCertificate(n, v, anchor, l);
    var s := CertifiedHasCertificate(n, v, anchor, m);
    CertificatesAgree(n, r, l, s, m);
  }

  /** Both "more than one leader" panics are unreachable, equivocation or not. */
  lemma LeadersAreUnique(n: Network, v: View, slot: Slot)
    requires Covers(n, v, slot.round)
    ensures AtMostOneSupported(n.c, v.dag, slot, slot.round + 2)
    ensures forall anchor | anchor in v.dag :: AtMostOneCertified(n.c, v.dag, slot, slot.round + 2, anchor)
  {
    hide IsQuorum, Reaches, Walkable, Certifies, Sound, IsView;
    var d := slot.round + 2;
    forall l, m | SupportedAt(n.c, v.dag, slot, d, l) && SupportedAt(n.c, v.dag, slot, d, m) ensures l == m {
      SupportedUnique(n, v, l, m);
    }
    forall anchor, l, m | anchor in v.dag && CertifiedAt(n.c, v.dag, slot, d, anchor, l)
                          && CertifiedAt(n.c, v.dag, slot, d, anchor, m)
      ensures l == m
    {
      CertifiedUnique(n, v, anchor, l, m);
    }
  }

  lemma DirectCommitMeans(n: Network, v: View, slot: Slot) returns (leader: BlockRef)
    requires Covers(n, v, slot.round) && Direct(n, v, slot).Commit?
    ensures leader.SlotOf() == slot && IsSupported(n, v, leader) && leader in n.blocks
    ensures Direct(n, v, slot) == Commit(n.blocks[leader]) && !Blamed(n.c, v.dag, slot)
  {
    hide Walkable, Supported, Blamed, Sound, Reaches, Certifies;
    LeadersAreUnique(n, v, slot);
    var d := slot.round + 2;
    leader :| SupportedAt(n.c, v.dag, slot, d, leader);
    SupportedIsCommitted(n.c, v.dag, slot, d, leader);
  }

  /** The indirect rule commits the leader that has a certificate in the anchor's history. */
  lemma AnchorCommits(n: Network, v: View, anchor: BlockRef, cert: BlockRef, leader: BlockRef)
    requires Covers(n, v, leader.round) && anchor in v.dag
    requires cert in v.dag && Reaches(v.dag, leader.round, anchor, cert) && IsCertificate(n, cert, leader)
    ensures leader in n.blocks && Anchored(n, v, leader.SlotOf(), anchor) == Commit(n.blocks[leader])
  {
    hide IsQuorum, Reaches, Certifies, Walkable, Sound, LinkAuthors, LinksTo;
    CertificateHoldsLeader(n, v, cert, leader);
    CertificateInAnyView(n, v, cert, leader);
    LeadersAreUnique(n, v, leader.SlotOf());
    CertifiedIsCommitted(n.c, v.dag, leader.SlotOf(), leader.round + 2, anchor, leader);
  }

  /** The decision through one anchor is the same in every view. */
  lemma AnchorDecisionsAgree(n: Network, v: View, w: View, slot: Slot, anchor: BlockRef)
    requires Covers(n, v, slot.round) && Covers(n, w, slot.round) && anchor in v.dag && anchor in w.dag
    ensures Anchored(n, v, slot, anchor) == Anchored(n, w, slot, anchor)
  {
    hide IsQuorum, Reaches, Walkable, Certifies, Sound, IsView;
    var d := slot.round + 2;
    if exists l :: CertifiedAt(n.c, v.dag, slot, d, anchor, l) {
      var l :| CertifiedAt(n.c, v.dag, slot, d, anchor, l);
      SameAnchorCommit(n, v, w, anchor, l);
    } else if exists l :: CertifiedAt(n.c, w.dag, slot, d, anchor, l) {
      var l :| CertifiedAt(n.c, w.dag, slot, d, anchor, l);
      SameAnchorCommit(n, w, v, anchor, l);
    }
  }

  lemma SameAnchorCommit(n: Network, v: View, w: View, anchor: BlockRef, leader: BlockRef)
    requires Covers(n, v, leader.round) && Covers(n, w, leader.round)
    requires anchor in v.dag && anchor in w.dag && IsCertified(n, v, anchor, leader)
    ensures Anchored(n, v, leader.SlotOf(), anchor) == Anchored(n, w, leader.SlotOf(), anchor)
  {
    var cert := CertifiedHasCertificate(n, v, anchor, leader);
    ReachesInBothViews(v.dag, w.dag, leader.round, anchor, cert);
    ReachesLower(w.dag, leader.round, anchor, cert);
    AnchorCommits(n, v, anchor, cert, leader);
    AnchorCommits(n, w, anchor, cert, leader);
  }

  // ---------- Direct decisions bind ----------

  /** A direct commit in one view makes every anchor past the wave, in every view,
      commit the same block. */
  lemma DirectCommitBinds(n: Network, v: View, w: View, slot: Slot, anchor: BlockRef)
    requires Covers(n, v, slot.round) && Covers(n, w, slot.round) && Direct(n, v, slot).Commit?
    requires anchor in w.dag && anchor.round >= slot.round + 3
    ensures Anchored(n, w, slot, anchor) == Direct(n, v, slot)
  {
    var leader := DirectCommitMeans(n, v, slot);
    var s, r := SupportedHasCertificates(n, v, leader);
    var cert := ReachesCertificate(n, s, leader, w, anchor);
    AnchorCommits(n, w, anchor, cert, leader);
  }

  /** A direct skip in one view makes every anchor, in every view, skip. */
  lemma DirectSkipBinds(n: Network, v: View, w: View, slot: Slot, anchor: BlockRef)
    requires Covers(n, v, slot.round) && Covers(n, w, slot.round) && Direct(n, v, slot).Skip?
    requires anchor in w.dag
    ensures Anchored(n, w, slot, anchor) == Direct(n, v, slot)
  {
    hide IsQuorum, Reaches, Walkable, Certifies, Sound, IsView;
    var d := slot.round + 2;
    forall l ensures !CertifiedAt(n.c, w.dag, slot, d, anchor, l) {
      if CertifiedAt(n.c, w.dag, slot, d, anchor, l) {
        var cert := CertifiedHasCertificate(n, w, anchor, l);
        BlameExcludesCertificate(n, v, slot, cert, l);
      }
    }
  }

  /** A slot directly committed in one view is not blamed by a quorum in any. */
  lemma CommittedIsNotBlamed(n: Network, v: View, w: View, slot: Slot)
    requires Covers(n, v, slot.round) && Covers(n, w, slot.round) && Direct(n, v, slot).Commit?
    ensures !Blamed(n.c, w.dag, slot)
  {
    var l := DirectCommitMeans(n, v, slot);
    var s, r := SupportedHasCertificates(n, v, l);
    if Blamed(n.c, w.dag, slot) { BlameExcludesCertificate(n, w, slot, r, l); }
  }

  /** Two views that both decide a slot directly decide it alike. */
  lemma DirectDecisionsAgree(n: Network, v: View, w: View, slot: Slot)
    requires Covers(n, v, slot.round) && Covers(n, w, slot.round)
    requires Direct(n, v, slot).IsDecided() && Direct(n, w, slot).IsDecided()
    ensures Direct(n, v, slot) == Direct(n, w, slot)
  {
    if Direct(n, v, slot).Commit? { CommittedIsNotBlamed(n, v, w, slot); }
    if Direct(n, w, slot).Commit? { CommittedIsNotBlamed(n, w, v, slot); }
    if Direct(n, v, slot).Commit? && Direct(n, w, slot).Commit? {
      var l := DirectCommitMeans(n, v, slot);
      var m := DirectCommitMeans(n, w, slot);
      var s, r := SupportedHasCertificates(n, v, l);
      var s', r' := SupportedHasCertificates(n, w, m);
      CertificatesAgree(n, r, l, r', m);
    }
  }

  /** A direct decision never changes as the view grows, although blame is tested
      before support. */
  lemma DirectDecisionStable(n: Network, v: View, w: View, slot: Slot)
    requires Covers(n, v, slot.round) && Covers(n, w, slot.round)
    requires forall r | r in v.dag && r.round >= slot.round :: r in w.dag
    requires Direct(n, v, slot).IsDecided()
    ensures Direct(n, w, slot) == Direct(n, v, slot)
  {
    hide Reaches, Certifies, Sound, Walkable, StakeUpTo, SupportedAt;
    if Direct(n, v, slot).Skip? {
      SupersetOfQuorum(n.c, Blamers(v.dag, slot.round + 1, slot.authority),
                            Blamers(w.dag, slot.round + 1, slot.authority));
    } else {
      var l := DirectCommitMeans(n, v, slot);
      SupportGrows(n, v, w, l);
      CommittedIsNotBlamed(n, v, w, slot);
      DirectDecisionsAgree(n, v, w, slot);
    }
  }

  lemma SupportGrows(n: Network, v: View, w: View, leader: BlockRef)
    requires Covers(n, v, leader.round) && Covers(n, w, leader.round) && IsSupported(n, v, leader)
    requires forall r | r in v.dag && r.round >= leader.round :: r in w.dag
    ensures IsSupported(n, w, leader)
  {
    hide Reaches, Walkable, Sound, Voters, StakeUpTo;
    var s, t := Certifiers(n.c, v.dag, leader.round + 2, leader), Certifiers(n.c, w.dag, leader.round + 2, leader);
    forall h | h in s ensures h in t {
      var r :| r in v.dag && r.round == leader.round + 2 && Certifies(n.c, v.dag, r, leader) && r.author == h;
      CertificateInAnyView(n, v, r, leader);
      CertificateInAnyView(n, w, r, leader);
    }
    SupersetOfQuorum(n.c, s, t);
  }
}
