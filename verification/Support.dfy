/** What the depth-first support search finds, and how support is inherited
    (consensus/core/src/base_committer.rs). */
module Support {
  import opened Committees
  import opened Blocks
  import opened CommitRule
  import opened Safety

  ghost predicate Finds(v: Dag, slot: Slot, from: BlockRef, found: Option<BlockRef>)
    requires Walkable(v, slot.round) && from in v
  {
    match found
    case Some(b) => b.SlotOf() == slot && Reaches(v, slot.round, from, b)
    case None => forall b: BlockRef | b.SlotOf() == slot :: !Reaches(v, slot.round, from, b)
  }

  /** The search succeeds exactly when some block of the slot is in the history, and
      then returns one of them. */
  lemma {:induction false} SearchIsSoundAndComplete(v: Dag, slot: Slot, from: BlockRef)
    requires Walkable(v, slot.round) && from in v
    ensures Finds(v, slot, from, FindSupportedBlock(v, slot, from))
    decreases from.round, |v[from].ancestors| + 1
  {
    if from.round < slot.round {
      forall b: BlockRef | b.SlotOf() == slot ensures !Reaches(v, slot.round, from, b) {
        if Reaches(v, slot.round, from, b) { ReachesLower(v, slot.round, from, b); }
      }
    } else {
      ScanFrom(v, slot, from, 0);
    }
  }

  /** Nothing of the slot is reached through the ancestor `a`. */
  ghost predicate DeadEnd(v: Dag, slot: Slot, a: BlockRef)
    requires Walkable(v, slot.round)
  {
    && a.SlotOf() != slot
    && (a.round > slot.round && a in v ==> Finds(v, slot, a, None))
  }

  lemma {:induction false} ScanFrom(v: Dag, slot: Slot, from: BlockRef, i: nat)
    requires Walkable(v, slot.round) && from in v && i <= |v[from].ancestors|
    requires forall k | 0 <= k < i :: DeadEnd(v, slot, v[from].ancestors[k])
    ensures Finds(v, slot, from, FindSupportedFrom(v, slot, from, i))
    decreases from.round, |v[from].ancestors| - i
  {
    if i < |v[from].ancestors| {
      var a := v[from].ancestors[i];
      if a.SlotOf() == slot {
        assert Reaches(v, slot.round, from, a);
      } else {
        if a.round > slot.round { SearchIsSoundAndComplete(v, slot, a); }
        if a.round <= slot.round || FindSupportedBlock(v, slot, a).None? {
          ScanFrom(v, slot, from, i + 1);
        }
      }
    }
  }

  // ---------- Inheritance along an author's own chain ----------

  /** `from` reaches `a` through blocks of one author, each naming the one before. */
  ghost predicate OwnChain(v: Dag, lo: nat, from: BlockRef, a: BlockRef)
    requires Walkable(v, lo) && from in v
    decreases from.round
  {
    from == a
    || exists p :: p in v[from].ancestors && p.author == from.author && p.round > lo && OwnChain(v, lo, p, a)
  }

  /** If A supports B at a slot, every later block of A's author that reaches A along
      its own chain also supports B: the own ancestor is searched first. */
  lemma {:induction false} SupportIsInherited(v: Dag, slot: Slot, from: BlockRef, a: BlockRef)
    requires Walkable(v, slot.round) && from in v && a in v && OwnChain(v, slot.round, from, a)
    requires forall r | r in v :: OwnAncestorFirst(v[r])
    requires FindSupportedBlock(v, slot, a).Some?
    ensures FindSupportedBlock(v, slot, from) == FindSupportedBlock(v, slot, a)
    decreases from.round
  {
    if from != a {
      var p :| p in v[from].ancestors && p.author == from.author && p.round > slot.round
        && OwnChain(v, slot.round, p, a);
      SupportIsInherited(v, slot, p, a);
      assert p == v[from].ancestors[0];
    }
  }

  /** A block just above the slot supports the block of the slot it names. */
  lemma LinkIsSupported(v: Dag, slot: Slot, d: BlockRef, x: BlockRef)
    requires Walkable(v, slot.round) && d in v && d.round == slot.round + 1 && DistinctAuthors(v[d].ancestors)
    requires x in v[d].ancestors && x.SlotOf() == slot
    ensures FindSupportedBlock(v, slot, d) == Some(x)
  {
    ScanFindsLink(v, x, d, 0);
    assert v[d].ancestors[0..] == v[d].ancestors;
  }

  /** What decides it: let the own chains of C and A pass the round above the slot in D and E,
      which name the blocks x and y of the slot. Then C supports what A supports exactly if
      x and y are the same block. */
  lemma InheritedIffSameLink(v: Dag, slot: Slot, c: BlockRef, d: BlockRef, x: BlockRef, a: BlockRef, e: BlockRef,
                             y: BlockRef)
    requires Walkable(v, slot.round) && c in v && d in v && a in v && e in v
    requires forall r | r in v :: OwnAncestorFirst(v[r]) && DistinctAuthors(v[r].ancestors)
    requires OwnChain(v, slot.round, c, d) && d.round == slot.round + 1 && x in v[d].ancestors && x.SlotOf() == slot
    requires OwnChain(v, slot.round, a, e) && e.round == slot.round + 1 && y in v[e].ancestors && y.SlotOf() == slot
    ensures FindSupportedBlock(v, slot, c) == FindSupportedBlock(v, slot, a) <==> x == y
  {
    hide FindSupportedBlock, OwnAncestorFirst, DistinctAuthors;
    LinkIsSupported(v, slot, d, x);
    LinkIsSupported(v, slot, e, y);
    SupportIsInherited(v, slot, c, d);
    SupportIsInherited(v, slot, a, e);
  }

  /** Of any two blocks of the author above `lo` one lies on the own chain of the other. */
  ghost predicate NeverForks(v: Dag, lo: nat, author: nat)
    requires Walkable(v, lo)
  {
    forall a, c | a in v && c in v && a.author == author == c.author && a.round > lo && c.round > lo ::
      OwnChain(v, lo, c, a) || OwnChain(v, lo, a, c)
  }

  lemma {:induction false} ChainGoesDown(v: Dag, lo: nat, hi: nat, from: BlockRef, a: BlockRef)
    requires Walkable(v, lo) && Walkable(v, hi) && lo <= hi && from in v && OwnChain(v, lo, from, a)
    ensures a == from || a.round < from.round
    ensures a.round > hi ==> OwnChain(v, hi, from, a)
    decreases from.round
  {
    if from != a {
      var p :| p in v[from].ancestors && p.author == from.author && p.round > lo && OwnChain(v, lo, p, a);
      ChainGoesDown(v, lo, hi, p, a);
    }
  }

  /** An author that never forks passes its support on to every later block of its own that
      includes the supporting one, at every slot: this is what the doc comment promises. */
  lemma InheritanceWithoutForks(v: Dag, lo: nat, slot: Slot, a: BlockRef, c: BlockRef)
    requires Walkable(v, lo) && Walkable(v, slot.round) && lo <= slot.round && a in v && c in v && a.author == c.author
    requires NeverForks(v, lo, a.author) && forall r | r in v :: OwnAncestorFirst(v[r])
    requires Reaches(v, slot.round, c, a) && FindSupportedBlock(v, slot, a).Some?
    ensures FindSupportedBlock(v, slot, c) == FindSupportedBlock(v, slot, a)
  {
    hide FindSupportedBlock, OwnAncestorFirst;
    SearchIsSoundAndComplete(v, slot, a);
    ReachesLower(v, slot.round, a, FindSupportedBlock(v, slot, a).value);
    ReachesLower(v, slot.round, c, a);
    if OwnChain(v, lo, a, c) { ChainGoesDown(v, lo, lo, a, c); }
    ChainGoesDown(v, lo, slot.round, c, a);
    SupportIsInherited(v, slot, c, a);
  }

  // ---------- Inheritance fails across forks ----------

  /** Four authorities of equal stake, of which one may be faulty. */
  function Four(): Committee { Committee([1, 1, 1, 1], 4, 3, 3, 2) }

  lemma FourIsWellSized()
    ensures WellSized(Four()) && FaultBound(Four(), {1})
  {
    var stakes := [1, 1, 1, 1];
    assert SumUpTo(stakes, 1) == 1 && SumUpTo(stakes, 2) == 2 && SumUpTo(stakes, 3) == 3 && SumUpTo(stakes, 4) == 4;
    assert StakeUpTo(stakes, {1}, 1) == 0 && StakeUpTo(stakes, {1}, 2) == 1;
    assert StakeUpTo(stakes, {1}, 3) == 1 && StakeUpTo(stakes, {1}, 4) == 1;
    assert Tolerates(Four(), 1);
  }

  lemma ThreeAreQuorum(s: set<nat>, x: nat, y: nat, z: nat)
    requires x < 4 && y < 4 && z < 4 && x != y && y != z && x != z && {x, y, z} <= s
    ensures IsQuorum(Four(), s)
  {
    var stakes := [1, 1, 1, 1];
    assert StakeUpTo(stakes, s, 1) == if 0 in s then 1 else 0;
    assert StakeUpTo(stakes, s, 2) == StakeUpTo(stakes, s, 1) + if 1 in s then 1 else 0;
    assert StakeUpTo(stakes, s, 3) == StakeUpTo(stakes, s, 2) + if 2 in s then 1 else 0;
    assert StakeUpTo(stakes, s, 4) == StakeUpTo(stakes, s, 3) + if 3 in s then 1 else 0;
  }

  /** Three parents by different authorities, the own one first, make a verifiable block. */
  lemma ThreeParents(b: Block)
    requires |b.ancestors| == 3 && b.ref.author < 4 && b.ancestors[0].author == b.ref.author
    requires forall i | 0 <= i < 3 :: b.ancestors[i].author < 4 && b.ancestors[i].round + 1 == b.ref.round
    requires DistinctAuthors(b.ancestors)
    ensures WellFormed(Four(), b)
  {
    var x, y, z := b.ancestors[0], b.ancestors[1], b.ancestors[2];
    assert {x.author, y.author, z.author} <= ParentAuthors(b) by {
      assert x in b.ancestors && y in b.ancestors && z in b.ancestors;
    }
    ThreeAreQuorum(ParentAuthors(b), x.author, y.author, z.author);
  }

  /** Authority 1 makes two blocks in rounds 1 and 2; the others make one block a round. */
  function ForkRefs(): set<BlockRef> {
    {BlockRef(1, 0, 0), BlockRef(1, 1, 0), BlockRef(1, 1, 1), BlockRef(1, 2, 0), BlockRef(1, 3, 0),
     BlockRef(2, 0, 0), BlockRef(2, 1, 0), BlockRef(2, 1, 1), BlockRef(2, 2, 0), BlockRef(2, 3, 0),
     BlockRef(3, 0, 0), BlockRef(3, 2, 0), BlockRef(3, 3, 0), BlockRef(4, 1, 0)}
  }

  /** The second block of authority 1 in round 2 names its second block of round 1; its block
      of round 4 names the fork as own ancestor, and reaches the first one through authority 2. */
  function ForkAncestors(r: BlockRef): seq<BlockRef> {
    var below := if r.round > 0 then r.round - 1 else 0;
    if r == BlockRef(4, 1, 0) then [BlockRef(2, 1, 1), BlockRef(3, 2, 0), BlockRef(3, 0, 0), BlockRef(3, 3, 0)]
    else if r == BlockRef(3, 2, 0) then [BlockRef(2, 2, 0), BlockRef(2, 1, 0), BlockRef(2, 3, 0)]
    else if r.author == 1 then [BlockRef(below, 1, if below == 0 then 0 else r.digest), BlockRef(below, 2, 0),
      BlockRef(below, 3, 0)]
    else if r.author == 0 then [BlockRef(below, 0, 0), BlockRef(below, 2, 0), BlockRef(below, 3, 0)]
    else if r.author == 2 then [BlockRef(below, 2, 0), BlockRef(below, 0, 0), BlockRef(below, 3, 0)]
    else [BlockRef(below, 3, 0), BlockRef(below, 0, 0), BlockRef(below, 2, 0)]
  }

  lemma ForkBlock(r: BlockRef)
    requires r in ForkRefs()
    ensures WellFormed(Four(), Block(r, ForkAncestors(r)))
    ensures forall a | a in ForkAncestors(r) && a.round > 0 :: a in ForkRefs()
  {
    var b := Block(r, ForkAncestors(r));
    hide WellFormed;
    if r == BlockRef(4, 1, 0) { SkippingBlock(b); } else { ThreeParents(b); }
  }

  lemma SkippingBlock(b: Block)
    requires b == Block(BlockRef(4, 1, 0), [BlockRef(2, 1, 1), BlockRef(3, 2, 0), BlockRef(3, 0, 0), BlockRef(3, 3, 0)])
    ensures WellFormed(Four(), b)
  {
    assert b.ancestors[1] in b.ancestors && b.ancestors[2] in b.ancestors && b.ancestors[3] in b.ancestors;
    assert {0, 2, 3} <= ParentAuthors(b);
    ThreeAreQuorum(ParentAuthors(b), 0, 2, 3);
  }

  ghost function ForkedNetwork(): Network {
    Network(Four(), {1}, map r | r in ForkRefs() :: Block(r, ForkAncestors(r)))
  }

  lemma ForkedNetworkIsSound()
    ensures Sound(ForkedNetwork()) && IsView(ForkedNetwork(), View(ForkedNetwork().blocks, 0))
  {
    hide WellFormed, WellSized, FaultBound, Four, ForkAncestors;
    FourIsWellSized();
    forall r | r in ForkRefs()
      ensures WellFormed(Four(), Block(r, ForkAncestors(r))) && forall a | a in ForkAncestors(r) && a.round > 0 ::
        a in ForkRefs()
    {
      ForkBlock(r);
    }
  }

  /** The doc comment of the search promises inheritance for any block of the same author that
      includes A, directly or not. A faulty author breaks that, with blocks that all pass
      verification: C reaches A through another author but supports what its own fork supports. */
  lemma InheritanceFailsAcrossForks() returns (n: Network, slot: Slot, a: BlockRef, c: BlockRef)
    ensures Sound(n) && IsView(n, View(n.blocks, 0)) && Walkable(n.blocks, slot.round)
    ensures a in n.blocks && c in n.blocks && a.author == c.author && Reaches(n.blocks, slot.round, c, a)
    ensures FindSupportedBlock(n.blocks, slot, a).Some?
    ensures FindSupportedBlock(n.blocks, slot, c) != FindSupportedBlock(n.blocks, slot, a)
  {
    n, slot, a, c := ForkedNetwork(), Slot(1, 1), BlockRef(2, 1, 0), BlockRef(4, 1, 0);
    ForkedNetworkIsSound();
    ViewIsWalkable(n, View(n.blocks, 0), 1);
    ForksDiverge(n.blocks, slot, a, BlockRef(2, 1, 1), BlockRef(3, 2, 0), c);
  }

  lemma ForksDiverge(v: Dag, slot: Slot, a: BlockRef, fork: BlockRef, d: BlockRef, c: BlockRef)
    requires Walkable(v, slot.round) && {a, fork, d, c} <= v.Keys
    requires |v[c].ancestors| > 1 && v[c].ancestors[0] == fork && v[c].ancestors[1] == d
    requires |v[d].ancestors| > 1 && v[d].ancestors[1] == a && slot.round < fork.round && slot.round < a.round < d.round
    requires v[a].ancestors != [] && v[a].ancestors[0].SlotOf() == slot
    requires v[fork].ancestors != [] && v[fork].ancestors[0].SlotOf() == slot
    ensures Reaches(v, slot.round, c, a)
    ensures FindSupportedBlock(v, slot, a) == Some(v[a].ancestors[0])
    ensures FindSupportedBlock(v, slot, c) == Some(v[fork].ancestors[0])
  {
    assert FindSupportedBlock(v, slot, fork) == FindSupportedFrom(v, slot, fork, 0) == Some(v[fork].ancestors[0]);
    assert FindSupportedFrom(v, slot, c, 0) == FindSupportedBlock(v, slot, fork);
    assert Reaches(v, slot.round, d, a);
  }

  // ---------- Blame and votes ----------

  /** A block just above the slot that blames the leader votes for none of its blocks. */
  lemma BlameIsNoVote(v: Dag, leader: BlockRef, vote: BlockRef)
    requires Walkable(v, leader.round) && vote in v && vote.round == leader.round + 1
    requires IsBlame(v[vote], leader.author)
    ensures !IsVote(v, vote, leader)
  {
    SearchIsSoundAndComplete(v, leader.SlotOf(), vote);
  }

  /** The comments speak of blame as a non-vote. The code asks for more: among the blocks
      just above the slot that vote for none of its blocks, those that blame are exactly
      those with no older ancestor by the leader's authority. */
  lemma NonVoteBlamesIff(v: Dag, slot: Slot, r: BlockRef)
    requires Walkable(v, slot.round) && r in v && r.round == slot.round + 1
    requires FindSupportedBlock(v, slot, r).None?
    ensures IsBlame(v[r], slot.authority)
            <==> forall a | a in v[r].ancestors && a.round < slot.round :: a.author != slot.authority
  {
    SearchIsSoundAndComplete(v, slot, r);
    forall a | a in v[r].ancestors && a.round == slot.round ensures a.author != slot.authority {
      assert Reaches(v, slot.round, r, a);
    }
  }

  /** A verified block that votes for no block of the slot and yet is not counted as blame:
      it names an older block of the leader. */
  lemma NonVoteNeedNotBlame() returns (v: Dag, slot: Slot, r: BlockRef)
    ensures Walkable(v, slot.round) && r in v && r.round == slot.round + 1
    ensures WellSized(Four()) && WellFormed(Four(), v[r])
    ensures FindSupportedBlock(v, slot, r).None? && !IsBlame(v[r], slot.authority)
  {
    slot, r := Slot(2, 0), BlockRef(3, 1, 0);
    var b := Block(r, [BlockRef(2, 1, 0), BlockRef(2, 2, 0), BlockRef(2, 3, 0), BlockRef(1, 0, 0)]);
    v := map[r := b];
    FourIsWellSized();
    OlderLeaderBlock(b);
    hide WellFormed, WellSized;
    assert FindSupportedFrom(v, slot, r, 4) == None;
    assert FindSupportedFrom(v, slot, r, 3) == None;
    assert FindSupportedFrom(v, slot, r, 2) == None;
    assert FindSupportedFrom(v, slot, r, 1) == None;
    assert b.ancestors[3].author == slot.authority;
  }

  lemma OlderLeaderBlock(b: Block)
    requires b == Block(BlockRef(3, 1, 0), [BlockRef(2, 1, 0), BlockRef(2, 2, 0), BlockRef(2, 3, 0), BlockRef(1, 0, 0)])
    ensures WellFormed(Four(), b)
  {
    assert b.ancestors[0] in b.ancestors && b.ancestors[1] in b.ancestors && b.ancestors[2] in b.ancestors;
    assert {1, 2, 3} <= ParentAuthors(b);
    ThreeAreQuorum(ParentAuthors(b), 1, 2, 3);
  }
}
