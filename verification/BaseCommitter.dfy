/** The committer's algorithms (consensus/core/src/base_committer.rs), each proved to
    compute what CommitRule defines: distinct-voter counting with early returns, the
    shared vote cache, the quick reject, and the descending walk to an anchor's ancestors. */
module BaseCommitters {
  import opened Committees
  import opened Blocks
  import opened CommitRule
  import opened StakeAggregators

  /** Total stake of the authors of `blocks`, equivocations counted each time. */
  function AuthorStakes(c: Committee, blocks: seq<Block>): nat
    requires forall b | b in blocks :: c.IsValidIndex(b.ref.author)
  {
    if blocks == [] then 0
    else AuthorStakes(c, blocks[..|blocks| - 1]) + c.Stake(blocks[|blocks| - 1].ref.author)
  }

  function Authors(blocks: seq<Block>): set<nat> {
    set b | b in blocks :: b.ref.author
  }

  /** The quick reject is sound: counting repeats never counts less. */
  lemma {:induction false} DistinctStakeAtMostSum(c: Committee, blocks: seq<Block>)
    requires forall b | b in blocks :: c.IsValidIndex(b.ref.author)
    ensures StakeOf(c.stakes, Authors(blocks)) <= AuthorStakes(c, blocks)
  {
    if blocks == [] {
      StakeOfEmpty(c.stakes, Authors(blocks), c.Size());
    } else {
      var init, last := blocks[..|blocks| - 1], blocks[|blocks| - 1].ref.author;
      DistinctStakeAtMostSum(c, init);
      assert blocks == init + [blocks[|blocks| - 1]];
      assert Authors(blocks) == Authors(init) + {last};
      if last in Authors(init) {
        assert Authors(blocks) == Authors(init);
      } else {
        StakeOfInsert(c.stakes, Authors(init), last, c.Size());
      }
    }
  }

  lemma TwoDiffer(blocks: seq<Block>) returns (b: Block, b': Block)
    requires DistinctRefs(blocks) && |blocks| > 1
    ensures b in blocks && b' in blocks && b.ref != b'.ref
  {
    b, b' := blocks[0], blocks[1];
  }

  datatype BaseCommitter = BaseCommitter(
    committee: Committee, options: Options, dag: Dag, lastCommitRound: nat, gcDepth: nat)
  {
    function GcRound(): nat { Gc(lastCommitRound, gcDepth) }

    ghost predicate Valid() {
      && options.waveLength >= 1 && committee.quorumThreshold >= 1
      && Walkable(dag, GcRound())
      && forall r | r in dag :: committee.IsValidIndex(r.author)
    }

    // ---------- Reading the DAG ----------

    method BlocksOf(refs: set<BlockRef>) returns (blocks: seq<Block>)
      requires Valid() && refs <= dag.Keys
      ensures forall b | b in blocks :: b.ref in refs && b == dag[b.ref]
      ensures Refs(blocks) == refs && DistinctRefs(blocks)
    {
      blocks := [];
      var rest := refs;
      while rest != {}
        invariant rest <= refs
        invariant forall b | b in blocks :: b.ref in refs && b == dag[b.ref]
        invariant Refs(blocks) == refs - rest && DistinctRefs(blocks)
        decreases rest
      {
        var r :| r in rest;
        ghost var before := blocks;
        blocks := blocks + [dag[r]];
        rest := rest - {r};
        assert Refs(blocks) == Refs(before) + {r};
        assert forall b | b in before :: b.ref in Refs(before);
      }
    }

    method UncommittedBlocksAtRound(round: nat) returns (blocks: seq<Block>)
      requires Valid() && round > lastCommitRound
      ensures forall b | b in blocks :: b.ref in dag && b == dag[b.ref] && b.ref.round == round
      ensures Refs(blocks) == set r | r in dag && r.round == round
    {
      blocks := BlocksOf(set r | r in dag && r.round == round);
    }

    method UncommittedBlocksAtSlot(slot: Slot) returns (blocks: seq<Block>)
      requires Valid()
      ensures forall b | b in blocks :: b.ref in dag && b == dag[b.ref] && b.ref.SlotOf() == slot
      ensures Refs(blocks) == (set r | r in dag && r.SlotOf() == slot) && DistinctRefs(blocks)
    {
      blocks := BlocksOf(set r | r in dag && r.SlotOf() == slot);
    }

    /** The blocks of `round` in the history of `from`, walking down from the highest
        round and never reading a block at or below `round` on the way. */
    method AncestorsAtRound(from: BlockRef, round: nat, ghost lo: nat) returns (blocks: seq<Block>)
      requires Valid() && from in dag && GcRound() <= lo < round && Walkable(dag, lo)
      ensures forall b | b in blocks :: b.ref in dag && b == dag[b.ref]
      ensures Refs(blocks) == set r | r in dag && r.round == round && Reaches(dag, lo, from, r)
    {
      hide Reaches, Walkable, Pending;
      var linked := set a | a in dag[from].ancestors;
      ghost var popped: set<BlockRef> := {};
      AncestorsArePending(from, round, lo);
      AncestorsAreReached(from, lo, from);
      while linked != {} && !(forall r | r in linked :: r.round <= round)
        invariant forall r | r in linked :: Reaches(dag, lo, from, r)
        invariant Pending(from, round, lo, linked)
        invariant popped <= dag.Keys && popped !! linked
        invariant forall p, r | p in popped && r in linked :: r.round <= p.round
        decreases dag.Keys - popped
      {
        var last := HighestOf(linked);
        ReachesLower(dag, lo, from, last);
        StepKeepsPending(from, round, lo, linked, last);
        AncestorsAreReached(from, lo, last);
        linked := linked - {last} + set a | a in dag[last].ancestors;
        popped := popped + {last};
      }
      PendingIsDone(from, round, lo, linked);
      blocks := BlocksOf(set r | r in linked && r.round == round);
    }

    lemma AncestorsAreReached(from: BlockRef, lo: nat, last: BlockRef)
      requires Walkable(dag, lo) && from in dag && last in dag
      requires last == from || (last.round > lo && Reaches(dag, lo, from, last))
      ensures forall a | a in dag[last].ancestors :: a.round < last.round && Reaches(dag, lo, from, a)
    {
      forall a | a in dag[last].ancestors ensures Reaches(dag, lo, from, a) {
        assert Reaches(dag, lo, last, a);
        if last != from { ReachesTransitive(dag, lo, from, last, a); }
      }
    }

    lemma PendingIsDone(from: BlockRef, round: nat, lo: nat, linked: set<BlockRef>)
      requires Walkable(dag, lo) && from in dag && lo < round && Pending(from, round, lo, linked)
      requires forall r | r in linked :: r.round <= round && Reaches(dag, lo, from, r)
      ensures (set r | r in linked && r.round == round)
           == set r | r in dag && r.round == round && Reaches(dag, lo, from, r)
    {
      forall r | r in linked && r.round == round ensures r in dag { ReachesLower(dag, lo, from, r); }
      forall r | r in dag && r.round == round && Reaches(dag, lo, from, r) ensures r in linked {
        assert FoundVia(round, lo, linked, r);
      }
    }

    /** Every block of `round` in the history is still to be found through `linked`. */
    ghost predicate Pending(from: BlockRef, round: nat, lo: nat, linked: set<BlockRef>)
      requires Walkable(dag, lo) && from in dag && lo < round
    {
      forall r: BlockRef | r.round == round && Reaches(dag, lo, from, r) :: FoundVia(round, lo, linked, r)
    }

    ghost predicate FoundVia(round: nat, lo: nat, linked: set<BlockRef>, r: BlockRef)
      requires Walkable(dag, lo) && lo < round
    {
      r in linked || exists x :: x in linked && x.round > round && x in dag && Reaches(dag, lo, x, r)
    }

    lemma AncestorsArePending(from: BlockRef, round: nat, lo: nat)
      requires Walkable(dag, lo) && from in dag && lo < round
      ensures Pending(from, round, lo, set a | a in dag[from].ancestors)
    {
      var linked := set a | a in dag[from].ancestors;
      forall r: BlockRef | r.round == round && Reaches(dag, lo, from, r) ensures FoundVia(round, lo, linked, r) {
        var a :| a in dag[from].ancestors && (a == r || (a.round > lo && Reaches(dag, lo, a, r)));
        if a != r { ReachesLower(dag, lo, a, r); }
      }
    }

    lemma StepKeepsPending(from: BlockRef, round: nat, lo: nat, linked: set<BlockRef>, last: BlockRef)
      requires Walkable(dag, lo) && from in dag && lo < round && Pending(from, round, lo, linked)
      requires last in linked && last.round > round && last in dag
      ensures Pending(from, round, lo, linked - {last} + set a | a in dag[last].ancestors)
    {
      var next := linked - {last} + set a | a in dag[last].ancestors;
      forall r: BlockRef | r.round == round && Reaches(dag, lo, from, r) ensures FoundVia(round, lo, next, r) {
        if r !in linked {
          var x :| x in linked && x.round > round && x in dag && Reaches(dag, lo, x, r);
          if x == last {
            var a :| a in dag[last].ancestors && (a == r || (a.round > lo && Reaches(dag, lo, a, r)));
            if a != r { ReachesLower(dag, lo, a, r); }
          }
        }
      }
    }

    method HighestOf(linked: set<BlockRef>) returns (last: BlockRef)
      requires linked != {}
      ensures last in linked && forall r | r in linked :: r.round <= last.round
    {
      last :| last in linked;
      var rest := linked - {last};
      while rest != {}
        invariant rest <= linked && last in linked
        invariant forall r | r in linked && r !in rest :: r.round <= last.round
        decreases rest
      {
        var r :| r in rest;
        if r.round > last.round { last := r; }
        rest := rest - {r};
      }
    }

    // ---------- Blame, certificates, support ----------

    ghost function BlameAuthors(blocks: seq<Block>, leader: nat): set<nat> {
      set b | b in blocks && IsBlame(b, leader) :: b.ref.author
    }

    method EnoughLeaderBlame(votingRound: nat, leader: nat) returns (enough: bool)
      requires Valid() && votingRound > lastCommitRound
      ensures enough <==> IsQuorum(committee, Blamers(dag, votingRound, leader))
    {
      var votingBlocks := UncommittedBlocksAtRound(votingRound);
      assert BlameAuthors(votingBlocks, leader) == Blamers(dag, votingRound, leader) by {
        BlameAuthorsAreBlamers(votingBlocks, votingRound, leader);
      }
      var aggregator := new StakeAggregator(committee);
      NobodyIsNoQuorum(committee);
      for i := 0 to |votingBlocks|
        invariant aggregator.Valid(committee)
        invariant aggregator.votes == BlameAuthors(votingBlocks[..i], leader)
        invariant !IsQuorum(committee, aggregator.votes)
      {
        var block := votingBlocks[i];
        assert votingBlocks[..i + 1] == votingBlocks[..i] + [block];
        if IsBlame(block, leader) {
          var reached := aggregator.Add(block.ref.author, committee);
          if reached {
            SupersetOfQuorum(committee, aggregator.votes, BlameAuthors(votingBlocks, leader));
            return true;
          }
        }
      }
      assert votingBlocks[..|votingBlocks|] == votingBlocks;
      return false;
    }

    lemma BlameAuthorsAreBlamers(blocks: seq<Block>, round: nat, leader: nat)
      requires forall b | b in blocks :: b.ref in dag && b == dag[b.ref] && b.ref.round == round
      requires Refs(blocks) == set r | r in dag && r.round == round
      ensures BlameAuthors(blocks, leader) == Blamers(dag, round, leader)
    {
      forall r | r in dag && r.round == round ensures dag[r] in blocks && dag[r].ref == r {
        InBlocks(blocks, r);
      }
    }

    lemma InBlocks(blocks: seq<Block>, r: BlockRef)
      requires forall b | b in blocks :: b.ref in dag && b == dag[b.ref]
      requires r in Refs(blocks)
      ensures r in dag && dag[r] in blocks && dag[r].ref == r
    {
      var b :| b in blocks && b.ref == r;
    }

    /** Each cached answer is what a fresh look at the block would give. */
    ghost predicate CacheFor(leader: BlockRef, allVotes: map<BlockRef, bool>)
      requires Walkable(dag, leader.round)
    {
      forall r | r in allVotes :: allVotes[r] <==> r in dag && IsVote(dag, r, leader)
    }

    ghost function VoteAuthors(ancestors: seq<BlockRef>, leader: BlockRef): set<nat>
      requires Walkable(dag, leader.round)
    {
      set a | a in ancestors && a in dag && IsVote(dag, a, leader) :: a.author
    }

    method IsCertificate(potentialCertificate: Block, leader: Block, allVotes: map<BlockRef, bool>)
      returns (certificate: bool, cache: map<BlockRef, bool>)
      requires Valid() && GcRound() <= leader.ref.round && Walkable(dag, leader.ref.round)
      requires potentialCertificate.ref in dag && dag[potentialCertificate.ref] == potentialCertificate
      requires CacheFor(leader.ref, allVotes)
      ensures certificate <==> Certifies(committee, dag, potentialCertificate.ref, leader.ref)
      ensures CacheFor(leader.ref, cache) && allVotes.Keys <= cache.Keys
      ensures !certificate ==> forall a | a in potentialCertificate.ancestors :: a in cache
    {
      cache := allVotes;
      var ancestors := potentialCertificate.ancestors;
      assert VoteAuthors(ancestors, leader.ref) == Voters(dag, potentialCertificate.ref, leader.ref);
      var aggregator := new StakeAggregator(committee);
      NobodyIsNoQuorum(committee);
      for i := 0 to |ancestors|
        invariant aggregator.Valid(committee) && CacheFor(leader.ref, cache) && allVotes.Keys <= cache.Keys
        invariant forall a | a in ancestors[..i] :: a in cache
        invariant aggregator.votes == VoteAuthors(ancestors[..i], leader.ref)
        invariant !IsQuorum(committee, aggregator.votes)
      {
        var reference := ancestors[i];
        assert ancestors[..i + 1] == ancestors[..i] + [reference];
        var isVote;
        if reference in cache {
          isVote := cache[reference];
        } else {
          if reference in dag {
            isVote := IsVote(dag, reference, leader.ref);
          } else {
            // The assertion of the source: only collected blocks may be absent.
            assert reference.round <= GcRound();
            isVote := false;
          }
          cache := cache[reference := isVote];
        }
        if isVote {
          var reached := aggregator.Add(reference.author, committee);
          if reached {
            SupersetOfQuorum(committee, aggregator.votes, VoteAuthors(ancestors, leader.ref));
            return true, cache;
          }
        }
      }
      assert ancestors[..|ancestors|] == ancestors;
      return false, cache;
    }

    ghost function CertifierAuthors(blocks: seq<Block>, leader: BlockRef): set<nat>
      requires Walkable(dag, leader.round)
      requires forall b | b in blocks :: b.ref in dag && b == dag[b.ref]
    {
      set b | b in blocks && Certifies(committee, dag, b.ref, leader) :: b.ref.author
    }

    lemma CertifierAuthorsAreCertifiers(blocks: seq<Block>, round: nat, leader: BlockRef)
      requires Walkable(dag, leader.round)
      requires forall b | b in blocks :: b.ref in dag && b == dag[b.ref] && b.ref.round == round
      requires Refs(blocks) == set r | r in dag && r.round == round
      ensures CertifierAuthors(blocks, leader) == Certifiers(committee, dag, round, leader)
    {
      hide Certifies, Walkable;
      forall r | r in dag && r.round == round ensures dag[r] in blocks && dag[r].ref == r {
        InBlocks(blocks, r);
      }
    }

    /** True exactly when distinct authors of decision-round certificates hold a quorum,
        whatever the cache and the early returns skip. */
    method EnoughLeaderSupport(decisionRound: nat, leader: Block) returns (enough: bool)
      requires Valid() && decisionRound > lastCommitRound
      requires GcRound() <= leader.ref.round && Walkable(dag, leader.ref.round)
      ensures enough <==> Supported(committee, dag, decisionRound, leader.ref)
    {
      hide Certifies, Reaches;
      var decisionBlocks := UncommittedBlocksAtRound(decisionRound);
      CertifierAuthorsAreCertifiers(decisionBlocks, decisionRound, leader.ref);
      var totalStake := AuthorStakes(committee, decisionBlocks);
      if !committee.ReachedQuorum(totalStake) {
        DistinctStakeAtMostSum(committee, decisionBlocks);
        StakeMonotone(committee.stakes, CertifierAuthors(decisionBlocks, leader.ref), Authors(decisionBlocks),
          committee.Size());
        return false;
      }
      var aggregator := new StakeAggregator(committee);
      NobodyIsNoQuorum(committee);
      var allVotes := map[];
      for i := 0 to |decisionBlocks|
        invariant aggregator.Valid(committee) && CacheFor(leader.ref, allVotes)
        invariant aggregator.votes == CertifierAuthors(decisionBlocks[..i], leader.ref)
        invariant !IsQuorum(committee, aggregator.votes)
      {
        var block := decisionBlocks[i];
        assert decisionBlocks[..i + 1] == decisionBlocks[..i] + [block];
        var certificate;
        certificate, allVotes := IsCertificate(block, leader, allVotes);
        if certificate {
          var reached := aggregator.Add(block.ref.author, committee);
          if reached {
            SupersetOfQuorum(committee, aggregator.votes, CertifierAuthors(decisionBlocks, leader.ref));
            return true;
          }
        }
      }
      assert decisionBlocks[..|decisionBlocks|] == decisionBlocks;
      return false;
    }

    // ---------- Decisions ----------

    /** A slot this committer elects, above the collection round. */
    ghost predicate CanDecide(slot: Slot)
      ensures CanDecide(slot) ==>
        && Valid() && Walkable(dag, slot.round) && options.waveLength >= MINIMUM_WAVE_LENGTH
        && GcRound() <= slot.round && slot.round + 1 > lastCommitRound
    {
      && Valid() && options.waveLength >= MINIMUM_WAVE_LENGTH
      && options.Elects(slot.round)
      && GcRound() <= slot.round
      && slot.round + 1 > lastCommitRound
    }

    ghost function DecisionRoundOf(slot: Slot): nat
      requires options.waveLength >= 1
    {
      slot.round + options.waveLength - 1
    }

    /** The decision round closes the wave that the slot opens. */
    function DecisionRoundAt(slot: Slot): (round: nat)
      requires CanDecide(slot)
      ensures round == DecisionRoundOf(slot)
    {
      options.DecisionRound(options.WaveNumber(slot.round))
    }

    method TryDirectDecide(slot: Slot) returns (status: LeaderStatus)
      requires CanDecide(slot)
      requires AtMostOneSupported(committee, dag, slot, DecisionRoundOf(slot))
      ensures status == DirectDecision(committee, dag, slot, DecisionRoundOf(slot))
      ensures var silent := set r | r in dag && r.round == slot.round + 1
          && (forall a | a in dag[r].ancestors :: a.author != slot.authority) :: r.author;
        && (status.Skip? <==> IsQuorum(committee, silent))
        && (status.Undecided? <==>
              && !IsQuorum(committee, silent)
              && forall l | l in dag && l.SlotOf() == slot :: !Supported(committee, dag, DecisionRoundOf(slot), l))
    {
      hide Supported, Walkable, Reaches, CanDecide, DecisionRoundAt, Valid;
      var votingRound := slot.round + 1;
      assert Blamers(dag, votingRound, slot.authority) == set r | r in dag && r.round == slot.round + 1
        && (forall a | a in dag[r].ancestors :: a.author != slot.authority) :: r.author;
      var blamed := EnoughLeaderBlame(votingRound, slot.authority);
      if blamed {
        return Skip(slot);
      }
      var decisionRound := DecisionRoundAt(slot);
      var leaderBlocks := UncommittedBlocksAtSlot(slot);
      var supported: seq<Block> := [];
      for i := 0 to |leaderBlocks|
        invariant forall b | b in supported :: b in leaderBlocks[..i]
        invariant DistinctRefs(supported)
        invariant forall b | b in leaderBlocks[..i] ::
                    b in supported <==> Supported(committee, dag, decisionRound, b.ref)
      {
        var enough := EnoughLeaderSupport(decisionRound, leaderBlocks[i]);
        assert leaderBlocks[..i + 1] == leaderBlocks[..i] + [leaderBlocks[i]];
        assert forall b | b in leaderBlocks[..i] :: b.ref != leaderBlocks[i].ref;
        if enough { supported := supported + [leaderBlocks[i]]; }
      }
      forall l | SupportedAt(committee, dag, slot, decisionRound, l) ensures dag[l] in supported {
        InBlocks(leaderBlocks, l);
      }
      // The panic of the source: more than one supported block.
      assert |supported| <= 1 by {
        assert forall b | b in supported :: SupportedAt(committee, dag, slot, decisionRound, b.ref);
        if |supported| > 1 { var b, b' := TwoDiffer(supported); }
      }
      if |supported| > 0 {
        var last := supported[|supported| - 1];
        SupportedIsCommitted(committee, dag, slot, decisionRound, last.ref);
        return Commit(last);
      }
      return Undecided(slot);
    }

    /** Whether some block of `certificates` certifies `leader`; one cache for all of them. */
    method AnyCertifies(certificates: seq<Block>, leader: Block) returns (found: bool)
      requires Valid() && GcRound() <= leader.ref.round && Walkable(dag, leader.ref.round)
      requires forall b | b in certificates :: b.ref in dag && b == dag[b.ref]
      ensures found <==> exists b :: b in certificates && Certifies(committee, dag, b.ref, leader.ref)
    {
      hide Certifies, Walkable;
      var allVotes := map[];
      for i := 0 to |certificates|
        invariant CacheFor(leader.ref, allVotes)
        invariant forall b | b in certificates[..i] :: !Certifies(committee, dag, b.ref, leader.ref)
      {
        var certificate;
        certificate, allVotes := IsCertificate(certificates[i], leader, allVotes);
        if certificate { return true; }
      }
      return false;
    }

    method CertifiedAmong(leaderBlocks: seq<Block>, certificates: seq<Block>, slot: Slot, decisionRound: nat,
                          anchor: BlockRef) returns (certified: seq<Block>)
      requires Valid() && GcRound() <= slot.round <= decisionRound && Walkable(dag, slot.round) && anchor in dag
      requires forall b | b in leaderBlocks :: b.ref in dag && b == dag[b.ref] && b.ref.SlotOf() == slot
      requires forall b | b in certificates :: b.ref in dag && b == dag[b.ref]
      requires Refs(certificates) == set r | r in dag && r.round == decisionRound && Reaches(dag, slot.round, anchor, r)
      requires DistinctRefs(leaderBlocks)
      ensures DistinctRefs(certified) && forall b | b in certified :: b in leaderBlocks
      ensures forall b | b in leaderBlocks ::
                b in certified <==> CertifiedAt(committee, dag, slot, decisionRound, anchor, b.ref)
    {
      hide Certifies, Walkable, Reaches, CertifiedAt;
      certified := [];
      for i := 0 to |leaderBlocks|
        invariant forall b | b in certified :: b in leaderBlocks[..i]
        invariant DistinctRefs(certified)
        invariant forall b | b in leaderBlocks[..i] ::
                    b in certified <==> CertifiedAt(committee, dag, slot, decisionRound, anchor, b.ref)
      {
        var leader := leaderBlocks[i];
        var found := AnyCertifies(certificates, leader);
        CertifiedByAncestors(certificates, decisionRound, slot, anchor, leader.ref);
        assert leaderBlocks[..i + 1] == leaderBlocks[..i] + [leader];
        assert forall b | b in leaderBlocks[..i] :: b.ref != leader.ref;
        if found { certified := certified + [leader]; }
      }
    }

    method DecideLeaderFromAnchor(anchor: Block, slot: Slot) returns (status: LeaderStatus)
      requires CanDecide(slot) && anchor.ref in dag && dag[anchor.ref] == anchor
      requires AtMostOneCertified(committee, dag, slot, DecisionRoundOf(slot), anchor.ref)
      ensures status == AnchorDecision(committee, dag, slot, DecisionRoundOf(slot), anchor.ref)
      ensures status == Skip(slot) <==>
        forall l, r | l in dag && l.SlotOf() == slot && r in dag && r.round == slot.round + options.waveLength - 1
          && Reaches(dag, slot.round, anchor.ref, r) :: !Certifies(committee, dag, r, l)
      ensures status != Skip(slot) ==>
        && status.Commit? && status.block.ref in dag && status.block.ref.SlotOf() == slot
        && dag[status.block.ref] == status.block
        && exists r :: r in dag && r.round == slot.round + options.waveLength - 1
             && Reaches(dag, slot.round, anchor.ref, r) && Certifies(committee, dag, r, status.block.ref)
    {
      hide Certifies, Walkable, Reaches, CanDecide, DecisionRoundAt, Valid;
      var leaderBlocks := UncommittedBlocksAtSlot(slot);
      var decisionRound := DecisionRoundAt(slot);
      var certificates := AncestorsAtRound(anchor.ref, decisionRound, slot.round);
      var certified := CertifiedAmong(leaderBlocks, certificates, slot, decisionRound, anchor.ref);
      assert forall b | b in certified :: CertifiedAt(committee, dag, slot, decisionRound, anchor.ref, b.ref);
      forall l | CertifiedAt(committee, dag, slot, decisionRound, anchor.ref, l) ensures dag[l] in certified {
        InBlocks(leaderBlocks, l);
      }
      // The panic of the source: more than one certified block.
      assert |certified| <= 1 by {
        if |certified| > 1 { var b, b' := TwoDiffer(certified); }
      }
      if |certified| > 0 {
        var last := certified[|certified| - 1];
        CertifiedIsCommitted(committee, dag, slot, decisionRound, anchor.ref, last.ref);
        return Commit(last);
      }
      return Skip(slot);
    }

    lemma CertifiedByAncestors(certificates: seq<Block>, round: nat, slot: Slot, anchor: BlockRef, leader: BlockRef)
      requires Walkable(dag, slot.round) && anchor in dag && slot.round <= round
      requires forall b | b in certificates :: b.ref in dag && b == dag[b.ref]
      requires Refs(certificates) == set r | r in dag && r.round == round && Reaches(dag, slot.round, anchor, r)
      requires leader in dag && leader.SlotOf() == slot
      ensures CertifiedAt(committee, dag, slot, round, anchor, leader)
              <==> exists b :: b in certificates && Certifies(committee, dag, b.ref, leader)
    {
      hide Certifies, Walkable, Reaches;
      if b :| b in certificates && Certifies(committee, dag, b.ref, leader) {
        assert b.ref in Refs(certificates);
      }
      if CertifiedAt(committee, dag, slot, round, anchor, leader) {
        var r :| r in dag && r.round == round && Reaches(dag, slot.round, anchor, r)
          && Certifies(committee, dag, r, leader);
        InBlocks(certificates, r);
      }
    }

    /** The first committed leader past the wave decides; an undecided one stops the search. */
    method TryIndirectDecide(slot: Slot, leaders: seq<LeaderStatus>) returns (status: LeaderStatus)
      requires CanDecide(slot) && CommitsIn(dag, leaders)
      requires forall a | a in dag :: AtMostOneCertified(committee, dag, slot, DecisionRoundOf(slot), a)
      ensures status == IndirectDecision(committee, dag, slot, DecisionRoundOf(slot), options.waveLength, leaders)
    {
      hide AtMostOneCertified, AnchorDecision, Walkable;
      var first := slot.round + options.waveLength;
      AnchorIsInDag(dag, first, leaders);
      assert leaders[0..] == leaders;
      for i := 0 to |leaders|
        invariant FindAnchor(first, leaders[i..]) == FindAnchor(first, leaders)
      {
        assert leaders[i..] == [leaders[i]] + leaders[i + 1..];
        FindAnchorCons(first, leaders[i], leaders[i + 1..]);
        if first <= leaders[i].Round() {
          match leaders[i]
          case Commit(anchor) =>
            status := DecideLeaderFromAnchor(anchor, slot);
            return;
          case Skip(_) =>
          case Undecided(_) =>
            return Undecided(slot);
        }
      }
      return Undecided(slot);
    }
  }
}
