/** The block manager (consensus/core/src/block_manager.rs): it suspends blocks until
    their ancestors are accepted and returns newly connected blocks.

    The part of `DagState` it shares (the accepted blocks and the collection round) is
    kept in the fields `dag` and `gcRound`. */
module BlockManagers {
  import opened Blocks
  import opened Suspension
  import opened Sorting

  datatype TryAcceptResult =
    | Accepted(block: Block)
    | SuspendedResult(ancestorsToFetch: set<BlockRef>)
    | Processed
    | Skipped

  /** Order of references: round, then author, then digest. */
  predicate Less(r: BlockRef, s: BlockRef) {
    r.round < s.round || (r.round == s.round && (r.author < s.author || (r.author == s.author && r.digest < s.digest)))
  }

  class BlockManager {
    const genesis: set<BlockRef>
    var dag: Dag
    var gcRound: nat
    var suspended: map<BlockRef, Suspended>
    var missingAncestors: map<BlockRef, set<BlockRef>>
    var missingBlocks: set<BlockRef>

    ghost function Snapshot(): State
      reads this
    {
      State(genesis, dag, gcRound, suspended, missingAncestors, missingBlocks)
    }

    ghost predicate Valid()
      reads this
    {
      Inv(Snapshot())
    }

    constructor (genesisBlocks: Dag)
      requires forall r | r in genesisBlocks :: genesisBlocks[r] == Block(r, []) && r.round == GENESIS_ROUND
      ensures Valid() && Closed(dag, gcRound) && dag == genesisBlocks && genesis == genesisBlocks.Keys && gcRound == 0
      ensures suspended == map[] && missingAncestors == map[] && missingBlocks == {}
    {
      genesis, dag, gcRound := genesisBlocks.Keys, genesisBlocks, 0;
      suspended, missingAncestors, missingBlocks := map[], map[], {};
    }

    // ---------- DagState ----------

    /** Accepts blocks, ignoring those it already holds. */
    method AcceptBlocks(blocks: seq<Block>)
      requires forall b | b in blocks :: b.ref.round != GENESIS_ROUND
      requires DistinctRefs(blocks)
      modifies this`dag
      ensures Grown(old(dag), dag, blocks)
    {
      for i := 0 to |blocks|
        invariant dag.Keys == old(dag).Keys + Refs(blocks[..i])
        invariant forall r | r in old(dag) :: dag[r] == old(dag)[r]
        invariant forall k | 0 <= k < i && blocks[k].ref !in old(dag) :: dag[blocks[k].ref] == blocks[k]
      {
        var b := blocks[i];
        assert blocks[..i + 1] == blocks[..i] + [b];
        AppendRefs(blocks[..i], [b]);
        assert Refs([b]) == {b.ref};
        if b.ref !in dag { dag := dag[b.ref := b]; }
      }
      assert blocks[..|blocks|] == blocks;
    }

    /** A commit moves the collection round up. */
    method AdvanceGcRound(round: nat)
      requires Valid() && gcRound <= round
      modifies this`gcRound
      ensures Valid() && gcRound == round
      ensures old(Closed(dag, gcRound)) ==> Closed(dag, gcRound)
    {
      hide Linked, LowerRounds;
      ghost var s := Snapshot();
      gcRound := round;
      forall b | b in suspended ensures WaitsRightly(Snapshot(), b) {
        assert WaitsRightly(s, b);
        assert Unmet(dag, gcRound, suspended[b].block) <= Unmet(dag, s.gc, suspended[b].block);
      }
    }

    // ---------- Unsuspending ----------

    /** Neither panic of the source can happen: the block is suspended and waits for `dependency`. */
    method TryUnsuspendBlock(blockRef: BlockRef, dependency: BlockRef) returns (freed: Option<Block>)
      requires blockRef in suspended && dependency in suspended[blockRef].missing
      modifies this`suspended
      ensures var e := old(suspended)[blockRef];
        if e.missing == {dependency}
        then freed == Some(e.block) && suspended == old(suspended) - {blockRef}
        else freed == None && suspended == old(suspended)[blockRef := Suspended(e.block, e.missing - {dependency})]
    {
      var e := suspended[blockRef];
      var missing := e.missing - {dependency};
      suspended := suspended[blockRef := Suspended(e.block, missing)];
      if missing == {} {
        assert e.missing == {dependency};
        suspended := suspended - {blockRef};
        return Some(e.block);
      }
      return None;
    }

    /** Removes `dependency` from every block that waits for it, and frees those that
        waited for nothing else. */
    method ResolveDependency(dependency: BlockRef) returns (freed: seq<Block>)
      requires Linked(suspended, missingAncestors)
      modifies this`suspended, this`missingAncestors
      ensures FreedBy(old(suspended), dependency, freed)
      ensures suspended == Resolve(old(suspended), Refs(freed), {dependency})
      ensures missingAncestors == old(missingAncestors) - {dependency}
      ensures Linked(suspended, missingAncestors)
    {
      freed := [];
      ghost var before := suspended;
      var children: set<BlockRef> := {};
      if dependency in missingAncestors { children := missingAncestors[dependency]; }
      assert forall r | r in children :: r in before && dependency in before[r].missing && before[r].block.ref == r;
      assert forall b | b in before :: before[b].missing != {};
      hide Linked, FreedBy;
      missingAncestors := missingAncestors - {dependency};
      var rest := children;
      assert before == Partly(before, Refs(freed), {}, dependency);
      NobodyFreed(before, dependency);
      while rest != {}
        invariant rest <= children && missingAncestors == old(missingAncestors) - {dependency}
        invariant FreedBy(before, dependency, freed) && Refs(freed) <= children - rest
        invariant suspended == Partly(before, Refs(freed), children - rest, dependency)
        invariant forall b | b in suspended :: suspended[b].missing != {}
        decreases rest
      {
        var r :| r in rest;
        assert suspended[r] == before[r];
        var block := TryUnsuspendBlock(r, dependency);
        PartlyStep(before, Refs(freed), children - rest, dependency, r);
        assert children - rest + {r} == children - (rest - {r});
        rest := rest - {r};
        if block.Some? {
          FreedByMore(before, dependency, freed, block.value);
          freed := freed + [block.value];
        }
      }
      assert children - rest == children;
      ResolvedByOne(before, old(missingAncestors), dependency, freed, suspended);
    }

    /** Frees every block that `accepted` allows, directly or through others. */
    method TryUnsuspendChildrenBlocks(accepted: BlockRef) returns (unsuspended: seq<Block>)
      requires Linked(suspended, missingAncestors) && accepted !in suspended
      modifies this`suspended, this`missingAncestors
      ensures FreedInOrder(old(suspended), accepted, unsuspended)
      ensures Linked(suspended, missingAncestors)
      ensures var gone := {accepted} + Refs(unsuspended);
              suspended == Resolve(old(suspended), gone, gone) && missingAncestors == old(missingAncestors) - gone
    {
      hide Linked, FreedInOrder, Resolve;
      unsuspended := [];
      var toProcess := [accepted];
      ghost var done: set<BlockRef> := {};
      ghost var before := suspended;
      StartFreeing(before, accepted);
      while toProcess != []
        invariant Linked(suspended, missingAncestors)
        invariant Freeing(before, accepted, unsuspended, toProcess, done)
        invariant suspended == Resolve(before, {accepted} + Refs(unsuspended), done)
        invariant missingAncestors == old(missingAncestors) - done
        decreases suspended.Keys, |toProcess|
      {
        var blockRef := toProcess[|toProcess| - 1];
        toProcess := toProcess[..|toProcess| - 1];
        var freed := ResolveDependency(blockRef);
        FreeingStep(before, accepted, unsuspended, toProcess, done, blockRef, freed, suspended.Keys);
        done := done + {blockRef};
        unsuspended := unsuspended + freed;
        toProcess := toProcess + RefSeq(freed);
      }
      assert done == {accepted} + Refs(unsuspended);
    }

    // ---------- Accepting one block ----------

    /** Notes, for each needed ancestor that is not accepted, that the block waits for it. */
    method RecordMissing(block: Block) returns (missing: set<BlockRef>, toFetch: set<BlockRef>)
      modifies this`missingAncestors, this`missingBlocks
      ensures missing == Unmet(dag, gcRound, block) && toFetch == missing - suspended.Keys
      ensures missingAncestors == AddDependant(old(missingAncestors), missing, block.ref)
      ensures missingBlocks == old(missingBlocks) + toFetch
    {
      hide AddDependant;
      missing, toFetch := {}, {};
      AddNone(missingAncestors, block.ref);
      for i := 0 to |block.ancestors|
        invariant missing == UnmetIn(dag, gcRound, block.ancestors[..i])
        invariant toFetch == missing - suspended.Keys
        invariant missingAncestors == AddDependant(old(missingAncestors), missing, block.ref)
        invariant missingBlocks == old(missingBlocks) + toFetch
      {
        var a := block.ancestors[i];
        assert block.ancestors[..i + 1] == block.ancestors[..i] + [a];
        if Needed(gcRound, a) && a !in dag {
          AddOneMore(old(missingAncestors), missing, block.ref, a);
          missing := missing + {a};
          missingAncestors := missingAncestors[a := OrDefault(missingAncestors, a) + {block.ref}];
          if a !in suspended {
            toFetch := toFetch + {a};
            missingBlocks := missingBlocks + {a};
          }
        }
      }
      assert block.ancestors[..|block.ancestors|] == block.ancestors;
    }

    /** Accepts the block if its needed ancestors are accepted, otherwise suspends it and
        records what it waits for. */
    method TryAcceptOneBlock(block: Block) returns (r: TryAcceptResult)
      requires Valid() && Rooted(genesis, block)
      modifies this`suspended, this`missingAncestors, this`missingBlocks
      ensures r.Processed? <==> block.ref in old(suspended) || block.ref in dag
      ensures r.Skipped? <==> !r.Processed? && block.ref.round <= gcRound
      ensures r.Processed? || r.Skipped? ==> Snapshot() == old(Snapshot())
      ensures r.Accepted? <==>
        && block.ref !in old(suspended) && block.ref !in dag && block.ref.round > gcRound
        && forall a | a in block.ancestors && (a.round == 0 || a.round > gcRound) :: a in dag
      ensures r.Accepted? ==>
        r.block == block && Snapshot() == old(Snapshot()).(missing := old(missingBlocks) - {block.ref})
      ensures r.SuspendedResult? ==>
        && Valid()
        && suspended == old(suspended)[block.ref := Suspended(block, Unmet(dag, gcRound, block))]
        && r.ancestorsToFetch == Unmet(dag, gcRound, block) - old(suspended).Keys
        && missingBlocks == old(missingBlocks) + r.ancestorsToFetch - {block.ref}
        && missingAncestors == AddDependant(old(missingAncestors), Unmet(dag, gcRound, block), block.ref)
    {
      UnmetIff(dag, gcRound, block);
      hide Inv, Rooted, Unmet;
      var blockRef := block.ref;
      if blockRef in suspended || blockRef in dag { return Processed; }
      if block.ref.round <= gcRound { return Skipped; }
      ghost var s := Snapshot();
      var missing, toFetch := RecordMissing(block);
      missingBlocks := missingBlocks - {blockRef};
      AddNone(s.dependants, blockRef);
      if missing != {} {
        suspended := suspended[blockRef := Suspended(block, missing)];
        SuspendKeepsInv(s, Snapshot(), block);
        return SuspendedResult(toFetch);
      }
      return Accepted(block);
    }

    /** A committed block is accepted at once; if it was suspended it stops waiting. */
    method TryAcceptOneCommittedBlock(block: Block) returns (r: TryAcceptResult)
      requires Valid() && Rooted(genesis, block)
      modifies this
      ensures r.Processed? <==> block.ref in old(dag)
      ensures r.Processed? ==> Snapshot() == old(Snapshot())
      ensures !r.Processed? ==>
        && r == Accepted(block) && gcRound == old(gcRound)
        && dag == old(dag)[block.ref := block]
        && Inv(Released(old(Snapshot()), block.ref))
        && suspended == Released(old(Snapshot()), block.ref).suspended
        && missingAncestors == Released(old(Snapshot()), block.ref).dependants
        && missingBlocks == Released(old(Snapshot()), block.ref).missing - {block.ref}
    {
      hide Inv, Rooted, Unlink;
      if block.ref in dag { return Processed; }
      ghost var s := Snapshot();
      missingBlocks := missingBlocks - {block.ref};
      if block.ref in suspended {
        var rest := suspended[block.ref].missing;
        ghost var all := rest;
        suspended := suspended - {block.ref};
        UnlinkNone(missingAncestors, block.ref);
        assert all - rest == {};
        while rest != {}
          modifies this`missingAncestors
          invariant rest <= all && missingAncestors == Unlink(s.dependants, all - rest, block.ref)
          decreases rest
        {
          var a :| a in rest;
          UnlinkOneMore(s.dependants, all - rest, block.ref, a);
          assert all - rest + {a} == all - (rest - {a});
          if a in missingAncestors {
            missingAncestors := missingAncestors[a := missingAncestors[a] - {block.ref}];
          }
          rest := rest - {a};
        }
        assert all - rest == all;
      }
      ReleaseKeepsInv(s, block.ref);
      dag := dag[block.ref := block];
      return Accepted(block);
    }

    // ---------- Accepting a batch ----------

    /** One verified block, and every suspended block it frees. */
    method ProcessBlock(block: Block) returns (accepted: seq<Block>, toFetch: set<BlockRef>)
      requires Valid() && Rooted(genesis, block)
      modifies this
      ensures Advanced(old(Snapshot()), Snapshot(), accepted) && CausalOrder(old(dag), gcRound, accepted)
      ensures Held(Snapshot()) == Receive(old(Held(Snapshot())), gcRound, block)
      ensures KeysStay(old(Snapshot()), Snapshot())
      ensures old(missingBlocks) + toFetch - {block.ref} <= missingBlocks <= old(missingBlocks) + toFetch
      ensures forall a | a in toFetch :: a.round < block.ref.round && a in block.ancestors
      ensures Reports(old(Snapshot()), Snapshot(), toFetch)
    {
      hide Inv, Rooted, Held, CausalOrder, FreedInOrder, Grown, AddDependant, Linked, KeysStay, DagOk, LowerRounds,
        DistinctRefs, Resolve, Reports;
      accepted, toFetch := [], {};
      ghost var s := Snapshot();
      AdvancedNone(s, s);
      ReceiveHeld(s, block);
      InvLinks(s, block);
      ReportsNothing(s);
      var r := TryAcceptOneBlock(block);
      match r
      case Accepted(b) =>
        var freed := TryUnsuspendChildrenBlocks(block.ref);
        FreedNotGenesis(s, block, freed);
        accepted := [b] + freed;
        AcceptBlocks(accepted);
        AcceptAdvances(s, Snapshot(), block, freed);
        ReportsFreed(s, Snapshot(), {block.ref} + Refs(freed));
      case SuspendedResult(fetch) =>
        toFetch := fetch;
        UnmetRounds(s, block);
        AdvancedNone(s, Snapshot());
        SuspendHolds(s, Snapshot(), block);
        ReportsSuspended(s, Snapshot(), block);
      case Processed =>
      case Skipped =>
    }

    /** One block of a certified commit, and every suspended block it frees. */
    method ProcessCommittedBlock(block: Block) returns (accepted: seq<Block>)
      requires Valid() && Rooted(genesis, block)
      modifies this
      ensures Advanced(old(Snapshot()), Snapshot(), accepted) && block.ref in dag
      ensures (forall a | a in block.ancestors && Needed(old(gcRound), a) :: a in old(dag))
              ==> CausalOrder(old(dag), gcRound, accepted)
      ensures Held(Snapshot()) == if block.ref in old(dag) then old(Held(Snapshot()))
        else old(Held(Snapshot()))[block.ref := block]
    {
      hide Inv, Rooted, Held, CausalOrder, FreedInOrder, Grown, Linked, Released;
      accepted := [];
      ghost var s := Snapshot();
      AdvancedNone(s, s);
      var r := TryAcceptOneCommittedBlock(block);
      if r.Accepted? {
        ghost var released := Released(s, block.ref);
        ReleaseKeepsInv(s, block.ref);
        ReleasedSame(s, block.ref);
        ReleasedHolds(s, block);
        InvLinks(released, block);
        var freed := TryUnsuspendChildrenBlocks(block.ref);
        FreedNotGenesis(released, block, freed);
        AcceptBlocks(freed);
        GrowFurther(s.dag, dag, block, freed);
        AcceptAdvances(released, Snapshot(), block, freed);
        accepted := [r.block] + freed;
        AdvancedFrom(s, released, Snapshot(), accepted);
      }
    }

    method AcceptSorted(blocks: seq<Block>) returns (accepted: seq<Block>, missing: set<BlockRef>)
      requires Valid() && (forall b | b in blocks :: Rooted(genesis, b)) && SortedBy(blocks, RoundOf)
      modifies this
      ensures Advanced(old(Snapshot()), Snapshot(), accepted) && CausalOrder(old(dag), gcRound, accepted)
      ensures Received(old(Held(Snapshot())), gcRound, blocks, Held(Snapshot()))
      ensures KeysStay(old(Snapshot()), Snapshot())
      ensures missing <= missingBlocks <= old(missingBlocks) + missing
      ensures ReportsExactly(old(Snapshot()), Snapshot(), blocks, missing)
    {
      hide Inv, Rooted, Held, CausalOrder, Grown, Received, Refs, Linked, KeysStay, Reports, Named, Receive;
      accepted, missing := [], {};
      ghost var s := Snapshot();
      AdvancedNone(s, s);
      ReportsNothing(s);
      ReceivedNone(Held(s), gcRound);
      for i := 0 to |blocks|
        invariant Advanced(s, Snapshot(), accepted) && CausalOrder(s.dag, s.gc, accepted)
        invariant Received(Held(s), s.gc, blocks[..i], Held(Snapshot()))
        invariant KeysStay(s, Snapshot())
        invariant missing <= missingBlocks <= s.missing + missing
        invariant forall a, k | a in missing && i <= k < |blocks| :: a.round < blocks[k].ref.round
        invariant ReportsExactly(s, Snapshot(), blocks[..i], missing)
      {
        ghost var before, done := Snapshot(), accepted;
        assert blocks[..i + 1] == blocks[..i] + [blocks[i]];
        assert forall k | i < k < |blocks| :: RoundOf(blocks[i]) <= RoundOf(blocks[k]);
        ReceivedMore(Held(s), s.gc, blocks[..i], Held(before), blocks[i]);
        HeldGrows(Held(before), s.gc, blocks[i]);
        var more, toFetch := ProcessBlock(blocks[i]);
        AdvancedAppend(s, before, Snapshot(), done, more);
        ReportsMore(s, before, Snapshot(), missing, toFetch);
        AdvancedKeeps(before, Snapshot(), more);
        KeysStayOn(s, before, Snapshot());
        NamedMore(blocks[..i], blocks[i], missing, toFetch);
        accepted := accepted + more;
        missing := missing + toFetch;
      }
      assert blocks[..|blocks|] == blocks;
    }

    method AcceptCommittedSorted(blocks: seq<Block>) returns (accepted: seq<Block>)
      requires Valid() && (forall b | b in blocks :: Rooted(genesis, b)) && SortedBy(blocks, RoundOf)
      modifies this
      ensures Advanced(old(Snapshot()), Snapshot(), accepted)
      ensures forall b | b in blocks :: b.ref in dag
      ensures ClosedBatch(old(dag), old(gcRound), blocks) ==> CausalOrder(old(dag), gcRound, accepted)
      ensures ReceivedAll(old(Held(Snapshot())), blocks, Held(Snapshot()))
    {
      hide Inv, Held, CausalOrder, ReceivedAll, Received, Refs, Linked, Rooted, LowerRounds, ClosedBatch, Advanced;
      accepted := [];
      ghost var s := Snapshot();
      AdvancedNone(s, s);
      assert ReceivedAll(Held(s), [], Held(s)) by { ReceivedAllNone(Held(s)); }
      for i := 0 to |blocks|
        invariant Advanced(s, Snapshot(), accepted)
        invariant forall k | 0 <= k < i :: blocks[k].ref in dag
        invariant ClosedBatch(s.dag, s.gc, blocks) ==> CausalOrder(s.dag, s.gc, accepted)
        invariant ReceivedAll(Held(s), blocks[..i], Held(Snapshot()))
      {
        ghost var before, done := Snapshot(), accepted;
        AdvancedKeeps(s, before, accepted);
        ReceivedOne(Held(s), blocks[..i], Held(before), blocks[i]);
        ReceiveHeld(before, blocks[i]);
        RootedGoesDown(genesis, blocks[i]);
        if ClosedBatch(s.dag, s.gc, blocks) { AncestorsCameFirst(s.dag, s.gc, blocks, i, dag); }
        var more := ProcessCommittedBlock(blocks[i]);
        AdvancedKeeps(before, Snapshot(), more);
        AdvancedAppend(s, before, Snapshot(), done, more);
        accepted := accepted + more;
        assert blocks[..i + 1] == blocks[..i] + [blocks[i]];
      }
      assert blocks[..|blocks|] == blocks;
      AdvancedKeeps(s, Snapshot(), accepted);
    }

    /** Input blocks in round order, each followed by what it frees. */
    method TryAcceptBlocksInternal(blocks: seq<Block>, committed: bool)
      returns (accepted: seq<Block>, missing: set<BlockRef>)
      requires Valid() && forall b | b in blocks :: Rooted(genesis, b)
      modifies this
      ensures Advanced(old(Snapshot()), Snapshot(), accepted)
      ensures committed ==> missing == {} && forall b | b in blocks :: b.ref in dag
      ensures committed && ClosedBatch(old(dag), old(gcRound), blocks) ==> CausalOrder(old(dag), gcRound, accepted)
      ensures committed ==> ReceivedAll(old(Held(Snapshot())), blocks, Held(Snapshot()))
      ensures !committed ==>
        && CausalOrder(old(dag), gcRound, accepted)
        && Received(old(Held(Snapshot())), gcRound, blocks, Held(Snapshot()))
        && KeysStay(old(Snapshot()), Snapshot())
        && missing <= missingBlocks <= old(missingBlocks) + missing
        && ReportsExactly(old(Snapshot()), Snapshot(), blocks, missing)
    {
      hide Inv, Rooted, Held, CausalOrder, Advanced, Linked;
      var sorted := Sort(blocks, RoundOf);
      SortIsSortedAndStable(blocks, RoundOf);
      SameElements(sorted, blocks);
      SameBatch(blocks, sorted);
      if committed {
        accepted := AcceptCommittedSorted(sorted);
        missing := {};
      } else {
        accepted, missing := AcceptSorted(sorted);
      }
    }

    /** The public entry point for verified blocks. A closed DAG stays closed. */
    method TryAcceptBlocks(blocks: seq<Block>) returns (accepted: seq<Block>, missing: set<BlockRef>)
      requires Valid() && forall b | b in blocks :: Rooted(genesis, b)
      modifies this
      ensures Valid() && gcRound == old(gcRound)
      ensures Advanced(old(Snapshot()), Snapshot(), accepted) && CausalOrder(old(dag), gcRound, accepted)
      ensures Received(old(Held(Snapshot())), gcRound, blocks, Held(Snapshot()))
      ensures KeysStay(old(Snapshot()), Snapshot())
      ensures missing <= missingBlocks <= old(missingBlocks) + missing
      ensures ReportsExactly(old(Snapshot()), Snapshot(), blocks, missing)
      ensures old(Closed(dag, gcRound)) ==> Closed(dag, gcRound)
    {
      hide Inv, Rooted, Held, CausalOrder, Linked, Closed, Grown, Refs;
      accepted, missing := TryAcceptBlocksInternal(blocks, false);
      if old(Closed(dag, gcRound)) { CausalOrderKeepsClosed(old(dag), dag, gcRound, accepted); }
    }

    /** The public entry point for the blocks of certified commits. */
    method TryAcceptCommittedBlocks(blocks: seq<Block>) returns (accepted: seq<Block>)
      requires Valid() && forall b | b in blocks :: Rooted(genesis, b)
      modifies this
      ensures Valid() && gcRound == old(gcRound)
      ensures Advanced(old(Snapshot()), Snapshot(), accepted) && forall b | b in blocks :: b.ref in dag
      ensures ReceivedAll(old(Held(Snapshot())), blocks, Held(Snapshot()))
      ensures ClosedBatch(old(dag), old(gcRound), blocks) ==>
        CausalOrder(old(dag), gcRound, accepted) && (old(Closed(dag, gcRound)) ==> Closed(dag, gcRound))
    {
      hide Inv, Rooted, Held, CausalOrder, Linked, Closed, Grown, Refs, ClosedBatch;
      var missing;
      accepted, missing := TryAcceptBlocksInternal(blocks, true);
      // The assertion of the source.
      assert missing == {};
      if ClosedBatch(old(dag), old(gcRound), blocks) && old(Closed(dag, gcRound)) {
        CausalOrderKeepsClosed(old(dag), dag, gcRound, accepted);
      }
    }

    // ---------- Looking for blocks ----------

    /** Which of the references are neither accepted nor suspended; they are noted as missing. */
    method TryFindBlocks(blockRefs: seq<BlockRef>) returns (missing: set<BlockRef>)
      requires Valid()
      modifies this`missingAncestors, this`missingBlocks
      ensures Valid()
      ensures missing == set r | r in blockRefs && r.round > gcRound && r !in dag && r !in suspended
      ensures missingBlocks == old(missingBlocks) + missing
      ensures forall a | a in old(missingAncestors) ::
        a in missingAncestors && missingAncestors[a] == old(missingAncestors)[a]
    {
      hide Linked, WaitsRightly, DagOk;
      missing := {};
      for i := 0 to |blockRefs|
        invariant Valid()
        invariant missing == set r | r in blockRefs[..i] && r.round > gcRound && r !in dag && r !in suspended
        invariant missingBlocks == old(missingBlocks) + missing
        invariant forall a | a in old(missingAncestors) ::
          a in missingAncestors && missingAncestors[a] == old(missingAncestors)[a]
      {
        var r := blockRefs[i];
        assert blockRefs[..i + 1] == blockRefs[..i] + [r];
        if r.round > gcRound && r !in dag && r !in suspended {
          missing := missing + {r};
          if r !in missingBlocks {
            ghost var s := Snapshot();
            missingBlocks := missingBlocks + {r};
            missingAncestors := missingAncestors[r := OrDefault(missingAncestors, r)];
            NoteKeepsInv(s, Snapshot(), r);
          }
        }
      }
      assert blockRefs[..|blockRefs|] == blockRefs;
    }

    // ---------- Garbage collection ----------

    method LeastKey() returns (least: BlockRef)
      requires missingAncestors.Keys != {}
      ensures least in missingAncestors && forall a | a in missingAncestors :: a == least || Less(least, a)
    {
      var rest := missingAncestors.Keys;
      least :| least in rest;
      rest := rest - {least};
      while rest != {}
        invariant rest <= missingAncestors.Keys && least in missingAncestors
        invariant forall a | a in missingAncestors && a !in rest :: a == least || Less(least, a)
        decreases rest
      {
        var a :| a in rest;
        if Less(a, least) { least := a; }
        rest := rest - {a};
      }
    }

    /** Drops missing references at or below the collection round, least first, and
        accepts what only waited for them. */
    method TryUnsuspendBlocksForLatestGcRound() returns (ghost accepted: seq<Block>)
      requires Valid()
      modifies this
      ensures Valid() && gcRound == old(gcRound)
      ensures Swept(Snapshot()) && KeysStay(old(Snapshot()), Snapshot())
      ensures forall b | b in suspended :: b.round >= gcRound + 2
      ensures Held(Snapshot()) == old(Held(Snapshot()))
      ensures Advanced(old(Snapshot()), Snapshot(), accepted) && CausalOrder(old(dag), gcRound, accepted)
      ensures old(Closed(dag, gcRound)) ==> Closed(dag, gcRound)
    {
      hide Inv, Linked, WaitsRightly, Held, Closed, CausalOrder, FreedInOrder, DistinctRefs, DagOk, Grown, KeysStay;
      accepted := [];
      ghost var s0 := Snapshot();
      AdvancedNone(s0, s0);
      while missingAncestors.Keys != {}
        invariant Advanced(s0, Snapshot(), accepted) && CausalOrder(s0.dag, s0.gc, accepted)
        invariant Held(Snapshot()) == Held(s0) && KeysStay(s0, Snapshot())
        decreases missingAncestors.Keys
      {
        var least := LeastKey();
        if least.round > gcRound { break; }
        ghost var s := Snapshot();
        LeastIsFree(s, least);
        // The assertion of the source.
        assert least !in suspended;
        missingBlocks := missingBlocks - {least};
        var unsuspended := TryUnsuspendChildrenBlocks(least);
        CollectedNotGenesis(s, least, unsuspended);
        AcceptBlocks(unsuspended);
        CollectAdvances(s, Snapshot(), least, unsuspended);
        AdvancedAppend(s0, s, Snapshot(), accepted, unsuspended);
        AdvancedKeeps(s, Snapshot(), unsuspended);
        KeysStayOn(s0, s, Snapshot());
        accepted := accepted + unsuspended;
      }
      if old(Closed(dag, gcRound)) { CausalOrderKeepsClosed(s0.dag, dag, gcRound, accepted); }
      SweptSuspended(Snapshot());
    }
  }

  lemma NoteKeepsInv(s: State, s': State, r: BlockRef)
    requires Inv(s) && r.round >= 1 && r !in s.dag && r !in s.suspended && r !in s.missing
    requires s' == s.(missing := s.missing + {r}, dependants := s.dependants[r := OrDefault(s.dependants, r)])
    ensures Inv(s')
  {
    hide LowerRounds, Unmet, DagOk;
    forall b | b in s'.suspended ensures WaitsRightly(s', b) { assert WaitsRightly(s, b); }
    hide WaitsRightly;
    assert DagOk(s') by { SameDagOk(s, s'); }
    assert forall a | a in s.dependants :: OrDefault(s.dependants, a) == s.dependants[a];
  }

  lemma SameDagOk(s: State, s': State)
    requires DagOk(s) && s'.dag == s.dag && s'.genesis == s.genesis
    ensures DagOk(s')
  {}

  /** A suspended block waits for something of a lower round. */
  lemma SuspendedWaitsLower(s: State, b: BlockRef) returns (a: BlockRef)
    requires Inv(s) && b in s.suspended
    ensures a in s.dependants && a in s.suspended[b].missing && a in s.suspended[b].block.ancestors && a.round < b.round
  {
    hide Unmet;
    assert WaitsRightly(s, b);
    a :| a in s.suspended[b].missing;
  }

  /** The least missing reference is not itself suspended: what it waits for would be smaller. */
  lemma LeastIsFree(s: State, least: BlockRef)
    requires Inv(s) && least in s.dependants && forall a | a in s.dependants :: a == least || Less(least, a)
    ensures least !in s.suspended && least !in s.dag && Linked(s.suspended, s.dependants)
  {
    hide Linked, WaitsRightly, DagOk;
    if least in s.suspended { var a := SuspendedWaitsLower(s, least); }
  }

  lemma CollectedNotGenesis(s: State, start: BlockRef, freed: seq<Block>)
    requires Inv(s) && FreedInOrder(s.suspended, start, freed)
    ensures DistinctRefs(freed) && forall u | u in freed :: u.ref.round != GENESIS_ROUND
  {
    hide Linked, LowerRounds;
    forall u | u in freed ensures u.ref.round != GENESIS_ROUND { assert WaitsRightly(s, u.ref); }
  }

  lemma SweptSuspended(s: State)
    requires Inv(s) && Swept(s)
    ensures forall b | b in s.suspended :: b.round >= s.gc + 2
  {
    hide Inv;
    forall b | b in s.suspended ensures b.round >= s.gc + 2 { var a := SuspendedWaitsLower(s, b); }
  }

  const RoundOf: Block -> int := (b: Block) => b.ref.round

  /** What arrived above the collection round is held, and only that is new. */
  ghost predicate Received(held: Dag, gc: nat, blocks: seq<Block>, held': Dag) {
    && (forall r :: r in held' <==> r in held || (r in Refs(blocks) && r.round > gc))
    && (forall r | r in held :: held'[r] == held[r])
    && (forall r | r in held' && r !in held :: held'[r] in blocks && held'[r].ref == r)
  }

  /** All of the batch is held, whatever its rounds, and only that is new. */
  ghost predicate ReceivedAll(held: Dag, blocks: seq<Block>, held': Dag) {
    && held'.Keys == held.Keys + Refs(blocks)
    && (forall r | r in held && r !in Refs(blocks) :: held'[r] == held[r])
    && (forall r | r in Refs(blocks) :: (r in held && held'[r] == held[r]) || (held'[r] in blocks && held'[r].ref == r))
  }

  lemma ReceivedAllNone(held: Dag)
    ensures ReceivedAll(held, [], held)
  {}

  lemma ReceivedOne(held: Dag, blocks: seq<Block>, mid: Dag, b: Block)
    requires ReceivedAll(held, blocks, mid)
    ensures ReceivedAll(held, blocks + [b], mid[b.ref := b])
    ensures b.ref in mid ==> ReceivedAll(held, blocks + [b], mid)
  {
    RefsOfOneMore(blocks, b);
    hide Refs;
    assert forall x | x in blocks :: x in blocks + [b];
    assert b in blocks + [b];
    assert mid[b.ref := b].Keys == held.Keys + Refs(blocks + [b]);
    if b.ref in mid { assert mid.Keys == held.Keys + Refs(blocks + [b]); }
  }

  lemma RefsOfOneMore(blocks: seq<Block>, b: Block)
    ensures Refs(blocks + [b]) == Refs(blocks) + {b.ref}
  {
    AppendRefs(blocks, [b]);
    assert Refs([b]) == {b.ref};
  }

  /** What a block newly waits for is reported, unless it is suspended itself. */
  ghost predicate Reports(s: State, s': State, missing: set<BlockRef>) {
    forall b, a | b in s'.suspended && a in s'.suspended[b].missing && a !in s'.suspended ::
      a in missing || (b in s.suspended && a in s.suspended[b].missing)
  }

  lemma ReportsNothing(s: State)
    ensures Reports(s, s, {})
  {}

  lemma ReportsFreed(s: State, s': State, gone: set<BlockRef>)
    requires s'.suspended == Resolve(s.suspended, gone, gone)
    ensures Reports(s, s', {})
  {}

  lemma ReportsSuspended(s: State, s': State, b: Block)
    requires s'.suspended == s.suspended[b.ref := Suspended(b, Unmet(s.dag, s.gc, b))]
    ensures Reports(s, s', Unmet(s.dag, s.gc, b) - s.suspended.Keys)
  {}

  lemma ReportsMore(s: State, s': State, s'': State, x: set<BlockRef>, y: set<BlockRef>)
    requires Reports(s, s', x) && Reports(s', s'', y) && Inv(s'')
    requires Held(s').Keys <= Held(s'').Keys
    ensures Reports(s, s'', x + y)
  {
    hide Inv, Held;
    forall b, a | b in s''.suspended && a in s''.suspended[b].missing && a !in s''.suspended
      ensures a in x + y || (b in s.suspended && a in s.suspended[b].missing)
    {
      MissingIsNotHeld(s'', b, a);
      SuspendedIsHeld(s', a);
    }
  }

  lemma MissingIsNotHeld(s: State, b: BlockRef, a: BlockRef)
    requires Inv(s) && b in s.suspended && a in s.suspended[b].missing && a !in s.suspended
    ensures a !in Held(s)
  {
    hide DagOk, WaitsRightly;
    assert a in s.dependants;
  }

  lemma SuspendedIsHeld(s: State, a: BlockRef)
    ensures a in s.suspended ==> a in Held(s)
  {}

  /** Some block of the batch has it as an ancestor. */
  ghost predicate Named(blocks: seq<Block>, a: BlockRef) {
    exists b :: b in blocks && a in b.ancestors
  }

  /** Missing references are ancestors of the batch, and none newly waited for is left out. */
  ghost predicate ReportsExactly(s: State, s': State, blocks: seq<Block>, missing: set<BlockRef>) {
    Reports(s, s', missing) && forall a | a in missing :: Named(blocks, a)
  }

  lemma HeldGrows(held: Dag, gc: nat, b: Block)
    ensures held.Keys <= Receive(held, gc, b).Keys
  {}

  lemma NamedMore(blocks: seq<Block>, b: Block, x: set<BlockRef>, y: set<BlockRef>)
    requires (forall a | a in x :: Named(blocks, a)) && forall a | a in y :: a in b.ancestors
    ensures forall a | a in x + y :: Named(blocks + [b], a)
  {
    forall a | a in x + y ensures Named(blocks + [b], a) {
      if a in x {
        var u :| u in blocks && a in u.ancestors;
        assert u in blocks + [b];
      } else {
        assert b in blocks + [b];
      }
    }
  }

  lemma ReceivedNone(held: Dag, gc: nat)
    ensures Received(held, gc, [], held)
  {}

  lemma ReceivedMore(held: Dag, gc: nat, blocks: seq<Block>, held': Dag, b: Block)
    requires Received(held, gc, blocks, held')
    ensures Received(held, gc, blocks + [b], Receive(held', gc, b))
  {
    AppendRefs(blocks, [b]);
    assert Refs([b]) == {b.ref};
  }

  /** Every needed ancestor of the batch is accepted already or part of the batch. */
  ghost predicate ClosedBatch(dag: Dag, gc: nat, blocks: seq<Block>) {
    forall b, a | b in blocks && a in b.ancestors && Needed(gc, a) :: a in dag || a in Refs(blocks)
  }

  lemma AncestorsCameFirst(dag: Dag, gc: nat, blocks: seq<Block>, i: nat, dag': Dag)
    requires ClosedBatch(dag, gc, blocks) && SortedBy(blocks, RoundOf) && i < |blocks|
    requires LowerRounds(blocks[i]) && (forall r | r in dag :: r in dag')
    requires forall k | 0 <= k < i :: blocks[k].ref in dag'
    ensures forall a | a in blocks[i].ancestors && Needed(gc, a) :: a in dag'
  {
    forall a | a in blocks[i].ancestors && Needed(gc, a) && a !in dag ensures a in dag' {
      var b :| b in blocks && b.ref == a;
      var k :| 0 <= k < |blocks| && blocks[k] == b;
      LowerIsEarlier(blocks, k, i);
    }
  }

  lemma AdvancedKeeps(s: State, s': State, accepted: seq<Block>)
    requires Advanced(s, s', accepted)
    ensures Inv(s') && s'.gc == s.gc && s'.genesis == s.genesis && forall r | r in s.dag :: r in s'.dag
    ensures s.dag.Keys <= s'.dag.Keys && s'.dag.Keys !! s'.dependants.Keys
  {
    hide DagOk, Linked, WaitsRightly;
  }

  lemma RootedGoesDown(genesis: set<BlockRef>, b: Block)
    requires Rooted(genesis, b)
    ensures LowerRounds(b)
  {}

  lemma LowerIsEarlier(blocks: seq<Block>, k: nat, i: nat)
    requires SortedBy(blocks, RoundOf) && i < |blocks| && k < |blocks| && RoundOf(blocks[k]) < RoundOf(blocks[i])
    ensures k < i
  {}

  lemma SameBatch(blocks: seq<Block>, sorted: seq<Block>)
    requires forall b :: b in sorted <==> b in blocks
    ensures Refs(sorted) == Refs(blocks)
    ensures forall dag, gc :: ClosedBatch(dag, gc, sorted) == ClosedBatch(dag, gc, blocks)
    ensures forall held, gc, held' :: Received(held, gc, sorted, held') == Received(held, gc, blocks, held')
    ensures forall held, held' :: ReceivedAll(held, sorted, held') == ReceivedAll(held, blocks, held')
    ensures forall a :: Named(sorted, a) == Named(blocks, a)
  {}

  lemma ReleasedSame(s: State, r: BlockRef)
    ensures Released(s, r).dag == s.dag && Released(s, r).gc == s.gc && Released(s, r).genesis == s.genesis
  {}

  lemma ReleasedHolds(s: State, b: Block)
    ensures Held(Released(s, b.ref))[b.ref := b] == Held(s)[b.ref := b]
  {
    var x, y := Held(Released(s, b.ref))[b.ref := b], Held(s)[b.ref := b];
    assert x.Keys == y.Keys;
    forall r | r in x ensures x[r] == y[r] {}
  }

  /** The DAG may take `b` first and the rest later. */
  lemma GrowFurther(dag: Dag, dag': Dag, b: Block, freed: seq<Block>)
    requires b.ref !in dag && Grown(dag[b.ref := b], dag', freed) && DistinctRefs([b] + freed)
    ensures Grown(dag, dag', [b] + freed)
  {
    PrefixRefs(b, freed);
    forall u | u in freed ensures u.ref != b.ref {
      var k :| 0 <= k < |freed| && freed[k] == u;
      assert ([b] + freed)[k + 1] == u && ([b] + freed)[0] == b;
    }
  }

  lemma AdvancedFrom(s: State, released: State, s': State, accepted: seq<Block>)
    requires released.dag == s.dag && released.gc == s.gc && released.genesis == s.genesis
    requires Advanced(released, s', accepted)
    ensures Advanced(s, s', accepted)
  {}

  /** What is held once `b` arrives: blocks at or below the collection round are dropped. */
  ghost function Receive(held: Dag, gc: nat, b: Block): Dag {
    if b.ref.round > gc && b.ref !in held then held[b.ref := b] else held
  }

  lemma InvLinks(s: State, b: Block)
    requires Inv(s)
    ensures Linked(s.suspended, s.dependants) && DagOk(s)
    ensures forall a | a in b.ancestors && Needed(s.gc, a) :: a in s.dag || a in Unmet(s.dag, s.gc, b)
  {}

  lemma ReceiveHeld(s: State, b: Block)
    ensures b.ref in Held(s) <==> b.ref in s.dag || b.ref in s.suspended
  {}

  lemma FreedNotGenesis(s: State, b: Block, freed: seq<Block>)
    requires Inv(s) && Rooted(s.genesis, b) && b.ref !in s.suspended && b.ref !in s.dag
    requires FreedInOrder(s.suspended, b.ref, freed)
    ensures forall u | u in [b] + freed :: u.ref.round != GENESIS_ROUND
    ensures DistinctRefs([b] + freed) && DistinctRefs(freed)
  {
    FreedAreRooted(s, b, freed);
  }

  lemma SuspendHolds(s: State, s': State, b: Block)
    requires DagOk(s) && Rooted(s.genesis, b) && s'.gc == s.gc && s'.dag == s.dag && b.ref !in s.dag
      && b.ref !in s.suspended
    requires s'.suspended == s.suspended[b.ref := Suspended(b, Unmet(s.dag, s.gc, b))]
    requires s'.dependants == AddDependant(s.dependants, Unmet(s.dag, s.gc, b), b.ref)
    ensures Held(s') == Held(s)[b.ref := b]
    ensures KeysStay(s, s')
  {
    hide LowerRounds;
  }

  /** `dependants` once `r` waits for none of `missing`. */
  ghost function Unlink(deps: Dependants, missing: set<BlockRef>, r: BlockRef): Dependants {
    map a | a in deps :: if a in missing then deps[a] - {r} else deps[a]
  }

  lemma UnlinkNone(deps: Dependants, r: BlockRef)
    ensures Unlink(deps, {}, r) == deps
  {
    assert forall a | a in deps :: Unlink(deps, {}, r)[a] == deps[a];
  }

  lemma UnlinkOneMore(deps: Dependants, missing: set<BlockRef>, r: BlockRef, a: BlockRef)
    ensures var now := Unlink(deps, missing, r);
            Unlink(deps, missing + {a}, r) == if a in now then now[a := now[a] - {r}] else now
  {
    var now, next := Unlink(deps, missing, r), Unlink(deps, missing + {a}, r);
    assert next.Keys == now.Keys;
    if a in now {
      var want := now[a := now[a] - {r}];
      assert forall x | x in next :: next[x] == want[x];
    } else {
      assert forall x | x in next :: next[x] == now[x];
    }
  }

  /** The state once `r` is no longer suspended. */
  ghost function Released(s: State, r: BlockRef): State {
    if r in s.suspended then
      var suspended := s.suspended - {r};
      var dependants := Unlink(s.dependants, s.suspended[r].missing, r);
      State(s.genesis, s.dag, s.gc, suspended, dependants, dependants.Keys - suspended.Keys)
    else s
  }

  lemma ReleaseKeepsInv(s: State, r: BlockRef)
    requires Inv(s)
    ensures Inv(Released(s, r)) && Released(s, r).missing - {r} == s.missing - {r} && r !in Released(s, r).suspended
  {
    hide LowerRounds, Unmet;
    if r in s.suspended {
      var s' := Released(s, r);
      LinkLess(s.suspended, s.dependants, r);
      forall x | x in s'.suspended ensures WaitsRightly(s', x) {
        assert WaitsRightly(s, x);
      }
    }
  }

  lemma LinkLess(susp: SuspendedMap, deps: Dependants, r: BlockRef)
    requires Linked(susp, deps) && r in susp
    ensures Linked(susp - {r}, Unlink(deps, susp[r].missing, r))
  {}

  function OrDefault(deps: Dependants, r: BlockRef): set<BlockRef> {
    if r in deps then deps[r] else {}
  }

  ghost function UnmetIn(dag: Dag, gc: nat, ancestors: seq<BlockRef>): set<BlockRef> {
    set a | a in ancestors && Needed(gc, a) && a !in dag
  }

  /** `dependants` once `r` waits for each of `missing`. */
  ghost function AddDependant(deps: Dependants, missing: set<BlockRef>, r: BlockRef): Dependants {
    map a | a in deps.Keys + missing :: (if a in deps then deps[a] else {}) + (if a in missing then {r} else {})
  }

  lemma AddOneMore(deps: Dependants, missing: set<BlockRef>, r: BlockRef, a: BlockRef)
    ensures var now := AddDependant(deps, missing, r);
            AddDependant(deps, missing + {a}, r) == now[a := OrDefault(now, a) + {r}]
  {
    var now := AddDependant(deps, missing, r);
    var next := AddDependant(deps, missing + {a}, r);
    var want := now[a := OrDefault(now, a) + {r}];
    assert next.Keys == want.Keys;
    forall x | x in next ensures next[x] == want[x] {}
  }

  lemma AddNone(deps: Dependants, r: BlockRef)
    ensures AddDependant(deps, {}, r) == deps
  {
    var same := AddDependant(deps, {}, r);
    assert same.Keys == deps.Keys;
    forall a | a in deps ensures same[a] == deps[a] {}
  }

  lemma SuspendKeepsInv(s: State, s': State, b: Block)
    requires Inv(s) && Rooted(s.genesis, b) && b.ref !in s.suspended && b.ref !in s.dag
    requires Unmet(s.dag, s.gc, b) != {}
    requires s' == State(s.genesis, s.dag, s.gc, s.suspended[b.ref := Suspended(b, Unmet(s.dag, s.gc, b))],
                         AddDependant(s.dependants, Unmet(s.dag, s.gc, b), b.ref),
                         s.missing + (Unmet(s.dag, s.gc, b) - s.suspended.Keys) - {b.ref})
    ensures Inv(s')
  {
    hide Linked, LowerRounds, AddDependant, Unmet, Rooted;
    var unmet := Unmet(s.dag, s.gc, b);
    UnmetRounds(s, b);
    LinkMore(s.suspended, s.dependants, b, unmet);
    assert s'.suspended.Keys == s.suspended.Keys + {b.ref};
    forall x | x in s'.suspended ensures WaitsRightly(s', x) {
      if x != b.ref { assert WaitsRightly(s, x); }
    }
  }

  lemma UnmetRounds(s: State, b: Block)
    requires DagOk(s) && Rooted(s.genesis, b)
    ensures forall a | a in Unmet(s.dag, s.gc, b) :: 1 <= a.round < b.ref.round && a in b.ancestors && a !in s.dag
  {}

  lemma LinkMore(susp: SuspendedMap, deps: Dependants, b: Block, missing: set<BlockRef>)
    requires Linked(susp, deps) && b.ref !in susp && missing != {}
    ensures Linked(susp[b.ref := Suspended(b, missing)], AddDependant(deps, missing, b.ref))
    ensures AddDependant(deps, missing, b.ref).Keys == deps.Keys + missing
  {
    var susp', deps' := susp[b.ref := Suspended(b, missing)], AddDependant(deps, missing, b.ref);
    forall x, a | x in susp' && a in susp'[x].missing ensures a in deps' && x in deps'[a] {}
    forall a, x | a in deps' && x in deps'[a] ensures x in susp' && a in susp'[x].missing {}
  }

  function RefSeq(blocks: seq<Block>): seq<BlockRef> {
    seq(|blocks|, i requires 0 <= i < |blocks| => blocks[i].ref)
  }

  function Without(e: Suspended, dependency: BlockRef): Suspended {
    Suspended(e.block, e.missing - {dependency})
  }

  /** Blocks that waited for `dependency` alone. */
  ghost predicate FreedBy(before: SuspendedMap, dependency: BlockRef, freed: seq<Block>) {
    && DistinctRefs(freed)
    && forall u | u in freed :: u.ref in before && u == before[u.ref].block && before[u.ref].missing == {dependency}
  }

  lemma FreedByMore(before: SuspendedMap, dependency: BlockRef, freed: seq<Block>, u: Block)
    requires FreedBy(before, dependency, freed) && u.ref !in Refs(freed)
    requires u.ref in before && u == before[u.ref].block && before[u.ref].missing == {dependency}
    ensures FreedBy(before, dependency, freed + [u]) && Refs(freed + [u]) == Refs(freed) + {u.ref}
  {
    AppendRefs(freed, [u]);
    assert Refs([u]) == {u.ref};
    assert forall i | 0 <= i < |freed| :: freed[i] in freed && freed[i].ref in Refs(freed);
  }

  lemma NobodyFreed(before: SuspendedMap, dependency: BlockRef)
    ensures FreedBy(before, dependency, [])
  {}

  /** The suspended blocks midway: those in `gone` left, those in `handled` no longer
      wait for `dependency`. */
  function Partly(before: SuspendedMap, gone: set<BlockRef>, handled: set<BlockRef>,
                  dependency: BlockRef): SuspendedMap {
    map b | b in before && b !in gone :: if b in handled then Without(before[b], dependency) else before[b]
  }

  lemma PartlyStep(before: SuspendedMap, gone: set<BlockRef>, handled: set<BlockRef>, dependency: BlockRef, r: BlockRef)
    requires r in before && r !in gone && r !in handled
    ensures var now := Partly(before, gone, handled, dependency);
            && Partly(before, gone, handled + {r}, dependency) == now[r := Without(before[r], dependency)]
            && Partly(before, gone + {r}, handled + {r}, dependency) == now - {r}
  {
    var now := Partly(before, gone, handled, dependency);
    var stay, leave := Partly(before, gone, handled + {r}, dependency),
      Partly(before, gone + {r}, handled + {r}, dependency);
    assert stay.Keys == now.Keys && leave.Keys == now.Keys - {r};
    assert stay == now[r := Without(before[r], dependency)];
    assert leave == now - {r};
  }

  lemma ResolvedByOne(before: SuspendedMap, deps: Dependants, dependency: BlockRef, freed: seq<Block>,
                      after: SuspendedMap)
    requires Linked(before, deps) && FreedBy(before, dependency, freed)
    requires after == Partly(before, Refs(freed), if dependency in deps then deps[dependency] else {}, dependency)
    requires forall b | b in after :: after[b].missing != {}
    ensures after == Resolve(before, Refs(freed), {dependency}) && Linked(after, deps - {dependency})
  {
    forall b | b in after ensures after[b].missing == before[b].missing - {dependency}
      && after[b].block == before[b].block {}
    assert after == Resolve(before, Refs(freed), {dependency});
    var deps' := deps - {dependency};
    assert forall b | b in Refs(freed) :: before[b].missing == {dependency};
    forall a, b | a in deps' && b in deps'[a] ensures b in after && a in after[b].missing {
      assert a in before[b].missing;
    }
  }

  /** The worklist: what is freed so far, what of it is still to be processed, and what
      is done. Everything freed waited only for what is done. */
  ghost predicate Freeing(before: SuspendedMap, accepted: BlockRef, freed: seq<Block>, toProcess: seq<BlockRef>,
                          done: set<BlockRef>) {
    && FreedInOrder(before, accepted, freed) && accepted !in before
    && done + (set r | r in toProcess) == {accepted} + Refs(freed)
    && done !! (set r | r in toProcess)
    && (forall i, j | 0 <= i < j < |toProcess| :: toProcess[i] != toProcess[j])
  }

  lemma StartFreeing(before: SuspendedMap, accepted: BlockRef)
    requires accepted !in before
    ensures Freeing(before, accepted, [], [accepted], {}) && before == Resolve(before, {accepted} + Refs([]), {})
  {
    var after := Resolve(before, {accepted} + Refs([]), {});
    assert after.Keys == before.Keys;
    assert forall b | b in before :: before[b].missing - {} == before[b].missing;
  }

  lemma FreeingStep(before: SuspendedMap, accepted: BlockRef, x: seq<Block>, rest: seq<BlockRef>, done: set<BlockRef>,
                    dep: BlockRef, y: seq<Block>, keys: set<BlockRef>)
    requires Freeing(before, accepted, x, rest + [dep], done)
    requires FreedBy(Resolve(before, {accepted} + Refs(x), done), dep, y)
    requires keys == Resolve(Resolve(before, {accepted} + Refs(x), done), Refs(y), {dep}).Keys
    ensures Freeing(before, accepted, x + y, rest + RefSeq(y), done + {dep})
    ensures Resolve(Resolve(before, {accepted} + Refs(x), done), Refs(y), {dep})
         == Resolve(before, {accepted} + Refs(x + y), done + {dep})
    ensures keys < Resolve(before, {accepted} + Refs(x), done).Keys
      || (y == [] && keys == Resolve(before, {accepted} + Refs(x), done).Keys)
  {
    AppendRefs(x, y);
    ResolveTwice(before, {accepted} + Refs(x), done, Refs(y), {dep});
    assert {accepted} + Refs(x) + Refs(y) == {accepted} + Refs(x + y);
    var pending := set r | r in rest + [dep];
    assert dep in pending && pending == (set r | r in rest) + {dep};
    FreedNext(before, accepted, x, y, done, dep);
    WorklistStep(rest, y, {accepted} + Refs(x), dep);
    if y != [] { assert y[0] in y && y[0].ref in Refs(y); }
  }

  lemma WorklistStep(rest: seq<BlockRef>, y: seq<Block>, known: set<BlockRef>, dep: BlockRef)
    requires DistinctRefs(y) && Refs(y) !! known && (set r | r in rest + [dep]) <= known
    requires forall i, j | 0 <= i < j < |rest + [dep]| :: (rest + [dep])[i] != (rest + [dep])[j]
    ensures (set r | r in rest + RefSeq(y)) == (set r | r in rest) + Refs(y)
    ensures dep !in (set r | r in rest)
    ensures forall i, j | 0 <= i < j < |rest + RefSeq(y)| :: (rest + RefSeq(y))[i] != (rest + RefSeq(y))[j]
  {
    var all := rest + [dep];
    assert all[|rest|] == dep && forall i | 0 <= i < |rest| :: all[i] == rest[i];
    forall r ensures r in RefSeq(y) <==> r in Refs(y) {
      if r in RefSeq(y) { var i :| 0 <= i < |y| && RefSeq(y)[i] == r; assert y[i] in y; }
      if r in Refs(y) { var b :| b in y && b.ref == r; var i :| 0 <= i < |y| && y[i] == b; assert RefSeq(y)[i] == r; }
    }
    forall i, j | 0 <= i < j < |rest + RefSeq(y)| ensures (rest + RefSeq(y))[i] != (rest + RefSeq(y))[j] {
      if i < |rest| <= j {
        assert rest[i] == all[i] && rest[i] in all;
        assert RefSeq(y)[j - |rest|] in RefSeq(y);
      }
    }
  }

  lemma FreedNext(before: SuspendedMap, accepted: BlockRef, x: seq<Block>, y: seq<Block>, done: set<BlockRef>,
                  dep: BlockRef)
    requires FreedInOrder(before, accepted, x) && DistinctRefs(y)
    requires done + {dep} <= {accepted} + Refs(x)
    requires FreedBy(Resolve(before, {accepted} + Refs(x), done), dep, y)
    ensures FreedInOrder(before, accepted, x + y)
  {
    var all := x + y;
    forall i, j | 0 <= i < j < |all| ensures all[i].ref != all[j].ref {
      if i < |x| <= j {
        assert x[i] in x && y[j - |x|] in y;
        assert x[i].ref in Refs(x);
      }
    }
    forall i | 0 <= i < |all|
      ensures all[i].ref in before && before[all[i].ref].missing <= {accepted} + Refs(all[..i])
    {
      if i < |x| {
        assert all[..i] == x[..i];
      } else {
        assert all[i] in y;
        var e := Resolve(before, {accepted} + Refs(x), done)[all[i].ref];
        assert e.missing == {dep} && before[all[i].ref].missing <= e.missing + done;
        assert all[..i] == x + y[..i - |x|];
        AppendRefs(x, y[..i - |x|]);
      }
    }
  }
}
