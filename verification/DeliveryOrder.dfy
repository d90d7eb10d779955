/** Whole runs of the block manager (consensus/core/src/block_manager.rs): what the order
    and batching of deliveries cannot change, and what every run keeps. */
module DeliveryOrder {
  import opened Blocks
  import opened Suspension
  import opened BlockManagers
  import opened Safety

  // ---------- The state is a function of what arrived ----------

  /** The whole history of `r` above the collection round arrived. */
  ghost predicate Complete(held: Dag, gc: nat, r: BlockRef)
    decreases r.round
  {
    r in held && forall a | a in held[r].ancestors && Needed(gc, a) :: a.round < r.round && Complete(held, gc, a)
  }

  lemma {:induction false} AcceptedIsComplete(s: State, r: BlockRef)
    requires Inv(s) && Closed(s.dag, s.gc) && r in s.dag
    ensures Complete(Held(s), s.gc, r)
    decreases r.round
  {
    hide Linked, WaitsRightly;
    forall a | a in s.dag[r].ancestors && Needed(s.gc, a) ensures a.round < r.round && Complete(Held(s), s.gc, a) {
      AcceptedIsComplete(s, a);
    }
  }

  /** A suspended block waits for something that is not complete either. */
  lemma {:induction false} CompleteIsAccepted(s: State, r: BlockRef)
    requires Inv(s) && Swept(s) && Complete(Held(s), s.gc, r)
    ensures r in s.dag
    decreases r.round
  {
    if r in s.suspended {
      var a := SuspendedWaitsLower(s, r);
      OnlyHeldSuspended(s, r);
      CompleteIsAccepted(s, a);
    }
  }

  lemma OnlyHeldSuspended(s: State, r: BlockRef)
    requires Inv(s) && r in s.suspended
    ensures r !in s.dag && Held(s)[r] == s.suspended[r].block
  {
    assert WaitsRightly(s, r);
  }

  /** The DAG holds exactly the blocks whose whole history arrived. */
  lemma AcceptedIffComplete(s: State)
    requires Inv(s) && Swept(s) && Closed(s.dag, s.gc)
    ensures forall r :: r in s.dag <==> Complete(Held(s), s.gc, r)
  {
    hide Inv, Closed, Held, Complete, Swept;
    forall r ensures r in s.dag <==> Complete(Held(s), s.gc, r) {
      if r in s.dag { AcceptedIsComplete(s, r); }
      if Complete(Held(s), s.gc, r) { CompleteIsAccepted(s, r); }
    }
  }

  /** A state without collected missing references. */
  ghost predicate Settled(s: State) {
    Inv(s) && Closed(s.dag, s.gc) && Swept(s)
  }

  /** A block is accepted if and only if it is held and so is, accepted, every ancestor of it that is
      of the genesis round or above the collection round. */
  lemma AcceptedIffAncestors(s: State, r: BlockRef)
    requires Settled(s)
    ensures r in s.dag <==>
      r in Held(s) && forall a | a in Held(s)[r].ancestors && (a.round == 0 || a.round > s.gc) :: a in s.dag
  {
    hide LowerRounds, Linked;
    if r in s.suspended {
      assert WaitsRightly(s, r);
      WaitsExactly(s, r);
      UnmetIff(s.dag, s.gc, s.suspended[r].block);
      assert s.suspended[r].missing != {} by { SuspendedWaits(s, r); }
    }
  }

  lemma SuspendedWaits(s: State, r: BlockRef)
    requires Inv(s) && r in s.suspended
    ensures s.suspended[r].missing != {} && r !in s.dag
  {
    assert WaitsRightly(s, r);
  }

  /** What a block waits for is exactly what it needs and lacks. */
  lemma WaitsExactly(s: State, b: BlockRef)
    requires Inv(s) && Swept(s) && b in s.suspended
    ensures s.suspended[b].missing == Unmet(s.dag, s.gc, s.suspended[b].block)
  {
    hide LowerRounds;
    assert WaitsRightly(s, b);
  }

  lemma SameAccepted(s: State, t: State)
    requires Settled(s) && Settled(t) && s.gc == t.gc && Held(s) == Held(t)
    ensures s.dag == t.dag
  {
    hide Inv, Closed, Held, Complete, Swept;
    AcceptedIffComplete(s);
    AcceptedIffComplete(t);
    assert s.dag.Keys == t.dag.Keys;
    forall r | r in s.dag ensures s.dag[r] == t.dag[r] { HeldAccepted(s, r); HeldAccepted(t, r); }
  }

  lemma HeldAccepted(s: State, r: BlockRef)
    requires r in s.dag
    ensures r in Held(s) && Held(s)[r] == s.dag[r]
  {}

  lemma SameSuspended(s: State, t: State)
    requires Settled(s) && Settled(t) && s.gc == t.gc && Held(s) == Held(t) && s.dag == t.dag
    ensures s.suspended == t.suspended
  {
    hide Inv, Swept, Closed, Unmet;
    forall r ensures r in s.suspended <==> r in t.suspended {
      assert r in Held(s) <==> r in Held(t);
      if r in s.suspended { OnlyHeldSuspended(s, r); }
      if r in t.suspended { OnlyHeldSuspended(t, r); }
    }
    forall r | r in s.suspended ensures s.suspended[r] == t.suspended[r] {
      OnlyHeldSuspended(s, r);
      OnlyHeldSuspended(t, r);
      WaitsExactly(s, r);
      WaitsExactly(t, r);
    }
  }

  predicate WaitsFor(s: State, b: BlockRef, a: BlockRef) { b in s.suspended && a in s.suspended[b].missing }

  lemma LinkedBoth(s: State, a: BlockRef, b: BlockRef)
    requires Linked(s.suspended, s.dependants)
    ensures b in OrDefault(s.dependants, a) <==> WaitsFor(s, b, a)
  {}

  lemma SameWaiting(s: State, t: State, a: BlockRef)
    requires Linked(s.suspended, s.dependants) && Linked(t.suspended, t.dependants) && s.suspended == t.suspended
    ensures OrDefault(s.dependants, a) == OrDefault(t.dependants, a)
  {
    hide Linked;
    forall b ensures b in OrDefault(s.dependants, a) <==> b in OrDefault(t.dependants, a) {
      LinkedBoth(s, a, b);
      LinkedBoth(t, a, b);
      assert WaitsFor(s, b, a) <==> WaitsFor(t, b, a);
    }
  }

  /** A missing reference that nobody waits for was noted before and is still not accepted. */
  lemma BareKey(start: State, s: State, a: BlockRef)
    requires KeysStay(start, s) && Swept(start) && s.gc == start.gc && s.dag.Keys !! s.dependants.Keys
    requires OrDefault(s.dependants, a) == {}
    ensures a in s.dependants <==> a in start.dependants && a !in s.dag
  {}

  lemma SameKeys(start: State, s: State, t: State, a: BlockRef)
    requires Inv(s) && Inv(t) && s.suspended == t.suspended && s.dag == t.dag
    requires Swept(start) && s.gc == t.gc == start.gc && KeysStay(start, s) && KeysStay(start, t)
    ensures a in s.dependants <==> a in t.dependants
    ensures a in s.dependants ==> s.dependants[a] == t.dependants[a]
  {
    hide DagOk, WaitsRightly, Linked, Swept, KeysStay;
    SameWaiting(s, t, a);
    if OrDefault(s.dependants, a) == {} {
      BareKey(start, s, a);
      BareKey(start, t, a);
    }
  }

  /** Everything the manager keeps is determined by what it kept at the start and the blocks
      that arrived. */
  lemma StateIsDetermined(start: State, s: State, t: State)
    requires Settled(s) && Settled(t) && s.genesis == t.genesis && s.gc == t.gc == start.gc && Held(s) == Held(t)
    requires Swept(start) && KeysStay(start, s) && KeysStay(start, t)
    ensures s == t
  {
    hide DagOk, WaitsRightly, Linked, Swept, Held, Closed, KeysStay;
    SameAccepted(s, t);
    SameSuspended(s, t);
    forall a
      ensures a in s.dependants <==> a in t.dependants
      ensures a in s.dependants ==> s.dependants[a] == t.dependants[a]
    {
      SameKeys(start, s, t, a);
    }
    assert s.dependants == t.dependants;
  }

  /** What is left missing once nothing waits: references that were noted before. */
  ghost predicate OnlyNotes(start: State, s: State) {
    && s.suspended == map[] && s.missing == s.dependants.Keys == start.dependants.Keys - s.dag.Keys
    && forall a | a in s.dependants :: s.dependants[a] == {}
  }

  /** If the whole history of everything arrived, nothing is left waiting. */
  lemma CompleteLeavesNothing(start: State, s: State)
    requires Settled(s) && forall r | r in Held(s) :: Complete(Held(s), s.gc, r)
    requires Swept(start) && s.gc == start.gc && KeysStay(start, s)
    ensures s.dag == Held(s) && OnlyNotes(start, s)
    ensures NoBareKeys(start.dependants) ==> s.dependants == map[] && s.missing == {}
  {
    hide Closed, Complete, KeysStay, Swept;
    AcceptedIffComplete(s);
    forall r ensures r !in s.suspended {
      if r in s.suspended { OnlyHeldSuspended(s, r); }
    }
    assert s.dag.Keys == Held(s).Keys;
    forall a ensures OrDefault(s.dependants, a) == {} {
      forall b ensures b !in OrDefault(s.dependants, a) { LinkedBoth(s, a, b); }
    }
    forall a ensures a in s.dependants <==> a in start.dependants && a !in s.dag { BareKey(start, s, a); }
    assert forall a | a in s.dependants :: OrDefault(s.dependants, a) == s.dependants[a];
    if NoBareKeys(start.dependants) {
      KeysStayTidy(start, s);
      assert s.dependants.Keys == {};
    }
  }

  // ---------- Deliveries ----------

  function Flatten(batches: seq<seq<Block>>): seq<Block> {
    if batches == [] then [] else Flatten(batches[..|batches| - 1]) + batches[|batches| - 1]
  }

  lemma {:induction false} BatchIsDelivered(batches: seq<seq<Block>>, i: nat, b: Block)
    requires i < |batches| && b in batches[i]
    ensures b in Flatten(batches)
  {
    if i < |batches| - 1 { BatchIsDelivered(batches[..|batches| - 1], i, b); }
  }

  lemma ReceivedAppend(held: Dag, gc: nat, x: seq<Block>, held': Dag, y: seq<Block>, held'': Dag)
    requires Received(held, gc, x, held') && Received(held', gc, y, held'')
    ensures Received(held, gc, x + y, held'')
  {
    AppendRefs(x, y);
  }

  /** A reference identifies one block. */
  ghost predicate Identified(blocks: seq<Block>) {
    forall b, c | b in blocks && c in blocks && b.ref == c.ref :: b == c
  }

  lemma SameDelivery(held: Dag, gc: nat, x: seq<Block>, h: Dag, y: seq<Block>, k: Dag)
    requires Received(held, gc, x, h) && Received(held, gc, y, k)
    requires Identified(x) && forall b :: b in x <==> b in y
    ensures h == k
  {
    assert Refs(x) == Refs(y);
    assert h.Keys == k.Keys;
    forall r | r in h ensures h[r] == k[r] {}
  }

  /** Delivers the batches one after the other; the concatenated output is causally
      ordered and names each newly accepted block once. */
  method Deliver(m: BlockManager, batches: seq<seq<Block>>) returns (accepted: seq<Block>)
    requires m.Valid() && forall b | b in Flatten(batches) :: Rooted(m.genesis, b)
    modifies m
    ensures Advanced(old(m.Snapshot()), m.Snapshot(), accepted) && CausalOrder(old(m.dag), m.gcRound, accepted)
    ensures Received(old(Held(m.Snapshot())), m.gcRound, Flatten(batches), Held(m.Snapshot()))
    ensures KeysStay(old(m.Snapshot()), m.Snapshot())
    ensures old(Settled(m.Snapshot())) ==> Settled(m.Snapshot())
  {
    hide Inv, Rooted, Held, CausalOrder, Received, Grown, Linked, Refs, DistinctRefs, Closed, Swept, KeysStay;
    accepted := [];
    ghost var s := m.Snapshot();
    AdvancedNone(s, s);
    ReceivedNone(Held(s), s.gc);
    for i := 0 to |batches|
      invariant Advanced(s, m.Snapshot(), accepted) && CausalOrder(s.dag, s.gc, accepted)
      invariant Received(Held(s), s.gc, Flatten(batches[..i]), Held(m.Snapshot()))
      invariant Settled(s) ==> Settled(m.Snapshot())
      invariant KeysStay(s, m.Snapshot())
    {
      ghost var before := m.Snapshot();
      assert batches[..i + 1][..i] == batches[..i];
      forall b | b in batches[i] ensures Rooted(m.genesis, b) { BatchIsDelivered(batches, i, b); }
      var more, _ := m.TryAcceptBlocks(batches[i]);
      AdvancedAppend(s, before, m.Snapshot(), accepted, more);
      AdvancedKeeps(before, m.Snapshot(), more);
      KeysStayOn(s, before, m.Snapshot());
      KeysStayTidy(before, m.Snapshot());
      ReceivedAppend(Held(s), s.gc, Flatten(batches[..i]), Held(before), batches[i], Held(m.Snapshot()));
      accepted := accepted + more;
    }
    assert batches[..|batches|] == batches;
  }

  /** Two managers that start alike and receive the same blocks, in any order and in any
      batches, end alike. */
  method DeliverInAnyOrder(m: BlockManager, n: BlockManager, xs: seq<seq<Block>>, ys: seq<seq<Block>>)
    requires m != n && m.Snapshot() == n.Snapshot() && Settled(m.Snapshot())
    requires Identified(Flatten(xs)) && forall b :: b in Flatten(xs) <==> b in Flatten(ys)
    requires forall b | b in Flatten(xs) :: Rooted(m.genesis, b)
    modifies m, n
    ensures m.Snapshot() == n.Snapshot() && m.gcRound == old(m.gcRound)
    ensures Received(old(Held(m.Snapshot())), m.gcRound, Flatten(xs), Held(m.Snapshot()))
    ensures forall r :: r in m.dag <==> Complete(Held(m.Snapshot()), m.gcRound, r)
    ensures (forall r | r in Held(m.Snapshot()) :: Complete(Held(m.Snapshot()), m.gcRound, r)) ==>
      && OnlyNotes(old(m.Snapshot()), m.Snapshot())
      && (old(NoBareKeys(m.missingAncestors)) ==> m.missingAncestors == map[] && m.missingBlocks == {})
  {
    hide Inv, Rooted, Held, CausalOrder, Received, Grown, Linked, Refs, DistinctRefs, Closed, NoBareKeys, Swept,
      Complete, Flatten, Identified, KeysStay;
    ghost var held := Held(m.Snapshot());
    ghost var start, gc := m.Snapshot(), m.gcRound;
    assert m.genesis == n.genesis by { assert m.Snapshot().genesis == n.Snapshot().genesis; }
    var a := Deliver(m, xs);
    var b := Deliver(n, ys);
    SameDelivery(held, gc, Flatten(xs), Held(m.Snapshot()), Flatten(ys), Held(n.Snapshot()));
    StateIsDetermined(start, m.Snapshot(), n.Snapshot());
    AcceptedIffComplete(m.Snapshot());
    if forall r | r in Held(m.Snapshot()) :: Complete(Held(m.Snapshot()), m.gcRound, r) {
      CompleteLeavesNothing(start, m.Snapshot());
    }
  }

  // ---------- Runs of all operations ----------

  datatype Op =
    | Accept(blocks: seq<Block>)
    | AcceptCommitted(blocks: seq<Block>)
    | Find(refs: seq<BlockRef>)
    | AdvanceGc(round: nat)
    | Sweep

  /** The blocks of an operation passed verification. */
  ghost predicate Verified(genesis: set<BlockRef>, op: Op) {
    (op.Accept? || op.AcceptCommitted?) ==> forall b | b in op.blocks :: Rooted(genesis, b)
  }

  /** What an operation does to what is held, noted and collected. */
  ghost predicate Does(op: Op, s: State, s': State) {
    match op
    case Accept(blocks) => s'.gc == s.gc && Received(Held(s), s.gc, blocks, Held(s'))
    case AcceptCommitted(blocks) =>
      s'.gc == s.gc && ReceivedAll(Held(s), blocks, Held(s')) && forall b | b in blocks :: b.ref in s'.dag
    case Find(refs) =>
      && s' == s.(missing := s'.missing, dependants := s'.dependants)
      && s'.missing == s.missing + set r | r in refs && r.round > s.gc && r !in s.dag && r !in s.suspended
    case AdvanceGc(round) => s' == s.(gc := if round > s.gc then round else s.gc)
    case Sweep => s'.gc == s.gc && Swept(s') && Held(s') == Held(s)
  }

  /** The DAG only grew, by `accepted`, each block once. */
  ghost predicate Progress(s: State, s': State, accepted: seq<Block>) {
    && Inv(s') && s'.genesis == s.genesis && s.gc <= s'.gc
    && Grown(s.dag, s'.dag, accepted) && DistinctRefs(accepted) && Refs(accepted) !! s.dag.Keys
  }

  lemma ProgressAppend(s: State, s': State, s'': State, x: seq<Block>, y: seq<Block>)
    requires Progress(s, s', x) && Progress(s', s'', y)
    ensures Progress(s, s'', x + y)
  {
    hide Inv, Refs, DistinctRefs, Grown;
    GrownAppend(s.dag, s'.dag, s''.dag, x, y);
  }

  lemma ProgressNone(s: State, s': State)
    requires Inv(s') && s'.genesis == s.genesis && s.gc <= s'.gc && s'.dag == s.dag
    ensures Progress(s, s', [])
  {}

  lemma AdvancedIsProgress(s: State, s': State, x: seq<Block>)
    requires Advanced(s, s', x)
    ensures Progress(s, s', x)
  {}

  /** One operation. `sound` says that a committed batch brought its needed ancestors. */
  method Step(m: BlockManager, op: Op) returns (ghost accepted: seq<Block>, ghost sound: bool)
    requires m.Valid() && Verified(m.genesis, op)
    modifies m
    ensures Progress(old(m.Snapshot()), m.Snapshot(), accepted) && Does(op, old(m.Snapshot()), m.Snapshot())
    ensures sound == (op.AcceptCommitted? ==> ClosedBatch(old(m.dag), old(m.gcRound), op.blocks))
    ensures sound && old(Closed(m.dag, m.gcRound)) ==> Closed(m.dag, m.gcRound)
  {
    hide Inv, Rooted, Held, CausalOrder, Received, ReceivedAll, Grown, Linked, Refs, DistinctRefs, Closed, NoBareKeys,
      Swept, ClosedBatch, Progress;
    sound := op.AcceptCommitted? ==> ClosedBatch(m.dag, m.gcRound, op.blocks);
    accepted := [];
    ghost var s := m.Snapshot();
    match op
    case Accept(blocks) =>
      var more, _ := m.TryAcceptBlocks(blocks);
      accepted := more;
      AdvancedIsProgress(s, m.Snapshot(), accepted);
    case AcceptCommitted(blocks) =>
      var more := m.TryAcceptCommittedBlocks(blocks);
      accepted := more;
      AdvancedIsProgress(s, m.Snapshot(), accepted);
    case Find(refs) =>
      var _ := m.TryFindBlocks(refs);
      ProgressNone(s, m.Snapshot());
    case AdvanceGc(round) =>
      if round > m.gcRound { m.AdvanceGcRound(round); }
      ProgressNone(s, m.Snapshot());
    case Sweep =>
      accepted := m.TryUnsuspendBlocksForLatestGcRound();
      AdvancedIsProgress(s, m.Snapshot(), accepted);
  }

  /** What every operation of a run keeps, and that it accepts no block twice. `states` are the
      states between the operations: a DAG that is closed at the start is closed in each of
      them, if every committed batch brings the needed ancestors that are not there yet. */
  method Run(m: BlockManager, ops: seq<Op>) returns (ghost accepted: seq<Block>, ghost states: seq<State>)
    requires m.Valid() && forall op | op in ops :: Verified(m.genesis, op)
    modifies m
    ensures |states| == |ops| + 1 && states[0] == old(m.Snapshot()) && states[|ops|] == m.Snapshot()
    ensures m.Valid() && forall s | s in states :: Inv(s)
    ensures forall i | 0 <= i < |ops| :: Does(ops[i], states[i], states[i + 1])
    ensures Progress(old(m.Snapshot()), m.Snapshot(), accepted)
    ensures BringHistory(ops, states) && old(Closed(m.dag, m.gcRound)) ==> forall s | s in states :: Closed(s.dag, s.gc)
  {
    hide Inv, Verified, Grown, Refs, DistinctRefs, Closed, ClosedBatch, Does;
    accepted, states := [], [m.Snapshot()];
    ghost var s := m.Snapshot();
    ProgressNone(s, s);
    for i := 0 to |ops|
      invariant Progress(s, m.Snapshot(), accepted)
      invariant |states| == i + 1 && states[0] == s && states[i] == m.Snapshot()
      invariant forall k | 0 <= k <= i :: Inv(states[k])
      invariant forall k | 0 <= k < i :: Does(ops[k], states[k], states[k + 1])
      invariant BringHistory(ops[..i], states) && Closed(s.dag, s.gc) ==>
        forall k | 0 <= k <= i :: Closed(states[k].dag, states[k].gc)
    {
      ghost var before, sofar := m.Snapshot(), states;
      assert ops[..i + 1] == ops[..i] + [ops[i]];
      ghost var more, ok := Step(m, ops[i]);
      ProgressAppend(s, before, m.Snapshot(), accepted, more);
      accepted, states := accepted + more, states + [m.Snapshot()];
      if BringHistory(ops[..i + 1], states) {
        assert forall k | 0 <= k < i :: ops[..i + 1][k] == ops[..i][k] && states[k] == sofar[k];
        assert ops[..i + 1][i] == ops[i] && states[i] == before;
      }
    }
    assert ops[..|ops|] == ops;
  }

  /** Every committed batch of the run is closed in the state it arrives in. */
  ghost predicate BringHistory(ops: seq<Op>, states: seq<State>)
    requires |states| > |ops|
  {
    forall i | 0 <= i < |ops| && ops[i].AcceptCommitted? :: ClosedBatch(states[i].dag, states[i].gc, ops[i].blocks)
  }

  // ---------- What the committer relies on ----------

  /** The committer's DAG: what was accepted, without genesis. */
  ghost function CommitterDag(dag: Dag): Dag {
    map r | r in dag && r.round > GENESIS_ROUND :: dag[r]
  }

  /** A closed DAG of network blocks is a view of the network, so a walk that stays above
      the collection round finds every block it asks for. */
  lemma AcceptedIsView(s: State, n: Network)
    requires Inv(s) && Closed(s.dag, s.gc)
    requires forall r | r in s.dag && r.round > GENESIS_ROUND :: r in n.blocks && n.blocks[r] == s.dag[r]
    ensures IsView(n, View(CommitterDag(s.dag), s.gc))
    ensures forall lo | lo >= s.gc :: Walkable(CommitterDag(s.dag), lo)
  {
    hide Linked, WaitsRightly;
    var v := CommitterDag(s.dag);
    forall r, a | r in v && a in v[r].ancestors && a.round > s.gc ensures a in v {
      assert Needed(s.gc, a);
    }
  }
}
