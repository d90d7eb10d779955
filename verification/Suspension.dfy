/** The bookkeeping of the block manager as values: what the three maps mean, and what
    resolving a dependency does to them (consensus/core/src/block_manager.rs). */
module Suspension {
  import opened Blocks

  datatype Suspended = Suspended(block: Block, missing: set<BlockRef>)

  type SuspendedMap = map<BlockRef, Suspended>
  type Dependants = map<BlockRef, set<BlockRef>>

  /** A block that passed verification, as far as suspension depends on it. */
  ghost predicate Rooted(genesis: set<BlockRef>, b: Block) {
    && b.ref.round >= 1 && LowerRounds(b)
    && forall a | a in b.ancestors && a.round == GENESIS_ROUND :: a in genesis
  }

  /** Ancestors that must be present before a block is accepted. */
  predicate Needed(gc: nat, a: BlockRef) { a.round == GENESIS_ROUND || a.round > gc }

  ghost function Unmet(dag: Dag, gc: nat, b: Block): set<BlockRef> {
    set a | a in b.ancestors && Needed(gc, a) && a !in dag
  }

  /** Nothing is unmet if and only if every ancestor of the genesis round or above the collection
      round is accepted. */
  lemma UnmetIff(dag: Dag, gc: nat, b: Block)
    ensures Unmet(dag, gc, b) == {} <==>
      forall a | a in b.ancestors && (a.round == 0 || a.round > gc) :: a in dag
    ensures forall a :: a in Unmet(dag, gc, b) <==>
      a in b.ancestors && (a.round == 0 || a.round > gc) && a !in dag
  {
    if !(forall a | a in b.ancestors && (a.round == 0 || a.round > gc) :: a in dag) {
      var a :| a in b.ancestors && (a.round == 0 || a.round > gc) && a !in dag;
      assert a in Unmet(dag, gc, b);
    }
  }

  // ---------- Invariants ----------

  /** `missing_ancestors` and the missing sets of the suspended blocks mirror each other,
      and no suspended block waits for nothing. */
  ghost predicate Linked(susp: SuspendedMap, deps: Dependants) {
    && (forall b | b in susp :: susp[b].block.ref == b && susp[b].missing != {})
    && (forall b, a | b in susp && a in susp[b].missing :: a in deps && b in deps[a])
    && (forall a, b | a in deps && b in deps[a] :: b in susp && a in susp[b].missing)
  }

  datatype State = State(
    genesis: set<BlockRef>, dag: Dag, gc: nat, suspended: SuspendedMap, dependants: Dependants, missing: set<BlockRef>)

  ghost predicate DagOk(s: State) {
    && s.genesis <= s.dag.Keys
    && forall r | r in s.dag :: s.dag[r].ref == r && LowerRounds(s.dag[r])
  }

  /** What a suspended block waits for: at least every needed ancestor not accepted,
      and nothing but unaccepted ancestors. */
  ghost predicate WaitsRightly(s: State, b: BlockRef)
    requires b in s.suspended
  {
    var e := s.suspended[b];
    && b !in s.dag && Rooted(s.genesis, e.block)
    && (forall a | a in e.missing :: a in e.block.ancestors)
    && Unmet(s.dag, s.gc, e.block) <= e.missing
  }

  /** The invariant of every run. */
  ghost predicate Inv(s: State) {
    && DagOk(s)
    && Linked(s.suspended, s.dependants)
    && (forall b | b in s.suspended :: WaitsRightly(s, b))
    && s.dependants.Keys !! s.dag.Keys && (forall a | a in s.dependants :: a.round >= 1)
    && s.missing == s.dependants.Keys - s.suspended.Keys
  }

  /** Every accepted block has its ancestors accepted or collected. */
  ghost predicate Closed(dag: Dag, gc: nat) {
    forall r, a | r in dag && a in dag[r].ancestors && Needed(gc, a) :: a in dag
  }

  /** Every block that arrived and was not dropped, accepted or not. */
  ghost function Held(s: State): Dag {
    map r | r in s.dag.Keys + s.suspended.Keys :: if r in s.dag then s.dag[r] else s.suspended[r].block
  }

  /** Every missing reference is waited for by someone. */
  ghost predicate NoBareKeys(deps: Dependants) {
    forall a | a in deps :: deps[a] != {}
  }

  /** No missing reference is collected. */
  ghost predicate Swept(s: State) {
    forall a | a in s.dependants :: a.round > s.gc
  }

  /** A missing reference stays until its block is accepted or collected, with all that wait
      for it; a new one is above the collection round and has someone waiting. */
  ghost predicate KeysStay(s: State, s': State) {
    && (forall a | a in s.dependants :: a in s'.dependants || a in s'.dag || a.round <= s'.gc)
    && (forall a | a in s'.dependants ::
          if a in s.dependants then s.dependants[a] <= s'.dependants[a]
          else s'.dependants[a] != {} && a.round > s'.gc)
  }

  lemma KeysStayOn(s: State, s': State, s'': State)
    requires KeysStay(s, s') && KeysStay(s', s'') && s'.gc == s''.gc
    requires s'.dag.Keys <= s''.dag.Keys && s''.dag.Keys !! s''.dependants.Keys
    ensures KeysStay(s, s'')
  {}

  lemma KeysStayTidy(s: State, s': State)
    requires KeysStay(s, s') && s'.gc == s.gc
    ensures Swept(s) ==> Swept(s')
    ensures NoBareKeys(s.dependants) ==> NoBareKeys(s'.dependants)
  {
    if NoBareKeys(s.dependants) {
      forall a | a in s'.dependants ensures s'.dependants[a] != {} {
        if a in s.dependants { assert s.dependants[a] != {} && s.dependants[a] <= s'.dependants[a]; }
      }
    }
  }

  // ---------- Resolving dependencies ----------

  /** Suspended blocks after those in `gone` left and those in `done` arrived. */
  function Resolve(susp: SuspendedMap, gone: set<BlockRef>, done: set<BlockRef>): SuspendedMap {
    map b | b in susp && b !in gone :: Suspended(susp[b].block, susp[b].missing - done)
  }

  lemma ResolveTwice(susp: SuspendedMap, gone: set<BlockRef>, done: set<BlockRef>, gone': set<BlockRef>,
                     done': set<BlockRef>)
    ensures Resolve(Resolve(susp, gone, done), gone', done') == Resolve(susp, gone + gone', done + done')
  {
    var l, r := Resolve(Resolve(susp, gone, done), gone', done'), Resolve(susp, gone + gone', done + done');
    assert l.Keys == r.Keys;
    forall b | b in l ensures l[b] == r[b] {
      assert susp[b].missing - done - done' == susp[b].missing - (done + done');
    }
  }

  /** Each block comes after everything it was waiting for. */
  ghost predicate FreedInOrder(susp: SuspendedMap, start: BlockRef, freed: seq<Block>) {
    && DistinctRefs(freed)
    && (forall u | u in freed :: u.ref in susp && u == susp[u.ref].block)
    && (forall i | 0 <= i < |freed| :: freed[i].ref in susp && susp[freed[i].ref].missing <= {start} + Refs(freed[..i]))
  }

  // ---------- Accepting blocks ----------

  /** `dag` with `blocks` accepted into it. */
  ghost predicate Grown(dag: Dag, dag': Dag, blocks: seq<Block>) {
    && dag'.Keys == dag.Keys + Refs(blocks)
    && (forall r | r in dag :: dag'[r] == dag[r])
    && (forall b | b in blocks && b.ref !in dag :: dag'[b.ref] == b)
  }

  /** Each block comes after all its needed ancestors. */
  ghost predicate CausalOrder(dag: Dag, gc: nat, blocks: seq<Block>) {
    forall i, a | 0 <= i < |blocks| && a in blocks[i].ancestors && Needed(gc, a) ::
      a in dag || a in Refs(blocks[..i])
  }

  /** What `start` and the blocks it frees leave behind. */
  ghost predicate Resolved(s: State, s': State, start: BlockRef, freed: seq<Block>) {
    var gone := {start} + Refs(freed);
    && s'.genesis == s.genesis && s'.gc == s.gc
    && s'.suspended == Resolve(s.suspended, gone, gone)
    && s'.dependants == s.dependants - gone
    && Linked(s'.suspended, s'.dependants)
    && s'.missing == s.missing - {start}
  }

  /** Accepting the freed blocks, and `start` unless it is collected, keeps the invariant. */
  lemma ResolveKeepsInv(s: State, s': State, start: BlockRef, freed: seq<Block>, added: seq<Block>)
    requires Inv(s) && start !in s.suspended && start !in s.dag
    requires FreedInOrder(s.suspended, start, freed) && Resolved(s, s', start, freed)
    requires Grown(s.dag, s'.dag, added)
    requires Refs(freed) <= Refs(added) <= {start} + Refs(freed)
    requires forall b | b in added :: LowerRounds(b)
    requires start in Refs(added) || !Needed(s.gc, start)
    ensures Inv(s')
  {
    hide LowerRounds, Linked, DagOk, WaitsRightly;
    assert Refs(freed) <= s.suspended.Keys;
    GrownDagOk(s, s', added);
    ResolvedKeys(s, s', start, freed);
    assert s'.dependants.Keys !! s'.dag.Keys;
    forall b | b in s'.suspended ensures WaitsRightly(s', b) { StillWaitsRightly(s, s', start, freed, added, b); }
  }

  lemma ResolvedKeys(s: State, s': State, start: BlockRef, freed: seq<Block>)
    requires Resolved(s, s', start, freed) && Refs(freed) <= s.suspended.Keys && start !in s.suspended
    ensures s'.suspended.Keys == s.suspended.Keys - Refs(freed)
    ensures s'.dependants.Keys == s.dependants.Keys - ({start} + Refs(freed))
  {
    hide Linked;
  }

  lemma GrownDagOk(s: State, s': State, added: seq<Block>)
    requires DagOk(s) && Grown(s.dag, s'.dag, added) && (forall b | b in added :: LowerRounds(b))
    requires s'.gc == s.gc && s'.genesis == s.genesis
    ensures DagOk(s')
  {
    hide LowerRounds;
    forall r | r in s'.dag ensures s'.dag[r].ref == r && LowerRounds(s'.dag[r]) {
      if r !in s.dag { var b :| b in added && b.ref == r; }
    }
  }

  /** `freed` left the suspended blocks of `s` and was accepted, possibly after `start`. */
  ghost predicate Moved(s: State, s': State, start: BlockRef, freed: seq<Block>, added: seq<Block>) {
    && start !in s.suspended && start !in s.dag && s.dag.Keys !! s.suspended.Keys
    && (forall u | u in freed :: u.ref in s.suspended && u == s.suspended[u.ref].block)
    && s'.suspended == Resolve(s.suspended, {start} + Refs(freed), {start} + Refs(freed))
    && Grown(s.dag, s'.dag, added)
    && (forall b | b in added :: b in freed || b.ref == start)
    && Refs(freed) <= Refs(added)
  }

  lemma MovedKeys(s: State, s': State, start: BlockRef, freed: seq<Block>, added: seq<Block>)
    requires Moved(s, s', start, freed, added)
    ensures Held(s').Keys == Held(s).Keys + Refs(added) && Refs(freed) <= Held(s).Keys
  {
    assert Refs(freed) <= s.suspended.Keys;
    assert s'.suspended.Keys == s.suspended.Keys - Refs(freed);
  }

  lemma MovedKeeps(s: State, s': State, start: BlockRef, freed: seq<Block>, added: seq<Block>, r: BlockRef)
    requires Moved(s, s', start, freed, added) && r in Held(s)
    ensures r in Held(s') && Held(s')[r] == Held(s)[r]
  {
    if r in Refs(freed) { HeldFreed(s, s', freed, added, start, r); }
  }

  /** Freed blocks move from suspended to accepted; nothing is lost, and nothing appears
      but `b`, if it is what started it. */
  lemma ResolveKeepsHeld(s: State, s': State, b: Block, freed: seq<Block>, added: seq<Block>)
    requires Moved(s, s', b.ref, freed, added)
    ensures added == freed ==> Held(s') == Held(s)
    ensures added == [b] + freed ==> Held(s') == Held(s)[b.ref := b]
  {
    hide Moved, Held, Refs;
    MovedKeys(s, s', b.ref, freed, added);
    forall r | r in Held(s) ensures r in Held(s') && Held(s')[r] == Held(s)[r] {
      MovedKeeps(s, s', b.ref, freed, added, r);
    }
    if added == [b] + freed {
      PrefixRefs(b, freed);
      MovedAdds(s, s', b, freed, added);
    }
  }

  lemma MovedAdds(s: State, s': State, b: Block, freed: seq<Block>, added: seq<Block>)
    requires Moved(s, s', b.ref, freed, added) && added == [b] + freed
    ensures b.ref in Held(s') && Held(s')[b.ref] == b && b.ref !in Held(s)
  {
    assert added[0] == b;
  }

  lemma HeldFreed(s: State, s': State, freed: seq<Block>, added: seq<Block>, start: BlockRef, r: BlockRef)
    requires start !in s.suspended && s.dag.Keys !! s.suspended.Keys
    requires forall u | u in freed :: u.ref in s.suspended && u == s.suspended[u.ref].block
    requires Grown(s.dag, s'.dag, added) && r in Refs(freed) && Refs(freed) <= Refs(added)
    requires forall b | b in added :: b in freed || b.ref == start
    ensures r in s'.dag && s'.dag[r] == s.suspended[r].block && r !in s.dag
  {
    var b :| b in added && b.ref == r;
    assert b.ref in s.suspended;
  }

  lemma StillWaitsRightly(s: State, s': State, start: BlockRef, freed: seq<Block>, added: seq<Block>, b: BlockRef)
    requires Inv(s) && Resolved(s, s', start, freed) && Grown(s.dag, s'.dag, added)
    requires Refs(freed) <= Refs(added) <= {start} + Refs(freed)
    requires start in Refs(added) || !Needed(s.gc, start)
    requires b in s'.suspended
    ensures WaitsRightly(s', b)
  {
    hide LowerRounds, Linked;
    assert b in s.suspended && WaitsRightly(s, b);
    var e, e' := s.suspended[b], s'.suspended[b];
    forall a | a in Unmet(s'.dag, s'.gc, e'.block) ensures a in e'.missing {
      assert a in Unmet(s.dag, s.gc, e.block);
    }
  }

  /** A freed block finds its needed ancestors accepted before it. */
  lemma FreedCausally(s: State, b: Block, freed: seq<Block>)
    requires Inv(s) && FreedInOrder(s.suspended, b.ref, freed)
    requires forall a | a in b.ancestors && Needed(s.gc, a) :: a in s.dag
    ensures CausalOrder(s.dag, s.gc, [b] + freed)
  {
    hide Inv, FreedInOrder;
    var all := [b] + freed;
    forall i, a | 0 < i < |all| && a in all[i].ancestors && Needed(s.gc, a) && a !in s.dag
      ensures a in Refs(all[..i])
    {
      FreedFinds(s, b.ref, freed, i - 1, a);
      assert all[..i] == [b] + freed[..i - 1];
      PrefixRefs(b, freed[..i - 1]);
    }
  }

  lemma FreedFinds(s: State, start: BlockRef, freed: seq<Block>, i: nat, a: BlockRef)
    requires Inv(s) && FreedInOrder(s.suspended, start, freed) && i < |freed|
    requires a in freed[i].ancestors && Needed(s.gc, a) && a !in s.dag
    ensures a in {start} + Refs(freed[..i])
  {
    hide LowerRounds, Linked;
    var u := freed[i];
    assert u in freed;
    assert WaitsRightly(s, u.ref);
    assert a in Unmet(s.dag, s.gc, u);
  }

  lemma PrefixRefs(b: Block, rest: seq<Block>)
    ensures Refs([b] + rest) == {b.ref} + Refs(rest)
  {
    assert forall x :: x in [b] + rest <==> x == b || x in rest;
  }

  lemma AppendRefs(x: seq<Block>, y: seq<Block>)
    ensures Refs(x + y) == Refs(x) + Refs(y)
  {
    assert forall b :: b in x + y <==> b in x || b in y;
  }

  lemma CausalOrderAppend(dag: Dag, dag': Dag, gc: nat, x: seq<Block>, y: seq<Block>)
    requires Grown(dag, dag', x) && CausalOrder(dag, gc, x) && CausalOrder(dag', gc, y)
    ensures CausalOrder(dag, gc, x + y)
  {
    forall i, a | 0 <= i < |x + y| && a in (x + y)[i].ancestors && Needed(gc, a) && a !in dag
      ensures a in Refs((x + y)[..i])
    {
      if i < |x| {
        assert (x + y)[..i] == x[..i];
      } else {
        assert (x + y)[i] == y[i - |x|];
        assert (x + y)[..i] == x + y[..i - |x|];
        AppendRefs(x, y[..i - |x|]);
      }
    }
  }

  lemma GrownAppend(dag: Dag, dag': Dag, dag'': Dag, x: seq<Block>, y: seq<Block>)
    requires Grown(dag, dag', x) && Grown(dag', dag'', y) && DistinctRefs(x) && Refs(x) !! dag.Keys
    requires DistinctRefs(y) && Refs(y) !! dag'.Keys
    ensures Grown(dag, dag'', x + y) && DistinctRefs(x + y) && Refs(x + y) !! dag.Keys
  {
    AppendRefs(x, y);
    forall i, j | 0 <= i < j < |x + y| ensures (x + y)[i].ref != (x + y)[j].ref {
      if i < |x| <= j {
        assert x[i] in x && y[j - |x|] in y;
        assert x[i].ref in Refs(x) && y[j - |x|].ref in Refs(y);
      }
    }
  }

  /** A causally ordered batch keeps the DAG closed. */
  lemma CausalOrderKeepsClosed(dag: Dag, dag': Dag, gc: nat, blocks: seq<Block>)
    requires Closed(dag, gc) && Grown(dag, dag', blocks) && CausalOrder(dag, gc, blocks)
    ensures Closed(dag', gc)
  {
    forall r, a | r in dag' && a in dag'[r].ancestors && Needed(gc, a) ensures a in dag' {
      if r !in dag {
        var b :| b in blocks && b.ref == r;
        var i :| 0 <= i < |blocks| && blocks[i] == b;
        if a !in dag {
          var u :| u in blocks[..i] && u.ref == a;
          assert u in blocks;
        }
      }
    }
  }

  // ---------- One input block, and a batch of them ----------

  /** From `s` to `s'` exactly the blocks `accepted` were accepted, each once. */
  ghost predicate Advanced(s: State, s': State, accepted: seq<Block>) {
    && Inv(s') && s'.genesis == s.genesis && s'.gc == s.gc
    && Grown(s.dag, s'.dag, accepted) && DistinctRefs(accepted) && Refs(accepted) !! s.dag.Keys
  }

  lemma AdvancedNone(s: State, s': State)
    requires Inv(s') && s'.genesis == s.genesis && s'.gc == s.gc && s'.dag == s.dag
    ensures Advanced(s, s', []) && CausalOrder(s.dag, s.gc, []) && KeysStay(s, s)
  {}

  lemma AdvancedAppend(s: State, s': State, s'': State, x: seq<Block>, y: seq<Block>)
    requires Advanced(s, s', x) && Advanced(s', s'', y)
    ensures Advanced(s, s'', x + y)
    ensures CausalOrder(s.dag, s.gc, x) && CausalOrder(s'.dag, s.gc, y) ==> CausalOrder(s.dag, s.gc, x + y)
  {
    hide Inv, Refs, DistinctRefs, Grown, CausalOrder;
    GrownAppend(s.dag, s'.dag, s''.dag, x, y);
    if CausalOrder(s.dag, s.gc, x) && CausalOrder(s'.dag, s.gc, y) {
      CausalOrderAppend(s.dag, s'.dag, s.gc, x, y);
    }
  }

  /** Accepting `b` and what it frees. */
  lemma AcceptAdvances(s: State, s': State, b: Block, freed: seq<Block>)
    requires Inv(s) && Rooted(s.genesis, b) && b.ref !in s.suspended && b.ref !in s.dag
    requires FreedInOrder(s.suspended, b.ref, freed) && Resolved(s, s', b.ref, freed)
    requires Grown(s.dag, s'.dag, [b] + freed)
    ensures Advanced(s, s', [b] + freed) && Held(s') == Held(s)[b.ref := b]
    ensures (forall a | a in b.ancestors && Needed(s.gc, a) :: a in s.dag) ==> CausalOrder(s.dag, s.gc, [b] + freed)
    ensures KeysStay(s, s')
  {
    hide LowerRounds, Linked, Rooted, CausalOrder, Inv, Moved, Held, Grown, FreedInOrder, KeysStay;
    var added := [b] + freed;
    PrefixRefs(b, freed);
    FreedAreRooted(s, b, freed);
    ResolveKeepsInv(s, s', b.ref, freed, added);
    AcceptMoves(s, s', b, freed);
    ResolveKeepsHeld(s, s', b, freed, added);
    ResolvedKeysStay(s, s', b.ref, freed, added);
    if forall a | a in b.ancestors && Needed(s.gc, a) :: a in s.dag { FreedCausally(s, b, freed); }
  }

  lemma AcceptMoves(s: State, s': State, b: Block, freed: seq<Block>)
    requires Inv(s) && b.ref !in s.suspended && b.ref !in s.dag
    requires FreedInOrder(s.suspended, b.ref, freed) && Resolved(s, s', b.ref, freed)
    requires Grown(s.dag, s'.dag, [b] + freed)
    ensures Moved(s, s', b.ref, freed, [b] + freed)
  {
    hide Linked, LowerRounds, Grown;
    PrefixRefs(b, freed);
    assert forall r | r in s.suspended :: WaitsRightly(s, r);
  }

  lemma FreedAreRooted(s: State, b: Block, freed: seq<Block>)
    requires Inv(s) && Rooted(s.genesis, b) && b.ref !in s.suspended && b.ref !in s.dag
    requires FreedInOrder(s.suspended, b.ref, freed)
    ensures forall u | u in [b] + freed :: Rooted(s.genesis, u) && LowerRounds(u) && u.ref !in s.dag
    ensures DistinctRefs([b] + freed)
  {
    hide Linked, LowerRounds;
    forall u | u in freed ensures Rooted(s.genesis, u) && u.ref !in s.dag && u.ref in s.suspended {
      assert WaitsRightly(s, u.ref);
    }
    forall j | 0 <= j < |freed| ensures freed[j].ref != b.ref { assert freed[j] in freed; }
  }

  /** Freeing through a collected reference. */
  lemma CollectAdvances(s: State, s': State, start: BlockRef, freed: seq<Block>)
    requires Inv(s) && start in s.dependants && start !in s.suspended && start.round <= s.gc
    requires FreedInOrder(s.suspended, start, freed) && Resolved(s, s', start, freed)
    requires Grown(s.dag, s'.dag, freed)
    ensures Advanced(s, s', freed) && Held(s') == Held(s) && CausalOrder(s.dag, s.gc, freed) && KeysStay(s, s')
  {
    hide LowerRounds, Linked, CausalOrder, KeysStay, Inv, Moved, Held, Grown, FreedInOrder, Rooted;
    CollectMoves(s, s', start, freed);
    ResolveKeepsInv(s, s', start, freed, freed);
    ResolveKeepsHeld(s, s', Block(start, []), freed, freed);
    CollectCausally(s, start, freed);
    ResolvedKeysStay(s, s', start, freed, freed);
  }

  lemma CollectMoves(s: State, s': State, start: BlockRef, freed: seq<Block>)
    requires Inv(s) && start in s.dependants && start !in s.suspended && start.round <= s.gc
    requires FreedInOrder(s.suspended, start, freed) && Resolved(s, s', start, freed) && Grown(s.dag, s'.dag, freed)
    ensures Moved(s, s', start, freed, freed) && start !in s.dag && 1 <= start.round && DistinctRefs(freed)
    ensures (forall u | u in freed :: LowerRounds(u) && u.ref !in s.dag) && Refs(freed) !! s.dag.Keys
  {
    hide LowerRounds, Linked, Grown;
    forall u | u in freed ensures Rooted(s.genesis, u) && u.ref !in s.dag && u.ref in s.suspended {
      assert WaitsRightly(s, u.ref);
    }
    assert forall u | u in freed :: Rooted(s.genesis, u) ==> LowerRounds(u);
    assert forall r | r in s.suspended :: WaitsRightly(s, r);
  }

  lemma ResolvedKeysStay(s: State, s': State, start: BlockRef, freed: seq<Block>, added: seq<Block>)
    requires Resolved(s, s', start, freed) && Grown(s.dag, s'.dag, added) && Refs(freed) <= Refs(added)
    requires start in Refs(added) || start.round <= s.gc
    ensures KeysStay(s, s')
  {
    hide Linked, Resolve, Refs;
  }

  lemma CollectCausally(s: State, start: BlockRef, freed: seq<Block>)
    requires Inv(s) && FreedInOrder(s.suspended, start, freed) && 1 <= start.round <= s.gc
    ensures CausalOrder(s.dag, s.gc, freed)
  {
    hide Inv, FreedInOrder;
    forall i, a | 0 <= i < |freed| && a in freed[i].ancestors && Needed(s.gc, a) && a !in s.dag
      ensures a in Refs(freed[..i])
    {
      FreedFinds(s, start, freed, i, a);
    }
  }
}
