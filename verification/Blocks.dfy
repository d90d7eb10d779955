/** Blocks, references and the local DAG.

    A `BlockRef` identifies one block, so a DAG is a map from references to blocks.
    The committer's DAG holds no genesis block: genesis blocks have no ancestors and
    are never a vote, a certificate or a leader candidate. */
module Blocks {
  import opened Committees

  const GENESIS_ROUND: nat := 0

  datatype Option<+T> = None | Some(value: T)

  datatype Slot = Slot(round: nat, authority: nat)

  datatype BlockRef = BlockRef(round: nat, author: nat, digest: nat)
  {
    function SlotOf(): Slot { Slot(round, author) }
  }

  datatype Block = Block(ref: BlockRef, ancestors: seq<BlockRef>)

  type Dag = map<BlockRef, Block>

  function Refs(blocks: seq<Block>): set<BlockRef> {
    set b | b in blocks :: b.ref
  }

  ghost predicate DistinctRefs(blocks: seq<Block>) {
    forall i, j | 0 <= i < j < |blocks| :: blocks[i].ref != blocks[j].ref
  }

  ghost predicate NoRepeats(refs: seq<BlockRef>) {
    forall i, j | 0 <= i < j < |refs| :: refs[i] != refs[j]
  }

  /** The garbage collection round, from the round of the last committed leader. */
  function Gc(lastCommitRound: nat, gcDepth: nat): nat {
    if lastCommitRound >= gcDepth then lastCommitRound - gcDepth else 0
  }

  /** A round is above it if and only if it is no genesis round and less than the depth behind. */
  lemma AboveGcIff(round: nat, lastCommitRound: nat, gcDepth: nat)
    ensures round > Gc(lastCommitRound, gcDepth) <==> round >= 1 && round + gcDepth > lastCommitRound
  {}

  // ---------- Well-formed blocks ----------

  ghost predicate DistinctAuthors(ancestors: seq<BlockRef>) {
    forall i, j | 0 <= i < j < |ancestors| :: ancestors[i].author != ancestors[j].author
  }

  ghost predicate OwnAncestorFirst(b: Block) {
    && |b.ancestors| > 0
    && b.ancestors[0].author == b.ref.author
    && forall i | 0 < i < |b.ancestors| :: b.ancestors[i].author != b.ref.author
  }

  ghost predicate LowerRounds(b: Block) {
    forall a | a in b.ancestors :: a.round < b.ref.round
  }

  /** Authors of the ancestors in the round just below the block. */
  function ParentAuthors(b: Block): set<nat> {
    set a | a in b.ancestors && a.round + 1 == b.ref.round :: a.author
  }

  /** What block verification guarantees about the ancestors of a block. */
  ghost predicate WellFormed(c: Committee, b: Block) {
    && b.ref.round >= 1
    && b.ref.author < c.Size()
    && (forall a | a in b.ancestors :: a.author < c.Size())
    && OwnAncestorFirst(b)
    && LowerRounds(b)
    && DistinctAuthors(b.ancestors)
    && IsQuorum(c, ParentAuthors(b))
  }

  // ---------- Walking a DAG ----------

  /** Every walk down from a block finds its blocks as long as it stays above `lo`,
      and every step goes to a lower round. */
  ghost predicate Walkable(v: Dag, lo: nat) {
    && (forall r | r in v :: v[r].ref == r && LowerRounds(v[r]))
    && (forall r, a | r in v && a in v[r].ancestors && a.round > lo :: a in v)
  }

  lemma WalkableAbove(v: Dag, lo: nat)
    requires Walkable(v, lo)
    ensures forall hi: nat {:trigger Walkable(v, hi)} | lo <= hi :: Walkable(v, hi)
  {}

  /** `to` is in the history of `from`, through blocks above `lo`. */
  ghost predicate Reaches(v: Dag, lo: nat, from: BlockRef, to: BlockRef)
    requires Walkable(v, lo) && from in v
    decreases from.round
  {
    exists a :: a in v[from].ancestors && (a == to || (a.round > lo && Reaches(v, lo, a, to)))
  }

  lemma {:induction false} ReachesLower(v: Dag, lo: nat, from: BlockRef, to: BlockRef)
    requires Walkable(v, lo) && from in v && Reaches(v, lo, from, to)
    ensures to.round < from.round && (to.round > lo ==> to in v)
    decreases from.round
  {
    var a :| a in v[from].ancestors && (a == to || (a.round > lo && Reaches(v, lo, a, to)));
    if a != to { ReachesLower(v, lo, a, to); }
  }

  lemma {:induction false} ReachesTransitive(v: Dag, lo: nat, from: BlockRef, mid: BlockRef, to: BlockRef)
    requires Walkable(v, lo) && from in v && Reaches(v, lo, from, mid)
    requires mid.round > lo && mid in v && Reaches(v, lo, mid, to)
    ensures Reaches(v, lo, from, to)
    decreases from.round
  {
    var a :| a in v[from].ancestors && (a == mid || (a.round > lo && Reaches(v, lo, a, mid)));
    if a != mid { ReachesTransitive(v, lo, a, mid, to); }
  }

  /** History seen from a block does not depend on the view holding it. */
  lemma {:induction false} ReachesInBothViews(v: Dag, w: Dag, lo: nat, from: BlockRef, to: BlockRef)
    requires Walkable(v, lo) && Walkable(w, lo) && from in v && from in w
    requires forall r | r in v && r in w :: v[r] == w[r]
    requires Reaches(v, lo, from, to)
    ensures Reaches(w, lo, from, to)
    decreases from.round
  {
    var a :| a in v[from].ancestors && (a == to || (a.round > lo && Reaches(v, lo, a, to)));
    if a != to { ReachesInBothViews(v, w, lo, a, to); }
  }
}
