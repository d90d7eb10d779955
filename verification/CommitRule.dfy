/** The commit rule as a specification: votes, certificates, blame, and the direct
    and indirect decision of a leader slot (consensus/core/src/base_committer.rs).
    The methods of BaseCommitter are proved against these definitions. */
module CommitRule {
  import opened Committees
  import opened Blocks

  const MINIMUM_WAVE_LENGTH: nat := 3
  const DEFAULT_WAVE_LENGTH: nat := MINIMUM_WAVE_LENGTH

  datatype LeaderStatus =
    | Commit(block: Block)
    | Skip(slot: Slot)
    | Undecided(slot: Slot)
  {
    function Round(): nat {
      match this
      case Commit(block) => block.ref.round
      case Skip(slot) => slot.round
      case Undecided(slot) => slot.round
    }

    predicate IsDecided() { !Undecided? }
  }

  // ---------- Waves ----------

  datatype Options = Options(waveLength: nat, leaderOffset: nat, roundOffset: nat)
  {
    function LeaderRound(wave: nat): nat { wave * waveLength + roundOffset }

    function DecisionRound(wave: nat): nat
      requires waveLength >= 1
    {
      wave * waveLength + waveLength - 1 + roundOffset
    }

    function WaveNumber(round: nat): nat
      requires waveLength >= 1
    {
      (if round >= roundOffset then round - roundOffset else 0) / waveLength
    }

    /** Whether a committer with these options has a leader in `round`. */
    predicate Elects(round: nat)
      requires waveLength >= 1
    {
      LeaderRound(WaveNumber(round)) == round
    }
  }

  // ---------- Support ----------

  /** The block that `from` supports at `slot`: depth first through the ancestors in
      their order, never below the slot's round. */
  function FindSupportedBlock(v: Dag, slot: Slot, from: BlockRef): Option<BlockRef>
    requires Walkable(v, slot.round) && from in v
    decreases from.round, |v[from].ancestors| + 1
  {
    if from.round < slot.round then None else FindSupportedFrom(v, slot, from, 0)
  }

  function FindSupportedFrom(v: Dag, slot: Slot, from: BlockRef, i: nat): Option<BlockRef>
    requires Walkable(v, slot.round) && from in v && i <= |v[from].ancestors|
    decreases from.round, |v[from].ancestors| - i
  {
    if i == |v[from].ancestors| then None else
    var a := v[from].ancestors[i];
    if a.SlotOf() == slot then Some(a)
    else if a.round <= slot.round then FindSupportedFrom(v, slot, from, i + 1)
    else
      var support := FindSupportedBlock(v, slot, a);
      if support.Some? then support else FindSupportedFrom(v, slot, from, i + 1)
  }

  predicate IsVote(v: Dag, vote: BlockRef, leader: BlockRef)
    requires Walkable(v, leader.round) && vote in v
  {
    FindSupportedBlock(v, leader.SlotOf(), vote) == Some(leader)
  }

  /** Authors of the ancestors of `cert` that vote for `leader`. */
  ghost function Voters(v: Dag, cert: BlockRef, leader: BlockRef): set<nat>
    requires Walkable(v, leader.round) && cert in v
  {
    set a | a in v[cert].ancestors && a in v && IsVote(v, a, leader) :: a.author
  }

  ghost predicate Certifies(c: Committee, v: Dag, cert: BlockRef, leader: BlockRef)
    requires Walkable(v, leader.round) && cert in v
  {
    IsQuorum(c, Voters(v, cert, leader))
  }

  /** Authors of the certificates for `leader` in `round`. */
  ghost function Certifiers(c: Committee, v: Dag, round: nat, leader: BlockRef): set<nat>
    requires Walkable(v, leader.round)
  {
    set r | r in v && r.round == round && Certifies(c, v, r, leader) :: r.author
  }

  ghost predicate Supported(c: Committee, v: Dag, round: nat, leader: BlockRef)
    requires Walkable(v, leader.round)
  {
    IsQuorum(c, Certifiers(c, v, round, leader))
  }

  predicate IsBlame(b: Block, leader: nat) {
    forall a | a in b.ancestors :: a.author != leader
  }

  ghost function Blamers(v: Dag, votingRound: nat, leader: nat): set<nat> {
    set r | r in v && r.round == votingRound && IsBlame(v[r], leader) :: r.author
  }

  ghost predicate Blamed(c: Committee, v: Dag, slot: Slot) {
    IsQuorum(c, Blamers(v, slot.round + 1, slot.authority))
  }

  // ---------- Decisions ----------

  /** A candidate of the slot with a quorum of certificates in the decision round. */
  ghost predicate SupportedAt(c: Committee, v: Dag, slot: Slot, decisionRound: nat, leader: BlockRef)
    requires Walkable(v, slot.round)
  {
    leader in v && leader.SlotOf() == slot && Supported(c, v, decisionRound, leader)
  }

  /** A candidate of the slot with a certificate in the anchor's history. */
  ghost predicate CertifiedAt(c: Committee, v: Dag, slot: Slot, decisionRound: nat,
                              anchor: BlockRef, leader: BlockRef)
    requires Walkable(v, slot.round) && anchor in v && slot.round <= decisionRound
  {
    && leader in v && leader.SlotOf() == slot
    && exists r :: r in v && r.round == decisionRound
                   && Reaches(v, slot.round, anchor, r) && Certifies(c, v, r, leader)
  }

  /** When the direct rule does not panic. */
  ghost predicate AtMostOneSupported(c: Committee, v: Dag, slot: Slot, decisionRound: nat)
    requires Walkable(v, slot.round)
  {
    forall l, m | SupportedAt(c, v, slot, decisionRound, l) && SupportedAt(c, v, slot, decisionRound, m) :: l == m
  }

  /** When the indirect rule does not panic. */
  ghost predicate AtMostOneCertified(c: Committee, v: Dag, slot: Slot, decisionRound: nat, anchor: BlockRef)
    requires Walkable(v, slot.round) && anchor in v && slot.round <= decisionRound
  {
    forall l, m | CertifiedAt(c, v, slot, decisionRound, anchor, l)
               && CertifiedAt(c, v, slot, decisionRound, anchor, m) :: l == m
  }

  ghost function DirectDecision(c: Committee, v: Dag, slot: Slot, decisionRound: nat): LeaderStatus
    requires Walkable(v, slot.round)
  {
    if Blamed(c, v, slot) then Skip(slot)
    else if exists l :: SupportedAt(c, v, slot, decisionRound, l) then
      var l :| SupportedAt(c, v, slot, decisionRound, l);
      Commit(v[l])
    else Undecided(slot)
  }

  ghost function AnchorDecision(c: Committee, v: Dag, slot: Slot, decisionRound: nat, anchor: BlockRef): LeaderStatus
    requires Walkable(v, slot.round) && anchor in v && slot.round <= decisionRound
  {
    if exists l :: CertifiedAt(c, v, slot, decisionRound, anchor, l) then
      var l :| CertifiedAt(c, v, slot, decisionRound, anchor, l);
      Commit(v[l])
    else Skip(slot)
  }

  lemma SupportedIsCommitted(c: Committee, v: Dag, slot: Slot, decisionRound: nat, leader: BlockRef)
    requires Walkable(v, slot.round) && AtMostOneSupported(c, v, slot, decisionRound)
    requires SupportedAt(c, v, slot, decisionRound, leader) && !Blamed(c, v, slot)
    ensures DirectDecision(c, v, slot, decisionRound) == Commit(v[leader])
  {
    hide Walkable, Supported, Blamed;
  }

  lemma CertifiedIsCommitted(c: Committee, v: Dag, slot: Slot, decisionRound: nat, anchor: BlockRef, leader: BlockRef)
    requires Walkable(v, slot.round) && anchor in v && slot.round <= decisionRound
    requires AtMostOneCertified(c, v, slot, decisionRound, anchor)
    requires CertifiedAt(c, v, slot, decisionRound, anchor, leader)
    ensures AnchorDecision(c, v, slot, decisionRound, anchor) == Commit(v[leader])
  {
    hide Walkable, Reaches, Certifies;
  }

  /** The first status at or past the end of the wave that is not a skip. */
  function FindAnchor(round: nat, later: seq<LeaderStatus>): Option<LeaderStatus> {
    if later == [] then None
    else if round <= later[0].Round() && !later[0].Skip? then Some(later[0])
    else FindAnchor(round, later[1..])
  }

  lemma FindAnchorCons(round: nat, first: LeaderStatus, later: seq<LeaderStatus>)
    ensures FindAnchor(round, [first] + later)
         == if round <= first.Round() && !first.Skip? then Some(first) else FindAnchor(round, later)
  {
    assert ([first] + later)[1..] == later;
  }

  /** Every block committed in `later` is in the DAG. */
  ghost predicate CommitsIn(v: Dag, later: seq<LeaderStatus>) {
    forall k | 0 <= k < |later| && later[k].Commit? ::
      later[k].block.ref in v && v[later[k].block.ref] == later[k].block
  }

  lemma {:induction false} AnchorIsInDag(v: Dag, round: nat, later: seq<LeaderStatus>)
    requires CommitsIn(v, later)
    ensures var a := FindAnchor(round, later);
            a.Some? && a.value.Commit? ==> a.value.block.ref in v && v[a.value.block.ref] == a.value.block
  {
    if later != [] && !(round <= later[0].Round() && !later[0].Skip?) {
      AnchorIsInDag(v, round, later[1..]);
    }
  }

  ghost function IndirectDecision(c: Committee, v: Dag, slot: Slot, decisionRound: nat, waveLength: nat,
                                  later: seq<LeaderStatus>): LeaderStatus
    requires Walkable(v, slot.round) && CommitsIn(v, later) && slot.round <= decisionRound
  {
    AnchorIsInDag(v, slot.round + waveLength, later);
    match FindAnchor(slot.round + waveLength, later)
    case Some(Commit(anchor)) => AnchorDecision(c, v, slot, decisionRound, anchor.ref)
    case _ => Undecided(slot)
  }
}
