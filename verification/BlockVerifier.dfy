/** Block verification (consensus/core/src/block_verifier.rs): a block passes exactly
    when it has the shape the rest of consensus relies on. Signature verification is
    a given verdict; transaction payloads are their sizes. */
module BlockVerifiers {
  import opened Committees
  import opened Blocks

  datatype Version = V1 | V2 | V3

  datatype TransactionVotes = TransactionVotes(target: BlockRef, rejects: seq<nat>)

  datatype SignedBlock = SignedBlock(
    epoch: nat, ref: BlockRef, version: Version, signatureVerifies: bool,
    ancestors: seq<BlockRef>, votesCutoffRound: nat, votes: seq<TransactionVotes>, transactionSizes: seq<nat>)
  {
    function Unsigned(): Block { Block(ref, ancestors) }
  }

  datatype Context = Context(
    committee: Committee, epoch: nat, enableV3: bool, genesis: set<BlockRef>, gcDepth: nat,
    maxTransactionSize: nat, maxNumTransactions: nat, maxTransactionBytes: nat)

  datatype Error =
    | WrongEpoch
    | UnexpectedGenesisBlock
    | UnexpectedBlockVersion
    | InvalidAuthorityIndex(author: nat)
    | SignatureInvalid
    | TooManyAncestors
    | InsufficientParentStakes(stakes: nat)
    | InvalidAncestorPosition(position: nat)
    | InvalidAncestorRound(round: nat)
    | InvalidGenesisAncestor(ancestor: BlockRef)
    | DuplicatedAncestorsAuthority(author: nat)
    | InvalidTransactionVotesCutoff
    | InvalidTransactionVotes
    | TransactionTooLarge
    | TooManyTransactions
    | TooManyTransactionBytes

  datatype Verdict = Pass | Err(error: Error)

  // ---------- What verification means ----------

  ghost predicate HeaderOk(ctx: Context, b: SignedBlock) {
    && b.epoch == ctx.epoch
    && b.ref.round != 0
    && (b.version == V3 <==> ctx.enableV3)
    && ctx.committee.IsValidIndex(b.ref.author)
    && b.signatureVerifies
  }

  ghost predicate AncestorsOk(ctx: Context, b: SignedBlock) {
    && (forall a | a in b.ancestors :: ctx.committee.IsValidIndex(a.author))
    && OwnAncestorFirst(b.Unsigned())
    && LowerRounds(b.Unsigned())
    && (forall a | a in b.ancestors && a.round == GENESIS_ROUND :: a in ctx.genesis)
    && DistinctAuthors(b.ancestors)
    && IsQuorum(ctx.committee, ParentAuthors(b.Unsigned()))
  }

  ghost predicate StrictlyIncreasing(s: seq<nat>) {
    forall i, j | 0 <= i < j < |s| :: s[i] < s[j]
  }

  function VoteTargetLimit(ctx: Context): nat {
    (if ctx.gcDepth >= 1 then ctx.gcDepth else 1) * ctx.committee.Size()
  }

  const U16_MAX: nat := 0xffff
  const NUM_RESERVED_TRANSACTION_INDICES: nat := 8

  function TransactionLimit(ctx: Context): nat {
    var representable := U16_MAX - NUM_RESERVED_TRANSACTION_INDICES;
    if ctx.maxNumTransactions <= representable then ctx.maxNumTransactions else representable
  }

  /** Rejected transactions are named by increasing indices below the limit. */
  ghost predicate VoteOk(ctx: Context, b: SignedBlock, v: TransactionVotes) {
    && b.votesCutoffRound < v.target.round < b.ref.round
    && ctx.committee.IsValidIndex(v.target.author)
    && v.rejects != []
    && StrictlyIncreasing(v.rejects)
    && forall x | x in v.rejects :: x < TransactionLimit(ctx)
  }

  ghost predicate VotesOk(ctx: Context, b: SignedBlock) {
    && |b.votes| <= VoteTargetLimit(ctx)
    && (forall i, j | 0 <= i < j < |b.votes| :: b.votes[i].target != b.votes[j].target)
    && forall v | v in b.votes :: VoteOk(ctx, b, v)
  }

  function Sum(s: seq<nat>): nat { if s == [] then 0 else Sum(s[..|s| - 1]) + s[|s| - 1] }

  /** A limit of zero means no limit. */
  ghost predicate TransactionsOk(ctx: Context, b: SignedBlock) {
    && (ctx.maxTransactionSize > 0 ==> forall t | t in b.transactionSizes :: t <= ctx.maxTransactionSize)
    && (ctx.maxNumTransactions > 0 ==> |b.transactionSizes| <= ctx.maxNumTransactions)
    && (ctx.maxTransactionBytes > 0 ==> Sum(b.transactionSizes) <= ctx.maxTransactionBytes)
  }

  ghost predicate IsValid(ctx: Context, b: SignedBlock) {
    && HeaderOk(ctx, b) && AncestorsOk(ctx, b)
    && (ctx.enableV3 ==> b.votesCutoffRound < b.ref.round && VotesOk(ctx, b))
    && TransactionsOk(ctx, b)
  }

  /** Each error names a fault that the block really has. */
  ghost predicate Justified(ctx: Context, b: SignedBlock, e: Error) {
    match e
    case WrongEpoch => b.epoch != ctx.epoch
    case UnexpectedGenesisBlock => b.ref.round == 0
    case UnexpectedBlockVersion => b.version == V3 <==> !ctx.enableV3
    case InvalidAuthorityIndex(x) =>
      && !ctx.committee.IsValidIndex(x)
      && (x == b.ref.author || (exists a :: a in b.ancestors && a.author == x)
          || exists v :: v in b.votes && v.target.author == x)
    case SignatureInvalid => !b.signatureVerifies
    case TooManyAncestors => |b.ancestors| > ctx.committee.Size()
    case InsufficientParentStakes(stakes) =>
      stakes == StakeOf(ctx.committee.stakes, ParentAuthors(b.Unsigned())) && !ctx.committee.ReachedQuorum(stakes)
    case InvalidAncestorPosition(i) =>
      i < |b.ancestors| && (b.ancestors[i].author == b.ref.author <==> i > 0)
    case InvalidAncestorRound(round) => exists a :: a in b.ancestors && a.round == round >= b.ref.round
    case InvalidGenesisAncestor(a) => a in b.ancestors && a.round == GENESIS_ROUND && a !in ctx.genesis
    case DuplicatedAncestorsAuthority(x) =>
      exists i, j :: 0 <= i < j < |b.ancestors| && b.ancestors[i].author == x == b.ancestors[j].author
    case InvalidTransactionVotesCutoff => b.votesCutoffRound >= b.ref.round
    case InvalidTransactionVotes => !VotesOk(ctx, b)
    case TransactionTooLarge => exists t :: t in b.transactionSizes && t > ctx.maxTransactionSize > 0
    case TooManyTransactions => |b.transactionSizes| > ctx.maxNumTransactions > 0
    case TooManyTransactionBytes => Sum(b.transactionSizes) > ctx.maxTransactionBytes > 0
  }

  // ---------- Ancestors ----------

  /** Authors among the first `i` ancestors that sit in the round below. */
  function ParentsUpTo(b: SignedBlock, i: nat): set<nat>
    requires i <= |b.ancestors|
  {
    ParentAuthors(Block(b.ref, b.ancestors[..i]))
  }

  /** One scan with a seen-table finds repeated authors and adds up the parent stake;
      the table makes the plain sum the stake of distinct authors. */
  method CheckAncestors(ctx: Context, b: SignedBlock) returns (r: Verdict)
    requires b.ref.round >= 1 && ctx.committee.quorumThreshold >= 1
    ensures r.Pass? <==> |b.ancestors| <= ctx.committee.Size() && AncestorsOk(ctx, b)
    ensures r.Err? ==> Justified(ctx, b, r.error)
  {
    hide ParentAuthors, StakeUpTo, StakeOf, VotesOk, Sum;
    var committee := ctx.committee;
    if |b.ancestors| > committee.Size() { return Err(TooManyAncestors); }
    if |b.ancestors| == 0 {
      NoParents(ctx, b);
      return Err(InsufficientParentStakes(0));
    }
    var seen := new bool[committee.Size()](_ => false);
    var parentStakes := 0;
    NoParents(ctx, b);
    for i := 0 to |b.ancestors|
      invariant forall k | 0 <= k < i :: AncestorOk(ctx, b, k)
      invariant forall x | 0 <= x < committee.Size() ::
                  seen[x] <==> exists k :: 0 <= k < i && b.ancestors[k].author == x
      invariant DistinctAuthors(b.ancestors[..i])
      invariant parentStakes == StakeOf(committee.stakes, ParentsUpTo(b, i))
    {
      var a := b.ancestors[i];
      if !committee.IsValidIndex(a.author) { return Err(InvalidAuthorityIndex(a.author)); }
      if (i == 0 && a.author != b.ref.author) || (i > 0 && a.author == b.ref.author) {
        return Err(InvalidAncestorPosition(i));
      }
      if a.round >= b.ref.round { return Err(InvalidAncestorRound(a.round)); }
      if a.round == GENESIS_ROUND && a !in ctx.genesis { return Err(InvalidGenesisAncestor(a)); }
      if seen[a.author] { return Err(DuplicatedAncestorsAuthority(a.author)); }
      seen[a.author] := true;
      ParentsStep(ctx, b, i);
      if a.round == b.ref.round - 1 { parentStakes := parentStakes + committee.Stake(a.author); }
    }
    assert b.ancestors[..|b.ancestors|] == b.ancestors;
    AllAncestorsOk(ctx, b);
    if !committee.ReachedQuorum(parentStakes) { return Err(InsufficientParentStakes(parentStakes)); }
    return Pass;
  }

  lemma NoParents(ctx: Context, b: SignedBlock)
    ensures StakeOf(ctx.committee.stakes, ParentsUpTo(b, 0)) == 0
  {
    StakeOfEmpty(ctx.committee.stakes, ParentsUpTo(b, 0), ctx.committee.Size());
  }

  ghost predicate AncestorOk(ctx: Context, b: SignedBlock, k: nat)
    requires k < |b.ancestors|
  {
    var a := b.ancestors[k];
    && ctx.committee.IsValidIndex(a.author)
    && (a.author == b.ref.author <==> k == 0)
    && a.round < b.ref.round
    && (a.round == GENESIS_ROUND ==> a in ctx.genesis)
  }

  lemma AllAncestorsOk(ctx: Context, b: SignedBlock)
    requires b.ancestors != [] && DistinctAuthors(b.ancestors)
    requires forall k | 0 <= k < |b.ancestors| :: AncestorOk(ctx, b, k)
    ensures AncestorsOk(ctx, b) <==> IsQuorum(ctx.committee, ParentAuthors(b.Unsigned()))
  {
    assert AncestorOk(ctx, b, 0);
    forall a | a in b.ancestors
      ensures ctx.committee.IsValidIndex(a.author) && a.round < b.ref.round
      ensures a.round == GENESIS_ROUND ==> a in ctx.genesis
    {
      var k :| 0 <= k < |b.ancestors| && b.ancestors[k] == a;
      assert AncestorOk(ctx, b, k);
    }
  }

  lemma ParentsStep(ctx: Context, b: SignedBlock, i: nat)
    requires i < |b.ancestors| && ctx.committee.IsValidIndex(b.ancestors[i].author)
    requires forall k | 0 <= k < i :: b.ancestors[k].author != b.ancestors[i].author
    ensures StakeOf(ctx.committee.stakes, ParentsUpTo(b, i + 1))
         == StakeOf(ctx.committee.stakes, ParentsUpTo(b, i))
            + if b.ancestors[i].round + 1 == b.ref.round then ctx.committee.Stake(b.ancestors[i].author) else 0
  {
    var a := b.ancestors[i];
    assert b.ancestors[..i + 1] == b.ancestors[..i] + [a];
    if a.round + 1 == b.ref.round {
      assert ParentsUpTo(b, i + 1) == ParentsUpTo(b, i) + {a.author};
      StakeOfInsert(ctx.committee.stakes, ParentsUpTo(b, i), a.author, ctx.committee.Size());
    } else {
      assert ParentsUpTo(b, i + 1) == ParentsUpTo(b, i);
    }
  }

  /** The length check loses nothing: distinct valid authors cannot outnumber the committee. */
  lemma DistinctAuthorsFit(ctx: Context, b: SignedBlock)
    requires AncestorsOk(ctx, b)
    ensures |b.ancestors| <= ctx.committee.Size()
  {
    var authors := seq(|b.ancestors|, i requires 0 <= i < |b.ancestors| => b.ancestors[i].author);
    forall i | 0 <= i < |authors| ensures authors[i] < ctx.committee.Size() {
      assert b.ancestors[i] in b.ancestors;
    }
    Pigeonhole(authors, ctx.committee.Size());
  }

  lemma {:induction false} Pigeonhole(s: seq<nat>, n: nat)
    requires forall i, j | 0 <= i < j < |s| :: s[i] != s[j]
    requires forall i | 0 <= i < |s| :: s[i] < n
    ensures |s| <= n
  {
    if s != [] {
      assert s[0] < n;
      if k :| 0 <= k < |s| && s[k] == n - 1 {
        Pigeonhole(s[..k] + s[k + 1..], n - 1);
      } else {
        Pigeonhole(s, n - 1);
      }
    }
  }

  // ---------- Transaction votes ----------

  lemma {:induction false} AdjacentIncreasing(s: seq<nat>, i: nat, j: nat)
    requires i < j < |s|
    requires forall k | 0 <= k < |s| - 1 :: s[k] < s[k + 1]
    ensures s[i] < s[j]
    decreases j - i
  {
    if i + 1 < j { AdjacentIncreasing(s, i + 1, j); }
  }

  /** Looking at neighbours and the last entry settles order and bound for all entries. */
  method CheckRejects(ctx: Context, v: TransactionVotes) returns (ok: bool)
    ensures ok <==> v.rejects != [] && StrictlyIncreasing(v.rejects)
                    && forall x | x in v.rejects :: x < TransactionLimit(ctx)
  {
    var limit := TransactionLimit(ctx);
    if v.rejects == [] { return false; }
    if |v.rejects| > limit {
      RejectsFit(v.rejects, limit);
      return false;
    }
    for k := 0 to |v.rejects| - 1
      invariant forall m | 0 <= m < k :: v.rejects[m] < v.rejects[m + 1]
    {
      if v.rejects[k] >= v.rejects[k + 1] { return false; }
    }
    forall i, j | 0 <= i < j < |v.rejects| ensures v.rejects[i] < v.rejects[j] {
      AdjacentIncreasing(v.rejects, i, j);
    }
    var last := v.rejects[|v.rejects| - 1];
    assert last in v.rejects;
    if last >= limit { return false; }
    return true;
  }

  /** So many increasing indices cannot all stay below the limit. */
  lemma {:induction false} RejectsFit(s: seq<nat>, limit: nat)
    requires |s| > limit
    ensures !(StrictlyIncreasing(s) && forall x | x in s :: x < limit)
  {
    assert s[limit] in s;
    if StrictlyIncreasing(s) { EntryAtLeastIndex(s, limit); }
  }

  lemma {:induction false} EntryAtLeastIndex(s: seq<nat>, i: nat)
    requires StrictlyIncreasing(s) && i < |s|
    ensures s[i] >= i
  {
    if i > 0 { EntryAtLeastIndex(s, i - 1); }
  }

  method CheckTransactionVotes(ctx: Context, b: SignedBlock) returns (r: Verdict)
    ensures r.Pass? <==> VotesOk(ctx, b)
    ensures r.Err? ==> Justified(ctx, b, r.error)
  {
    if b.votes == [] { return Pass; }
    if |b.votes| > VoteTargetLimit(ctx) { return Err(InvalidTransactionVotes); }
    var targets: set<BlockRef> := {};
    for i := 0 to |b.votes|
      invariant targets == set k | 0 <= k < i :: b.votes[k].target
      invariant forall j, k | 0 <= j < k < i :: b.votes[j].target != b.votes[k].target
      invariant forall k | 0 <= k < i :: VoteOk(ctx, b, b.votes[k])
    {
      var v := b.votes[i];
      assert v in b.votes;
      if v.target in targets { return Err(InvalidTransactionVotes); }
      targets := targets + {v.target};
      if v.target.round >= b.ref.round { return Err(InvalidTransactionVotes); }
      if v.target.round <= b.votesCutoffRound { return Err(InvalidTransactionVotes); }
      if !ctx.committee.IsValidIndex(v.target.author) { return Err(InvalidAuthorityIndex(v.target.author)); }
      var ok := CheckRejects(ctx, v);
      if !ok { return Err(InvalidTransactionVotes); }
    }
    return Pass;
  }

  method CheckTransactions(ctx: Context, b: SignedBlock) returns (r: Verdict)
    ensures r.Pass? <==> TransactionsOk(ctx, b)
    ensures r.Err? ==> Justified(ctx, b, r.error)
  {
    var batch := b.transactionSizes;
    for i := 0 to |batch|
      invariant ctx.maxTransactionSize > 0 ==> forall k | 0 <= k < i :: batch[k] <= ctx.maxTransactionSize
    {
      assert batch[i] in batch;
      if batch[i] > ctx.maxTransactionSize && ctx.maxTransactionSize > 0 { return Err(TransactionTooLarge); }
    }
    if |batch| > ctx.maxNumTransactions && ctx.maxNumTransactions > 0 { return Err(TooManyTransactions); }
    if Sum(batch) > ctx.maxTransactionBytes && ctx.maxTransactionBytes > 0 { return Err(TooManyTransactionBytes); }
    return Pass;
  }

  // ---------- The whole check ----------

  method VerifyBlock(ctx: Context, b: SignedBlock) returns (r: Verdict)
    requires ctx.committee.quorumThreshold >= 1
    ensures r.Pass? <==> IsValid(ctx, b)
    ensures r.Err? ==> Justified(ctx, b, r.error)
  {
    hide AncestorsOk, VotesOk, TransactionsOk;
    if b.epoch != ctx.epoch { return Err(WrongEpoch); }
    if b.ref.round == 0 { return Err(UnexpectedGenesisBlock); }
    var versionMatches := match b.version case V1 => !ctx.enableV3 case V2 => !ctx.enableV3 case V3 => ctx.enableV3;
    if !versionMatches { return Err(UnexpectedBlockVersion); }
    if !ctx.committee.IsValidIndex(b.ref.author) { return Err(InvalidAuthorityIndex(b.ref.author)); }
    if !b.signatureVerifies { return Err(SignatureInvalid); }
    r := CheckAncestors(ctx, b);
    if r.Err? {
      if AncestorsOk(ctx, b) { DistinctAuthorsFit(ctx, b); }
      return;
    }
    if ctx.enableV3 {
      if b.votesCutoffRound >= b.ref.round { return Err(InvalidTransactionVotesCutoff); }
      r := CheckTransactionVotes(ctx, b);
      if r.Err? { return; }
    }
    r := CheckTransactions(ctx, b);
  }

  /** What the committer and the block manager take from a verified block. */
  lemma VerifiedIsWellFormed(ctx: Context, b: SignedBlock)
    requires IsValid(ctx, b)
    ensures WellFormed(ctx.committee, b.Unsigned())
    ensures forall a | a in b.ancestors && a.round == GENESIS_ROUND :: a in ctx.genesis
  {}

  /** Verification in plain terms, shape of the ancestors apart: the header, the genesis blocks, the
      votes of a version 3 block with their limits, and the transactions. */
  lemma ValidIff(ctx: Context, b: SignedBlock)
    ensures IsValid(ctx, b) <==>
      && b.epoch == ctx.epoch && (b.version == V3 <==> ctx.enableV3) && b.signatureVerifies
      && WellFormed(ctx.committee, b.Unsigned())
      && (forall a | a in b.ancestors && a.round == 0 :: a in ctx.genesis)
      && (ctx.enableV3 ==>
            && b.votesCutoffRound < b.ref.round
            && |b.votes| <= (if ctx.gcDepth == 0 then 1 else ctx.gcDepth) * |ctx.committee.stakes|
            && (forall i, j | 0 <= i < j < |b.votes| :: b.votes[i].target != b.votes[j].target)
            && (forall v | v in b.votes ::
                  && b.votesCutoffRound < v.target.round < b.ref.round && v.target.author < |ctx.committee.stakes|
                  && v.rejects != [] && forall i, j | 0 <= i < j < |v.rejects| :: v.rejects[i] < v.rejects[j])
            && (forall v, x | v in b.votes && x in v.rejects :: x < ctx.maxNumTransactions && x < 65527))
      && (forall t | t in b.transactionSizes :: ctx.maxTransactionSize == 0 || t <= ctx.maxTransactionSize)
      && (ctx.maxNumTransactions == 0 || |b.transactionSizes| <= ctx.maxNumTransactions)
      && (ctx.maxTransactionBytes == 0 || Sum(b.transactionSizes) <= ctx.maxTransactionBytes)
  {}

  lemma {:induction false} SumAppend(s: seq<nat>, t: seq<nat>)
    ensures Sum(s + t) == Sum(s) + Sum(t) && forall x: nat :: Sum([x]) == x
  {
    assert forall x: nat :: Sum([x]) == Sum([x][..0]) + x;
    if t == [] {
      assert s + t == s;
    } else {
      var n := |t| - 1;
      assert (s + t)[..|s + t| - 1] == s + t[..n];
      SumAppend(s, t[..n]);
    }
  }
}
