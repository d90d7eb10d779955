/** Replay of stored commits after a restart: the recovery loop
    (consensus/core/src/commit_observer.rs) sends the history in batches and, in full-replay
    mode, waits between batches for the consumer's acknowledgements
    (consensus/core/src/commit_consumer.rs). */
module CommitReplay {
  import opened Blocks

  const COMMIT_RECOVERY_BATCH_SIZE: nat := 250

  function Min(a: nat, b: nat): nat { if a <= b then a else b }

  /** The indices lo, lo + 1, ..., hi. */
  function Range(lo: nat, hi: nat): (r: seq<nat>)
    requires lo <= hi + 1
    ensures |r| == hi + 1 - lo && forall k | 0 <= k < |r| :: r[k] == lo + k
  {
    seq(hi + 1 - lo, k requires 0 <= k < hi + 1 - lo => lo + k)
  }

  // ---------- The protocol as a state machine ----------

  /** Commits after `after` up to `last` are replayed; those up to `target` are paced. */
  datatype Config = Config(after: nat, last: nat, paced: bool, target: nat)
  {
    predicate Valid() { after <= last && target <= last }
  }

  datatype Phase = Sending | Waiting | Done

  datatype Replay = Replay(log: seq<nat>, batchStart: nat, batchEnd: nat, phase: Phase, handled: nat)
  {
    function Sent(c: Config): nat { c.after + |log| }
  }

  function BatchEnd(c: Config, start: nat): nat { Min(start + COMMIT_RECOVERY_BATCH_SIZE, c.last) }

  function Init(c: Config): Replay {
    Replay([], c.after, BatchEnd(c, c.after), if c.after == c.last then Done else Sending, c.after)
  }

  /** The next commit goes to the finalizer. */
  predicate Send(c: Config, s: Replay, t: Replay) {
    s.phase.Sending? && s.Sent(c) < s.batchEnd && t == s.(log := s.log + [s.Sent(c) + 1])
  }

  predicate EndBatch(c: Config, s: Replay, t: Replay) {
    s.phase.Sending? && s.Sent(c) == s.batchEnd && t == s.(phase := Waiting)
  }

  function AwaitedIndex(c: Config, s: Replay): nat { Min(s.batchEnd, c.target) }

  predicate WaitIsOver(c: Config, s: Replay) { c.paced ==> s.handled >= AwaitedIndex(c, s) }

  predicate NextBatch(c: Config, s: Replay, t: Replay) {
    && s.phase.Waiting? && WaitIsOver(c, s)
    && t == if s.batchEnd == c.last then s.(phase := Done)
            else s.(phase := Sending, batchStart := s.batchEnd, batchEnd := BatchEnd(c, s.batchEnd))
  }

  /** The consumer acknowledges something it was sent. */
  predicate Ack(c: Config, s: Replay, t: Replay) {
    s.handled < t.handled <= s.Sent(c) && t == s.(handled := t.handled)
  }

  predicate Step(c: Config, s: Replay, t: Replay) {
    Send(c, s, t) || EndBatch(c, s, t) || NextBatch(c, s, t) || Ack(c, s, t)
  }

  /** Any interleaving of the recovery loop and the consumer. */
  ghost predicate IsTrace(c: Config, trace: seq<Replay>)
    ensures IsTrace(c, trace) ==> trace != []
  {
    && c.Valid() && trace != [] && trace[0] == Init(c)
    && forall k | 0 <= k < |trace| - 1 :: Step(c, trace[k], trace[k + 1])
  }

  function Last(trace: seq<Replay>): Replay
    requires trace != []
  {
    trace[|trace| - 1]
  }

  lemma TraceExtends(c: Config, trace: seq<Replay>, t: Replay)
    requires IsTrace(c, trace) && Step(c, Last(trace), t)
    ensures IsTrace(c, trace + [t]) && Last(trace + [t]) == t
  {
    hide Step;
    var longer := trace + [t];
    forall k | 0 <= k < |longer| - 1 ensures Step(c, longer[k], longer[k + 1]) {
      if k < |trace| - 1 { assert longer[k] == trace[k] && longer[k + 1] == trace[k + 1]; }
    }
  }

  // ---------- What every state keeps ----------

  ghost predicate Inv(c: Config, s: Replay) {
    && c.Valid()
    && c.after <= s.batchStart <= s.Sent(c) <= s.batchEnd <= c.last
    && s.batchEnd == BatchEnd(c, s.batchStart)
    && s.log == Range(c.after + 1, s.Sent(c))
    && c.after <= s.handled <= s.Sent(c)
    && (c.paced ==> s.handled >= Min(s.batchStart, c.target))
    && (s.phase.Done? ==> s.Sent(c) == c.last && WaitIsOver(c, s))
    && (!s.phase.Sending? ==> s.Sent(c) == s.batchEnd)
    && (s.phase.Sending? ==> s.batchStart < c.last)
  }

  lemma StepKeepsInv(c: Config, s: Replay, t: Replay)
    requires Inv(c, s) && Step(c, s, t)
    ensures Inv(c, t)
  {
    if Send(c, s, t) { assert t.log == Range(c.after + 1, t.Sent(c)); }
  }

  lemma {:induction false} TraceKeepsInv(c: Config, trace: seq<Replay>, k: nat)
    requires IsTrace(c, trace) && k < |trace|
    ensures Inv(c, trace[k])
  {
    if k == 0 {
      assert trace[0].log == Range(c.after + 1, c.after);
    } else {
      TraceKeepsInv(c, trace, k - 1);
      assert Step(c, trace[k - 1], trace[k]);
      StepKeepsInv(c, trace[k - 1], trace[k]);
    }
  }

  /** Sent commits at or below the target that the consumer has not handled. */
  function Outstanding(c: Config, s: Replay): nat {
    var upTo := Min(s.Sent(c), c.target);
    if upTo <= s.handled then 0 else upTo - s.handled
  }

  /** In full-replay mode no more than one batch of paced commits is ever outstanding;
      in every mode the log is the history, in order and without repetition. */
  lemma PacingBoundsQueue(c: Config, trace: seq<Replay>, k: nat)
    requires IsTrace(c, trace) && k < |trace|
    ensures c.paced ==> Outstanding(c, trace[k]) <= COMMIT_RECOVERY_BATCH_SIZE
    ensures trace[k].log == Range(c.after + 1, trace[k].Sent(c)) && trace[k].Sent(c) <= c.last
  {
    TraceKeepsInv(c, trace, k);
  }

  /** Recovery waits only for commits that were sent and are at or below the target. */
  lemma WaitsOnlyForSent(c: Config, trace: seq<Replay>, k: nat)
    requires IsTrace(c, trace) && k < |trace| && trace[k].phase.Waiting?
    ensures AwaitedIndex(c, trace[k]) <= trace[k].Sent(c) && AwaitedIndex(c, trace[k]) <= c.target
  {
    TraceKeepsInv(c, trace, k);
  }

  // ---------- Progress ----------

  /** Once the consumer handled all it was sent, recovery can go on: no deadlock. */
  lemma RecoveryIsNotStuck(c: Config, s: Replay) returns (t: Replay)
    requires Inv(c, s) && !s.phase.Done? && s.handled == s.Sent(c)
    ensures Step(c, s, t)
  {
    match s.phase
    case Sending =>
      t := if s.Sent(c) < s.batchEnd then s.(log := s.log + [s.Sent(c) + 1]) else s.(phase := Waiting);
    case Waiting =>
      t := if s.batchEnd == c.last then s.(phase := Done)
           else s.(phase := Sending, batchStart := s.batchEnd, batchEnd := BatchEnd(c, s.batchEnd));
  }

  function Rank(p: Phase): nat {
    match p case Sending => 2 case Waiting => 1 case Done => 0
  }

  /** An upper bound on the steps that are left. */
  ghost function Remaining(c: Config, s: Replay): nat
    requires Inv(c, s)
  {
    2 * (c.last - s.Sent(c)) + (c.last - s.handled) + 2 * (c.last - s.batchEnd) + Rank(s.phase)
  }

  lemma StepUsesUp(c: Config, s: Replay, t: Replay)
    requires Inv(c, s) && Inv(c, t) && Step(c, s, t)
    ensures Remaining(c, t) < Remaining(c, s)
  {
    hide Range;
  }

  /** No run is longer than its start allows. */
  lemma {:induction false} RunsAreBounded(c: Config, trace: seq<Replay>, k: nat)
    requires IsTrace(c, trace) && k < |trace|
    ensures Inv(c, trace[0]) && Inv(c, trace[k]) && k + Remaining(c, trace[k]) <= Remaining(c, trace[0])
  {
    hide Inv, Step, Remaining;
    TraceKeepsInv(c, trace, 0);
    TraceKeepsInv(c, trace, k);
    if k > 0 {
      RunsAreBounded(c, trace, k - 1);
      StepUsesUp(c, trace[k - 1], trace[k]);
    }
  }

  /** A run that cannot go on has sent everything, and the paced part is handled. */
  lemma MaximalRunsFinish(c: Config, trace: seq<Replay>)
    requires IsTrace(c, trace) && forall t :: !Step(c, Last(trace), t)
    ensures Last(trace).phase.Done? && Last(trace).log == Range(c.after + 1, c.last)
    ensures c.paced ==> Last(trace).handled >= c.target
  {
    var s := Last(trace);
    TraceKeepsInv(c, trace, |trace| - 1);
    if s.handled < s.Sent(c) {
      assert Step(c, s, s.(handled := s.Sent(c)));
    } else if !s.phase.Done? {
      var t := RecoveryIsNotStuck(c, s);
    }
  }

  // ---------- The monitor ----------

  datatype CommitProgress = CommitProgress(index: nat, round: nat)

  datatype ReplayMode = FromWatermark(replayAfter: nat, lastProcessed: nat) | FullEpochPaced

  function After(mode: ReplayMode): nat {
    match mode case FromWatermark(after, _) => after case FullEpochPaced => 0
  }

  class CommitConsumerMonitor {
    var replayTarget: Option<nat>
    var committed: CommitProgress
    var handled: nat

    constructor (mode: ReplayMode)
      ensures mode.FromWatermark? ==> replayTarget == Some(mode.lastProcessed) && handled == mode.replayAfter
      ensures mode.FullEpochPaced? ==> replayTarget == None && handled == 0
      ensures handled == After(mode) && committed == CommitProgress(0, 0)
    {
      replayTarget := match mode case FromWatermark(_, last) => Some(last) case FullEpochPaced => None;
      committed := CommitProgress(0, 0);
      handled := After(mode);
    }

    /** Fails, by a panic in the source, if the target was set before. */
    method SetReplayTarget(target: nat) returns (ok: bool)
      modifies this`replayTarget
      ensures ok <==> old(replayTarget) == None
      ensures replayTarget == if ok then Some(target) else old(replayTarget)
    {
      if replayTarget != None { return false; }
      replayTarget := Some(target);
      return true;
    }

    /** The committed head only moves up. */
    method ReportCommitted(index: nat, round: nat)
      modifies this`committed
      ensures committed == if index <= old(committed).index then old(committed) else CommitProgress(index, round)
      ensures committed.index >= index && committed.index >= old(committed).index
    {
      if index <= committed.index { return; }
      committed := CommitProgress(index, round);
    }

    method SetHighestHandledCommit(index: nat)
      modifies this`handled
      ensures handled == index
    {
      handled := index;
    }
  }

  // ---------- Recovery ----------

  /** At most one commit per index; a commit is finalized if its rejected transactions,
      possibly none, were stored. */
  datatype Store = Store(leaderRounds: map<nat, nat>, head: nat, finalized: set<nat>, finalizedHead: nat)
  {
    /** Heads are the greatest indices, zero if there is none. */
    ghost predicate Valid() {
      && (forall i | i in leaderRounds :: 1 <= i <= head) && (head == 0 || head in leaderRounds)
      && (forall i | i in finalized :: 1 <= i <= finalizedHead) && (finalizedHead == 0 || finalizedHead in finalized)
    }
  }

  datatype Outcome = Completed | Panicked(reason: PanicReason)

  datatype PanicReason = TargetAboveHead | TargetSetTwice | NoHistory | AfterAboveHead | Gap | MissingRejected
    | FinalizedAfterUnfinalized

  function Target(store: Store, mode: ReplayMode, voting: bool): nat {
    if mode.FromWatermark? then 0 else if voting then store.finalizedHead else store.head
  }

  function ConfigOf(store: Store, mode: ReplayMode, voting: bool): Config {
    Config(After(mode), store.head, mode.FullEpochPaced?, Target(store, mode, voting))
  }

  ghost predicate MustBeFinalized(mode: ReplayMode, voting: bool, target: nat, i: nat) {
    mode.FullEpochPaced? && voting && i <= target
  }

  /** No gap, the paced part is finalized, and the finalized commits come first. */
  ghost predicate GoodHistory(store: Store, mode: ReplayMode, voting: bool, lo: nat, hi: nat) {
    && (forall i | lo < i <= hi :: i in store.leaderRounds)
    && (forall i | lo < i <= hi && MustBeFinalized(mode, voting, Target(store, mode, voting), i) ::
      i in store.finalized)
    && (forall i, j | lo < i < j <= hi && i !in store.finalized :: j !in store.finalized)
  }

  /** When recovery does not panic. */
  ghost predicate Replayable(store: Store, mode: ReplayMode, voting: bool, target: Option<nat>) {
    && (mode.FullEpochPaced? ==> Target(store, mode, voting) <= store.head && target == None)
    && After(mode) <= store.head
    && GoodHistory(store, mode, voting, After(mode), store.head)
  }

  /** The commits in a range whose blocks must be voted on again. */
  function Unfinalized(store: Store, lo: nat, hi: nat): seq<nat>
    decreases hi - lo
  {
    if hi <= lo then [] else Unfinalized(store, lo, hi - 1) + if hi in store.finalized then [] else [hi]
  }

  /** No commit after `after` is missing, and none is finalized after one that is not. */
  ghost predicate InSequence(store: Store, after: nat) {
    && (forall i | after < i <= store.head :: i in store.leaderRounds)
    && forall i, j | after < i < j <= store.head && i !in store.finalized :: j !in store.finalized
  }

  /** Exactly the commits after `after` that are not finalized, in order. */
  ghost predicate IsUnfinalizedAfter(store: Store, after: nat, commits: seq<nat>) {
    && (forall i :: i in commits <==> after < i <= store.head && i !in store.finalized)
    && forall j, k | 0 <= j < k < |commits| :: commits[j] < commits[k]
  }

  lemma ReplayableIff(store: Store, mode: ReplayMode, voting: bool, target: Option<nat>)
    requires store.Valid()
    ensures mode.FromWatermark? ==>
      (Replayable(store, mode, voting, target) <==>
         mode.replayAfter <= store.head && InSequence(store, mode.replayAfter))
    ensures mode.FullEpochPaced? ==>
      (Replayable(store, mode, voting, target) <==>
         && (if voting then store.finalizedHead else store.head) <= store.head && target == None && InSequence(store, 0)
         && (voting ==> forall i | 1 <= i <= store.finalizedHead :: i in store.finalized))
  {}

  lemma {:induction false} UnfinalizedIs(store: Store, lo: nat, hi: nat)
    ensures var commits := Unfinalized(store, lo, hi);
      && (forall i :: i in commits <==> lo < i <= hi && i !in store.finalized)
      && forall j, k | 0 <= j < k < |commits| :: commits[j] < commits[k]
    decreases hi - lo
  {
    if hi > lo {
      UnfinalizedIs(store, lo, hi - 1);
      var shorter := Unfinalized(store, lo, hi - 1);
      assert forall j | 0 <= j < |shorter| :: shorter[j] in shorter;
    }
  }

  lemma UnfinalizedAfter(store: Store, after: nat)
    ensures IsUnfinalizedAfter(store, after, Unfinalized(store, after, store.head))
  {
    UnfinalizedIs(store, after, store.head);
  }

  lemma OneMoreUnfinalized(store: Store, after: nat, index: nat)
    requires after < index
    ensures Unfinalized(store, after, index)
      == if index in store.finalized then Unfinalized(store, after, index - 1)
         else Unfinalized(store, after, index - 1) + [index]
    ensures (exists i :: after < i <= index && i !in store.finalized)
      <==> index !in store.finalized || exists i :: after < i < index && i !in store.finalized
  {}

  class CommitObserver {
    const monitor: CommitConsumerMonitor
    /** What went to the commit finalizer, by index. */
    var log: seq<nat>
    /** The commits whose blocks were recovered for voting. */
    var revoted: seq<nat>
    /** For each commit that went out, what the consumer had acknowledged by then. */
    ghost var acknowledged: seq<nat>

    constructor (m: CommitConsumerMonitor)
      ensures monitor == m && log == [] && revoted == [] && acknowledged == []
    {
      monitor, log, revoted, acknowledged := m, [], [], [];
    }

    method ScanCommits(store: Store, lo: nat, hi: nat) returns (found: seq<nat>)
      requires lo <= hi + 1
      ensures |found| == hi + 1 - lo <==> forall i | lo <= i <= hi :: i in store.leaderRounds
      ensures |found| == hi + 1 - lo ==> found == Range(lo, hi)
    {
      found := [];
      var i := lo;
      while i <= hi
        invariant lo <= i <= hi + 1 && |found| <= i - lo
        invariant |found| == i - lo ==> forall k | 0 <= k < |found| :: found[k] == lo + k
        invariant |found| == i - lo ==> forall j | lo <= j < i :: j in store.leaderRounds
        invariant |found| < i - lo ==> exists j :: lo <= j < i && j !in store.leaderRounds
      {
        if i in store.leaderRounds { found := found + [i]; }
        i := i + 1;
      }
    }

    /** In full-replay mode a paced commit goes out only when all but a batch of those before
        it, counting itself, are acknowledged. */
    ghost predicate Paced(c: Config)
      reads this
    {
      && |acknowledged| == |log|
      && (c.paced ==> forall k | 0 <= k < |log| ::
            Min(log[k], c.target) <= acknowledged[k] + COMMIT_RECOVERY_BATCH_SIZE)
    }

    /** The state of the protocol that the fields stand for. */
    ghost predicate At(c: Config, trace: seq<Replay>, start: nat, end: nat, phase: Phase)
      reads this, monitor
    {
      IsTrace(c, trace) && Last(trace) == Replay(log, start, end, phase, monitor.handled)
    }

    /** By now the consumer may have handled any part of what it was sent. */
    method Interfere(c: Config, ghost start: nat, ghost end: nat, ghost phase: Phase, ghost trace: seq<Replay>)
      returns (ghost trace': seq<Replay>)
      requires At(c, trace, start, end, phase)
      modifies monitor`handled
      ensures At(c, trace', start, end, phase) && monitor.handled >= old(monitor.handled) && trace <= trace'
    {
      hide IsTrace;
      TraceKeepsInv(c, trace, |trace| - 1);
      var h: nat :| monitor.handled <= h <= c.after + |log|;
      trace' := trace;
      if h > monitor.handled {
        ghost var t := Last(trace).(handled := h);
        assert Ack(c, Last(trace), t);
        TraceExtends(c, trace, t);
        trace' := trace + [t];
      }
      monitor.SetHighestHandledCommit(h);
    }

    /** Waits while the consumer keeps acknowledging what it was sent. */
    method WaitForHandled(c: Config, target: nat, ghost start: nat, ghost end: nat, ghost trace: seq<Replay>)
      returns (ghost trace': seq<Replay>)
      requires At(c, trace, start, end, Waiting) && target <= c.after + |log|
      modifies monitor`handled
      ensures At(c, trace', start, end, Waiting) && monitor.handled >= target && trace <= trace'
    {
      hide IsTrace;
      trace' := trace;
      while monitor.handled < target
        invariant At(c, trace', start, end, Waiting) && trace <= trace'
        decreases c.after + |log| - monitor.handled
      {
        var h: nat :| monitor.handled < h <= c.after + |log|;
        ghost var t := Last(trace').(handled := h);
        assert Ack(c, Last(trace'), t);
        TraceExtends(c, trace', t);
        trace' := trace' + [t];
        monitor.SetHighestHandledCommit(h);
      }
    }

    /** Sends one sub-dag, and lets the consumer catch up. */
    method SendSubDag(c: Config, index: nat, ghost start: nat, ghost end: nat, ghost trace: seq<Replay>)
      returns (ghost trace': seq<Replay>)
      requires At(c, trace, start, end, Sending) && index == c.after + |log| + 1 <= end && Paced(c)
      modifies `log, `acknowledged, monitor`handled
      ensures At(c, trace', start, end, Sending) && trace <= trace' && Paced(c)
      ensures log == old(log) + [index] && acknowledged == old(acknowledged) + [old(monitor.handled)]
    {
      hide IsTrace;
      ghost var t := Last(trace).(log := log + [index]);
      assert Send(c, Last(trace), t);
      TraceExtends(c, trace, t);
      trace' := trace + [t];
      TraceKeepsInv(c, trace', |trace|);
      log, acknowledged := log + [index], acknowledged + [monitor.handled];
      trace' := Interfere(c, start, end, Sending, trace');
    }

    /** One commit: it is sent unless finalization metadata is out of order. */
    method SendCommit(store: Store, mode: ReplayMode, voting: bool, c: Config, index: nat, seenUnfinalized: bool,
                      ghost start: nat, ghost end: nat, ghost trace: seq<Replay>)
      returns (err: Option<PanicReason>, seen: bool, ghost trace': seq<Replay>)
      requires At(c, trace, start, end, Sending) && index == c.after + |log| + 1 <= end
      requires c.target == Target(store, mode, voting) && index in store.leaderRounds
      requires GoodHistory(store, mode, voting, c.after, index - 1)
      requires seenUnfinalized <==> exists i :: c.after < i < index && i !in store.finalized
      requires revoted == Unfinalized(store, c.after, index - 1) && Paced(c)
      modifies this, monitor`handled
      ensures err == None <==> GoodHistory(store, mode, voting, c.after, index)
      ensures err == None ==>
        && At(c, trace', start, end, Sending) && log == old(log) + [index]
        && revoted == Unfinalized(store, c.after, index)
        && acknowledged == old(acknowledged) + [old(monitor.handled)]
        && (seen <==> exists i :: c.after < i <= index && i !in store.finalized)
      ensures err != None ==> log == old(log)
      ensures trace <= trace' && Paced(c)
    {
      hide IsTrace, GoodHistory, Unfinalized, Target;
      err, seen, trace' := None, seenUnfinalized, trace;
      OneMoreUnfinalized(store, c.after, index);
      GoodMore(store, mode, voting, c.after, index);
      var recovered := index in store.finalized;
      if mode.FullEpochPaced? && voting && index <= c.target && !recovered {
        return Some(MissingRejected), seen, trace';
      }
      if !recovered && !seen { seen := true; }
      if seen {
        if recovered { return Some(FinalizedAfterUnfinalized), seen, trace'; }
        revoted := revoted + [index];
      }
      trace' := SendSubDag(c, index, start, end, trace);
    }

    /** The commits of one batch. */
    method SendBatch(store: Store, mode: ReplayMode, voting: bool, c: Config, found: seq<nat>, seenUnfinalized: bool,
                     ghost start: nat, end: nat, ghost trace: seq<Replay>)
      returns (err: Option<PanicReason>, seen: bool, ghost trace': seq<Replay>)
      requires At(c, trace, start, end, Sending) && c.after + |log| == start <= end && found == Range(start + 1, end)
      requires c.target == Target(store, mode, voting) && forall i | i in found :: i in store.leaderRounds
      requires GoodHistory(store, mode, voting, c.after, start)
      requires seenUnfinalized <==> exists i :: c.after < i <= start && i !in store.finalized
      requires revoted == Unfinalized(store, c.after, start) && log == Range(c.after + 1, start) && Paced(c)
      modifies this, monitor`handled
      ensures err == None <==> GoodHistory(store, mode, voting, c.after, end)
      ensures err == None ==>
        && At(c, trace', start, end, Sending) && log == Range(c.after + 1, end)
        && revoted == Unfinalized(store, c.after, end)
        && (seen <==> exists i :: c.after < i <= end && i !in store.finalized)
      ensures |log| <= end - c.after && log == Range(c.after + 1, c.after + |log|)
      ensures trace <= trace' && Paced(c)
    {
      hide IsTrace, GoodHistory, Unfinalized;
      err, seen, trace' := None, seenUnfinalized, trace;
      for k := 0 to |found|
        invariant err == None && At(c, trace', start, end, Sending) && log == Range(c.after + 1, start + k)
        invariant trace <= trace' && Paced(c)
        invariant GoodHistory(store, mode, voting, c.after, start + k)
        invariant revoted == Unfinalized(store, c.after, start + k)
        invariant seen <==> exists i :: c.after < i <= start + k && i !in store.finalized
      {
        // The index of the source is continuous.
        assert found[k] == c.after + |log| + 1;
        assert found[k] in found;
        err, seen, trace' := SendCommit(store, mode, voting, c, found[k], seen, start, end, trace');
        if err != None {
          GoodPrefix(store, mode, voting, c.after, found[k], end);
          return;
        }
      }
    }

    /** The replay as a run of the protocol for this request. */
    method ReplayHistory(store: Store, mode: ReplayMode, voting: bool)
      returns (outcome: Outcome, ghost trace: seq<Replay>)
      requires store.Valid() && log == [] && revoted == [] && acknowledged == [] && monitor.handled == After(mode)
      modifies this, monitor
      ensures outcome.Completed? <==> Replayable(store, mode, voting, old(monitor.replayTarget))
      ensures outcome.Completed? ==>
        && log == Range(After(mode) + 1, store.head) && revoted == Unfinalized(store, After(mode), store.head)
        && IsTrace(ConfigOf(store, mode, voting), trace) && Last(trace).phase.Done?
        && Last(trace).log == log && Last(trace).handled == monitor.handled
        && monitor.committed.index >= store.head
        && (mode.FullEpochPaced? ==> monitor.handled >= Target(store, mode, voting))
        && (mode.FullEpochPaced? ==> monitor.replayTarget == Some(Target(store, mode, voting)))
      ensures log == Range(After(mode) + 1, After(mode) + |log|) && Paced(ConfigOf(store, mode, voting))
    {
      hide IsTrace, GoodHistory, Unfinalized;
      trace := [];
      var after, last := After(mode), store.head;
      if last > 0 { monitor.ReportCommitted(last, store.leaderRounds[last]); }
      var target := 0;
      if mode.FullEpochPaced? {
        target := Target(store, mode, voting);
        if target > last { return Panicked(TargetAboveHead), trace; }
        var ok := monitor.SetReplayTarget(target);
        if !ok { return Panicked(TargetSetTwice), trace; }
      }
      if last == 0 && after != 0 { return Panicked(NoHistory), trace; }
      if last < after { return Panicked(AfterAboveHead), trace; }
      var c := ConfigOf(store, mode, voting);
      trace := [Init(c)];
      StartsWell(store, mode, voting, after);
      assert IsTrace(c, trace) by { OneState(c); }
      if last == after { return Completed, trace; }
      var err;
      err, trace := SendHistory(store, mode, voting, c, trace);
      return if err == None then Completed else Panicked(err.value), trace;
    }

    /** Replays the stored history. It panics exactly if the store or the request is
        inconsistent; otherwise it sends every commit once, in order. */
    method RecoverAndSendCommits(store: Store, mode: ReplayMode, voting: bool)
      returns (outcome: Outcome, ghost trace: seq<Replay>)
      requires store.Valid() && log == [] && revoted == [] && acknowledged == [] && monitor.handled == After(mode)
      modifies this, monitor
      ensures outcome.Completed? ==>
        && IsTrace(ConfigOf(store, mode, voting), trace) && Last(trace).phase.Done?
        && Last(trace).log == log && Last(trace).handled == monitor.handled && monitor.committed.index >= store.head
      ensures mode.FromWatermark? ==>
        && (outcome.Completed? <==> mode.replayAfter <= store.head && InSequence(store, mode.replayAfter))
        && log == Range(mode.replayAfter + 1, if outcome.Completed? then store.head else mode.replayAfter + |log|)
        && (outcome.Completed? ==> IsUnfinalizedAfter(store, mode.replayAfter, revoted))
      ensures mode.FullEpochPaced? ==>
        var target := if voting then store.finalizedHead else store.head;
        && (outcome.Completed? <==>
              && target <= store.head && old(monitor.replayTarget) == None && InSequence(store, 0)
              && (voting ==> forall i | 1 <= i <= store.finalizedHead :: i in store.finalized))
        && log == Range(1, if outcome.Completed? then store.head else |log|)
        && (outcome.Completed? ==>
              && IsUnfinalizedAfter(store, 0, revoted) && monitor.handled >= target
              && monitor.replayTarget == Some(target))
        && |acknowledged| == |log|
        && forall k | 0 <= k < |log| && k < target :: log[k] <= acknowledged[k] + 250
    {
      hide IsTrace, GoodHistory, Unfinalized, InSequence, IsUnfinalizedAfter, Replayable;
      ReplayableIff(store, mode, voting, monitor.replayTarget);
      UnfinalizedAfter(store, After(mode));
      outcome, trace := ReplayHistory(store, mode, voting);
    }

    /** All batches, in order. */
    method SendHistory(store: Store, mode: ReplayMode, voting: bool, c: Config, ghost trace: seq<Replay>)
      returns (err: Option<PanicReason>, ghost trace': seq<Replay>)
      requires c == ConfigOf(store, mode, voting) && c.after < c.last && log == [] && revoted == []
      requires acknowledged == []
      requires At(c, trace, c.after, BatchEnd(c, c.after), Sending)
      modifies this, monitor`handled
      ensures err == None <==> GoodHistory(store, mode, voting, c.after, c.last)
      ensures err == None ==>
        && IsTrace(c, trace') && Last(trace').phase.Done? && Last(trace').log == log
          && Last(trace').handled == monitor.handled
        && log == Range(c.after + 1, c.last) && revoted == Unfinalized(store, c.after, c.last)
      ensures log == Range(c.after + 1, c.after + |log|) && trace <= trace' && Paced(c)
      ensures err == None && c.paced ==> monitor.handled >= c.target
    {
      hide IsTrace, GoodHistory, Unfinalized;
      trace' := trace;
      StartsWell(store, mode, voting, c.after);
      var seen := false;
      var sent := c.after;
      ghost var start: nat := c.after;
      while sent < c.last
        invariant c.after <= sent <= c.last && log == Range(c.after + 1, sent) && trace <= trace' && Paced(c)
        invariant At(c, trace', start, BatchEnd(c, start), if sent == c.last then Done else Sending)
          && (sent < c.last ==> start == sent)
        invariant GoodHistory(store, mode, voting, c.after, sent) && revoted == Unfinalized(store, c.after, sent)
        invariant seen <==> exists i :: c.after < i <= sent && i !in store.finalized
      {
        var end := Min(sent + COMMIT_RECOVERY_BATCH_SIZE, c.last);
        var found := ScanCommits(store, sent + 1, end);
        if |found| != end - sent {
          GapIsBad(store, mode, voting, c.after, sent, end, c.last);
          return Some(Gap), trace';
        }
        err, seen, trace' := SendBatch(store, mode, voting, c, found, seen, sent, end, trace');
        if err != None {
          GoodPrefix(store, mode, voting, c.after, end, c.last);
          return;
        }
        trace' := FinishBatch(c, mode, sent, end, trace');
        start := if end == c.last then sent else end;
        sent := end;
      }
      TraceKeepsInv(c, trace', |trace'| - 1);
      return None, trace';
    }

    /** Between batches: in full-replay mode, wait for the part that is paced. */
    method FinishBatch(c: Config, mode: ReplayMode, ghost start: nat, end: nat, ghost trace: seq<Replay>)
      returns (ghost trace': seq<Replay>)
      requires At(c, trace, start, end, Sending) && c.after + |log| == end <= c.last && c.paced == mode.FullEpochPaced?
      modifies monitor`handled
      ensures if end == c.last then At(c, trace', start, end, Done) else At(c, trace', end, BatchEnd(c, end), Sending)
      ensures trace <= trace'
    {
      hide IsTrace;
      ghost var t := Last(trace).(phase := Waiting);
      assert EndBatch(c, Last(trace), t);
      TraceExtends(c, trace, t);
      trace' := trace + [t];
      if mode.FullEpochPaced? {
        trace' := WaitForHandled(c, Min(end, c.target), start, end, trace');
      }
      ghost var s := Last(trace');
      t := if end == c.last then s.(phase := Done)
        else s.(phase := Sending, batchStart := end, batchEnd := BatchEnd(c, end));
      assert NextBatch(c, s, t);
      TraceExtends(c, trace', t);
      trace' := trace' + [t];
    }
  }

  lemma GapIsBad(store: Store, mode: ReplayMode, voting: bool, after: nat, lo: nat, hi: nat, last: nat)
    requires after <= lo <= hi <= last && !(forall i | lo + 1 <= i <= hi :: i in store.leaderRounds)
    ensures !GoodHistory(store, mode, voting, after, last)
  {
    var i :| lo + 1 <= i <= hi && i !in store.leaderRounds;
    assert after < i <= last;
  }

  lemma GoodMore(store: Store, mode: ReplayMode, voting: bool, after: nat, index: nat)
    requires after < index && GoodHistory(store, mode, voting, after, index - 1) && index in store.leaderRounds
    ensures GoodHistory(store, mode, voting, after, index) <==>
      && (MustBeFinalized(mode, voting, Target(store, mode, voting), index) ==> index in store.finalized)
      && ((exists i :: after < i < index && i !in store.finalized) ==> index !in store.finalized)
  {}

  lemma GoodPrefix(store: Store, mode: ReplayMode, voting: bool, lo: nat, mid: nat, hi: nat)
    requires !GoodHistory(store, mode, voting, lo, mid) && mid <= hi
    ensures !GoodHistory(store, mode, voting, lo, hi)
  {}

  lemma StartsWell(store: Store, mode: ReplayMode, voting: bool, after: nat)
    ensures GoodHistory(store, mode, voting, after, after) && Unfinalized(store, after, after) == []
  {}

  lemma OneState(c: Config)
    requires c.Valid()
    ensures IsTrace(c, [Init(c)])
  {}
}
