/** From committed leaders to the total order of blocks
    (consensus/core/src/linearizer.rs): each leader commits the part of its history that
    is not committed yet. Blocks are listed by reference. */
module Linearizers {
  import opened Committees
  import opened Blocks
  import opened Sorting
  import opened CommitRule
  import opened Safety
  import opened Agreement
  import opened UniversalCommitters

  /** Blocks above `gc` can be walked, and none names an ancestor twice. */
  ghost predicate CanWalk(dag: Dag, gc: nat) {
    Walkable(dag, gc) && forall r | r in dag :: DistinctAuthors(dag[r].ancestors)
  }

  function Elements(refs: seq<BlockRef>): set<BlockRef> { set r | r in refs }

  /** The ancestors that are neither collected nor committed, in order. */
  function Uncommitted(gc: nat, committed: set<BlockRef>, ancestors: seq<BlockRef>): (more: seq<BlockRef>)
    ensures forall a :: a in more <==> a in ancestors && a.round > gc && a !in committed
  {
    if ancestors == [] then []
    else
      var last := ancestors[|ancestors| - 1];
      assert ancestors == ancestors[..|ancestors| - 1] + [last];
      Uncommitted(gc, committed, ancestors[..|ancestors| - 1]) + if last.round > gc && last !in committed then [last]
        else []
  }

  lemma {:induction false} UncommittedHasNoRepeats(gc: nat, committed: set<BlockRef>, ancestors: seq<BlockRef>)
    requires DistinctAuthors(ancestors)
    ensures NoRepeats(Uncommitted(gc, committed, ancestors))
  {
    if ancestors != [] {
      var n := |ancestors| - 1;
      UncommittedHasNoRepeats(gc, committed, ancestors[..n]);
      var before := Uncommitted(gc, committed, ancestors[..n]);
      forall i | 0 <= i < |before| ensures before[i] != ancestors[n] {
        assert before[i] in before && before[i] in ancestors[..n];
      }
    }
  }

  /** The order in which the walk commits blocks, and all that is committed after it. */
  ghost function Walk(dag: Dag, gc: nat, committed: set<BlockRef>,
                      buffer: seq<BlockRef>): (r: (seq<BlockRef>, set<BlockRef>))
    requires CanWalk(dag, gc) && forall b | b in buffer :: b in dag
    decreases dag.Keys - committed, |buffer|
  {
    if buffer == [] then ([], committed)
    else
      var n := |buffer| - 1;
      var more := Uncommitted(gc, committed, dag[buffer[n]].ancestors);
      assert more != [] ==> more[0] in dag.Keys - committed && more[0] in Elements(more);
      var rest := Walk(dag, gc, committed + Elements(more), buffer[..n] + more);
      ([buffer[n]] + rest.0, rest.1)
  }

  /** One step of the walk, and why it ends. */
  lemma WalkStep(dag: Dag, gc: nat, committed: set<BlockRef>, buffer: seq<BlockRef>)
    requires CanWalk(dag, gc) && (forall b | b in buffer :: b in dag) && buffer != []
    ensures var n := |buffer| - 1;
            var more := Uncommitted(gc, committed, dag[buffer[n]].ancestors);
            && (forall b | b in buffer[..n] + more :: b in dag) && Elements(more) !! committed
            && (dag.Keys - (committed + Elements(more)) < dag.Keys - committed
                || (more == [] && committed + Elements(more) == committed))
            && var rest := Walk(dag, gc, committed + Elements(more), buffer[..n] + more);
               Walk(dag, gc, committed, buffer) == ([buffer[n]] + rest.0, rest.1)
  {
    var more := Uncommitted(gc, committed, dag[buffer[|buffer| - 1]].ancestors);
    assert more != [] ==> more[0] in dag.Keys - committed && more[0] in Elements(more);
  }

  // ---------- What the walk commits ----------

  /** Committed blocks have their uncollected ancestors committed. */
  ghost predicate Settled(dag: Dag, gc: nat, committed: set<BlockRef>, but: set<BlockRef>) {
    forall r, a | r in committed && r !in but && r in dag && a in dag[r].ancestors && a.round > gc :: a in committed
  }

  /** The walk lists what it adds, once each, together with what waits in the buffer. */
  lemma {:induction false} WalkLists(dag: Dag, gc: nat, committed: set<BlockRef>, buffer: seq<BlockRef>)
    requires CanWalk(dag, gc) && (forall b | b in buffer :: b in dag) && Elements(buffer) <= committed
      && NoRepeats(buffer)
    ensures var (out, after) := Walk(dag, gc, committed, buffer);
            && committed <= after && Elements(out) == Elements(buffer) + (after - committed) && NoRepeats(out)
    decreases dag.Keys - committed, |buffer|
  {
    hide CanWalk, Uncommitted, NoRepeats, Elements;
    if buffer == [] {
      assert Elements(buffer) == {} by { NoElements(); }
    } else {
      hide Walk;
      WalkStep(dag, gc, committed, buffer);
      var n := |buffer| - 1;
      var x, init := buffer[n], buffer[..n];
      var more := Uncommitted(gc, committed, dag[x].ancestors);
      assert buffer == init + [x];
      assert NoRepeats(more) by {
        AncestorsDiffer(dag, gc, x); UncommittedHasNoRepeats(gc, committed, dag[x].ancestors);
      }
      NextBuffer(committed, init, x, more);
      WalkLists(dag, gc, committed + Elements(more), init + more);
      var rest := Walk(dag, gc, committed + Elements(more), init + more);
      ConsLists(committed, init, x, more, rest.0, rest.1);
    }
  }

  lemma NoElements()
    ensures Elements([]) == {} && NoRepeats([])
  {}

  lemma AncestorsDiffer(dag: Dag, gc: nat, r: BlockRef)
    requires CanWalk(dag, gc) && r in dag
    ensures DistinctAuthors(dag[r].ancestors)
  {}

  lemma NextBuffer(committed: set<BlockRef>, init: seq<BlockRef>, x: BlockRef, more: seq<BlockRef>)
    requires NoRepeats(init + [x]) && Elements(init + [x]) <= committed && NoRepeats(more)
      && Elements(more) !! committed
    ensures NoRepeats(init + more) && Elements(init + more) == Elements(init) + Elements(more)
    ensures Elements(init + more) <= committed + Elements(more) && x !in Elements(init + more) && x in committed
  {
    var all := init + [x];
    assert all[|init|] == x && forall i | 0 <= i < |init| :: all[i] == init[i];
    assert forall r | r in init :: r in all;
    assert x in all;
    forall i, j | 0 <= i < j < |init + more| ensures (init + more)[i] != (init + more)[j] {
      if i < |init| <= j {
        assert init[i] in all && init[i] in Elements(all);
        assert more[j - |init|] in Elements(more);
      }
    }
  }

  lemma ConsLists(committed: set<BlockRef>, init: seq<BlockRef>, x: BlockRef, more: seq<BlockRef>, out: seq<BlockRef>,
                  after: set<BlockRef>)
    requires x in committed && x !in Elements(init + more) && Elements(init + more) == Elements(init) + Elements(more)
    requires Elements(more) !! committed && committed + Elements(more) <= after && NoRepeats(out)
    requires Elements(out) == Elements(init + more) + (after - (committed + Elements(more)))
    ensures NoRepeats([x] + out) && Elements([x] + out) == Elements(init + [x]) + (after - committed)
  {
    assert Elements([x] + out) == {x} + Elements(out);
    assert Elements(init + [x]) == Elements(init) + {x};
    forall j | 0 <= j < |out| ensures out[j] != x { assert out[j] in Elements(out); }
  }

  /** What the walk leaves behind is settled again. */
  lemma {:induction false} WalkSettles(dag: Dag, gc: nat, committed: set<BlockRef>, buffer: seq<BlockRef>)
    requires CanWalk(dag, gc) && (forall b | b in buffer :: b in dag)
    requires Settled(dag, gc, committed, Elements(buffer))
    ensures Settled(dag, gc, Walk(dag, gc, committed, buffer).1, {})
    decreases dag.Keys - committed, |buffer|
  {
    if buffer != [] {
      var n := |buffer| - 1;
      var more := Uncommitted(gc, committed, dag[buffer[n]].ancestors);
      assert more != [] ==> more[0] in dag.Keys - committed && more[0] in Elements(more);
      assert forall b | b in buffer :: b == buffer[n] || b in buffer[..n];
      WalkSettles(dag, gc, committed + Elements(more), buffer[..n] + more);
    }
  }

  /** The walk commits nothing outside the history of the buffer. */
  lemma {:induction false} WalkStaysInHistory(dag: Dag, gc: nat, committed: set<BlockRef>, buffer: seq<BlockRef>,
                                              r: BlockRef)
    requires CanWalk(dag, gc) && (forall b | b in buffer :: b in dag)
    requires r in Walk(dag, gc, committed, buffer).1 && r !in committed
    ensures r.round > gc && r in dag && exists b :: b in buffer && Reaches(dag, gc, b, r)
    decreases dag.Keys - committed, |buffer|
  {
    if buffer != [] {
      var n := |buffer| - 1;
      var x := buffer[n];
      var more := Uncommitted(gc, committed, dag[x].ancestors);
      assert more != [] ==> more[0] in dag.Keys - committed && more[0] in Elements(more);
      assert x in buffer;
      if r in more {
        assert Reaches(dag, gc, x, r);
      } else {
        WalkStaysInHistory(dag, gc, committed + Elements(more), buffer[..n] + more, r);
        var b :| b in buffer[..n] + more && Reaches(dag, gc, b, r);
        if b in more { assert Reaches(dag, gc, x, r); } else { assert b in buffer; }
      }
    }
  }

  lemma {:induction false} SettledHoldsHistory(dag: Dag, gc: nat, committed: set<BlockRef>, from: BlockRef, r: BlockRef)
    requires CanWalk(dag, gc) && Settled(dag, gc, committed, {}) && from in committed && from in dag
    requires r.round > gc && Reaches(dag, gc, from, r)
    ensures r in committed
    decreases from.round
  {
    var a :| a in dag[from].ancestors && (a == r || (a.round > gc && Reaches(dag, gc, a, r)));
    if a != r { SettledHoldsHistory(dag, gc, committed, a, r); }
  }

  lemma LeaderWalk(dag: Dag, gc: nat, committed: set<BlockRef>, leader: BlockRef)
    requires CanWalk(dag, gc) && leader in dag && leader !in committed && Settled(dag, gc, committed, {})
    ensures var (out, after) := Walk(dag, gc, committed + {leader}, [leader]);
            && NoRepeats(out) && after == committed + Elements(out) && Elements(out) !! committed
            && leader in out && Settled(dag, gc, after, {})
  {
    hide Walk, CanWalk, NoRepeats;
    assert NoRepeats([leader]) by { OneDiffers(leader); }
    assert Elements([leader]) == {leader};
    WalkLists(dag, gc, committed + {leader}, [leader]);
    WalkSettles(dag, gc, committed + {leader}, [leader]);
    assert leader in Elements(Walk(dag, gc, committed + {leader}, [leader]).0);
  }

  lemma OneDiffers(r: BlockRef)
    ensures NoRepeats([r])
  {}

  /** A leader commits exactly itself and its history above the collection round, less
      what is committed already, each block once. */
  lemma SubDagIsHistory(dag: Dag, gc: nat, committed: set<BlockRef>, leader: BlockRef)
    requires CanWalk(dag, gc) && leader in dag && leader !in committed && Settled(dag, gc, committed, {})
    ensures var (out, after) := Walk(dag, gc, committed + {leader}, [leader]);
            && NoRepeats(out) && after == committed + Elements(out) && Settled(dag, gc, after, {})
            && forall r :: r in out <==> r == leader || (r !in committed && r.round > gc && Reaches(dag, gc, leader, r))
  {
    hide Walk, Reaches, Settled, NoRepeats;
    LeaderWalk(dag, gc, committed, leader);
    var (out, after) := Walk(dag, gc, committed + {leader}, [leader]);
    forall r ensures r in out <==> r == leader || (r !in committed && r.round > gc && Reaches(dag, gc, leader, r)) {
      InSubDagIff(dag, gc, committed, leader, out, after, r);
    }
  }

  lemma InSubDagIff(dag: Dag, gc: nat, committed: set<BlockRef>, leader: BlockRef, out: seq<BlockRef>,
                    after: set<BlockRef>, r: BlockRef)
    requires CanWalk(dag, gc) && leader in dag && Settled(dag, gc, after, {})
    requires (out, after) == Walk(dag, gc, committed + {leader}, [leader])
    requires after == committed + Elements(out) && Elements(out) !! committed && leader in out
    ensures r in out <==> r == leader || (r !in committed && r.round > gc && Reaches(dag, gc, leader, r))
  {
    hide Walk, Reaches, Settled;
    assert forall x :: x in out <==> x in Elements(out);
    if r in out && r != leader {
      WalkStaysInHistory(dag, gc, committed + {leader}, [leader], r);
    }
    if r !in committed && r.round > gc && Reaches(dag, gc, leader, r) {
      SettledHoldsHistory(dag, gc, after, leader, r);
    }
  }

  // ---------- The order within a sub-dag ----------

  predicate NotAfter(r: BlockRef, s: BlockRef) { r.round < s.round || (r.round == s.round && r.author <= s.author) }

  ghost predicate InOrder(refs: seq<BlockRef>) {
    forall i, j | 0 <= i < j < |refs| :: NotAfter(refs[i], refs[j])
  }

  const RoundOf: BlockRef -> int := (r: BlockRef) => r.round
  const AuthorOf: BlockRef -> int := (r: BlockRef) => r.author

  /** By round, then by author; equal ones keep their order. */
  function SortSubDag(refs: seq<BlockRef>): (sorted: seq<BlockRef>)
    ensures multiset(sorted) == multiset(refs)
  {
    Sort(Sort(refs, AuthorOf), RoundOf)
  }

  lemma HeadNotAfter(refs: seq<BlockRef>)
    requires InOrder(refs) && refs != []
    ensures InOrder(refs[1..]) && forall s | s in refs[1..] :: NotAfter(refs[0], s)
  {
    forall s | s in refs[1..] ensures NotAfter(refs[0], s) {
      var k :| 0 <= k < |refs| - 1 && refs[1..][k] == s;
      assert s == refs[k + 1];
    }
  }

  lemma ConsInOrder(r: BlockRef, refs: seq<BlockRef>)
    requires InOrder(refs) && forall s | s in refs :: NotAfter(r, s)
    ensures InOrder([r] + refs)
  {}

  lemma {:induction false} InsertInOrder(r: BlockRef, refs: seq<BlockRef>)
    requires InOrder(refs) && forall s | s in refs :: r.author <= s.author
    ensures InOrder(Insert(r, refs, RoundOf))
  {
    if refs == [] {
    } else {
      HeadNotAfter(refs);
      assert forall s :: s in refs <==> s == refs[0] || s in refs[1..] by { assert refs == [refs[0]] + refs[1..]; }
      hide InOrder;
      if r.round <= refs[0].round {
        assert forall s | s in refs :: NotAfter(r, s);
        ConsInOrder(r, refs);
      } else {
        InsertInOrder(r, refs[1..]);
        SameElements(Insert(r, refs[1..], RoundOf), refs[1..] + [r]);
        ConsInOrder(refs[0], Insert(r, refs[1..], RoundOf));
      }
    }
  }

  lemma HeadAuthor(refs: seq<BlockRef>)
    requires SortedBy(refs, AuthorOf) && refs != []
    ensures SortedBy(refs[1..], AuthorOf) && forall s | s in refs[1..] :: refs[0].author <= s.author
  {
    forall s | s in refs[1..] ensures refs[0].author <= s.author {
      var i :| 0 <= i < |refs| - 1 && refs[1..][i] == s;
      assert AuthorOf(refs[0]) <= AuthorOf(refs[i + 1]);
    }
  }

  lemma {:induction false} SortInOrder(refs: seq<BlockRef>)
    requires SortedBy(refs, AuthorOf)
    ensures InOrder(Sort(refs, RoundOf))
  {
    if refs == [] {
    } else {
      HeadAuthor(refs);
      hide SortedBy, InOrder, Insert;
      SortInOrder(refs[1..]);
      SameElements(Sort(refs[1..], RoundOf), refs[1..]);
      InsertInOrder(refs[0], Sort(refs[1..], RoundOf));
    }
  }

  /** A sub-dag is in order and holds the blocks of the walk. */
  lemma SubDagIsSorted(refs: seq<BlockRef>)
    requires NoRepeats(refs)
    ensures InOrder(SortSubDag(refs)) && NoRepeats(SortSubDag(refs)) && Elements(SortSubDag(refs)) == Elements(refs)
  {
    hide Sort, SortedBy;
    SortIsSortedAndStable(refs, AuthorOf);
    SortInOrder(Sort(refs, AuthorOf));
    SameElements(SortSubDag(refs), refs);
    PermutedHasNoRepeats(refs, SortSubDag(refs));
  }

  lemma PermutedHasNoRepeats(refs: seq<BlockRef>, sorted: seq<BlockRef>)
    requires NoRepeats(refs) && multiset(sorted) == multiset(refs)
    ensures NoRepeats(sorted)
  {
    forall i, j | 0 <= i < j < |sorted| && sorted[i] == sorted[j] ensures false {
      assert sorted == sorted[..i] + [sorted[i]] + sorted[i + 1..j] + [sorted[j]] + sorted[j + 1..];
      assert multiset(sorted)[sorted[i]] >= 2;
      OnceEach(refs, sorted[i]);
    }
  }

  lemma {:induction false} OnceEach(refs: seq<BlockRef>, r: BlockRef)
    requires NoRepeats(refs)
    ensures multiset(refs)[r] <= 1
  {
    if refs == [] {
    } else {
      var n := |refs| - 1;
      assert refs == refs[..n] + [refs[n]];
      OnceEach(refs[..n], r);
      if refs[n] == r { assert r !in refs[..n]; }
    }
  }

  // ---------- Committing leaders ----------

  /** Leaders in commit order, from round `last` on, all of them held. */
  ghost predicate Due(dag: Dag, depth: nat, last: nat, leaders: seq<BlockRef>) {
    && CanWalk(dag, Gc(last, depth))
    && (forall l | l in leaders :: l in dag && l.round >= last)
    && InCommitOrder(leaders)
  }

  ghost predicate InCommitOrder(leaders: seq<BlockRef>) {
    forall i, j | 0 <= i < j < |leaders| :: leaders[i].round <= leaders[j].round && leaders[i] != leaders[j]
  }

  lemma DueNext(dag: Dag, depth: nat, last: nat, leaders: seq<BlockRef>)
    requires Due(dag, depth, last, leaders) && leaders != []
    ensures leaders[0] in dag && last <= leaders[0].round && Due(dag, depth, leaders[0].round, leaders[1..])
    ensures forall l | l in leaders[1..] :: l != leaders[0] && leaders[0].round <= l.round
  {
    assert leaders[0] in leaders && forall i | 0 <= i < |leaders| - 1 :: leaders[1..][i] == leaders[i + 1];
    WalkableAbove(dag, Gc(last, depth));
    assert Walkable(dag, Gc(leaders[0].round, depth));
    forall l | l in leaders[1..] ensures l in leaders && l != leaders[0] && leaders[0].round <= l.round {
      var i :| 0 <= i < |leaders| - 1 && leaders[1..][i] == l;
    }
  }

  /** The sub-dags of the leaders, in order. */
  ghost function SubDags(dag: Dag, depth: nat, committed: set<BlockRef>, last: nat,
                         leaders: seq<BlockRef>): seq<seq<BlockRef>>
    requires Due(dag, depth, last, leaders)
    decreases |leaders|
  {
    if leaders == [] then []
    else
      DueNext(dag, depth, last, leaders);
      var (out, after) := Walk(dag, Gc(last, depth), committed + {leaders[0]}, [leaders[0]]);
      [SortSubDag(out)] + SubDags(dag, depth, after, leaders[0].round, leaders[1..])
  }

  /** All that is committed after them. */
  ghost function After(dag: Dag, depth: nat, committed: set<BlockRef>, last: nat, leaders: seq<BlockRef>): set<BlockRef>
    requires Due(dag, depth, last, leaders)
    decreases |leaders|
  {
    if leaders == [] then committed
    else
      DueNext(dag, depth, last, leaders);
      After(dag, depth, Walk(dag, Gc(last, depth), committed + {leaders[0]}, [leaders[0]]).1, leaders[0].round,
        leaders[1..])
  }

  function LastRound(last: nat, leaders: seq<BlockRef>): nat {
    if leaders == [] then last else leaders[|leaders| - 1].round
  }

  function Concat(parts: seq<seq<BlockRef>>): seq<BlockRef> {
    if parts == [] then [] else parts[0] + Concat(parts[1..])
  }

  lemma SettledLater(dag: Dag, gc: nat, gc': nat, committed: set<BlockRef>)
    requires Settled(dag, gc, committed, {}) && gc <= gc'
    ensures Settled(dag, gc', committed, {})
  {}

  /** The sub-dag of a leader once `committed` is committed and `last` is the round of the last leader:
      the leader, and of its history what is not committed, not of the genesis round and less than
      the depth behind; in order, each block once, the leader at the end. */
  ghost predicate IsSubDagOf(dag: Dag, depth: nat, last: nat, committed: set<BlockRef>, leader: BlockRef,
                             subDag: seq<BlockRef>) {
    && CanWalk(dag, Gc(last, depth)) && leader in dag
    && InOrder(subDag) && NoRepeats(subDag) && subDag != [] && subDag[|subDag| - 1] == leader
    && forall r :: r in subDag <==>
         || r == leader
         || (r !in committed && r.round >= 1 && r.round + depth > last && Reaches(dag, Gc(last, depth), leader, r))
  }

  lemma SortedIsSubDag(dag: Dag, depth: nat, last: nat, committed: set<BlockRef>, leader: BlockRef, out: seq<BlockRef>)
    requires CanWalk(dag, Gc(last, depth)) && leader in dag && NoRepeats(out)
    requires forall r :: r in out <==>
      r == leader || (r !in committed && r.round > Gc(last, depth) && Reaches(dag, Gc(last, depth), leader, r))
    ensures IsSubDagOf(dag, depth, last, committed, leader, SortSubDag(out))
  {
    hide CanWalk, Reaches, NoRepeats, InOrder, SortSubDag, Gc;
    var sorted, gc := SortSubDag(out), Gc(last, depth);
    SubDagIsSorted(out);
    SameElements(sorted, out);
    forall r: BlockRef ensures r.round > gc <==> r.round >= 1 && r.round + depth > last {
      AboveGcIff(r.round, last, depth);
    }
    forall r | r in sorted && r != leader ensures r.round < leader.round { HistoryIsLower(dag, gc, leader, r); }
    HighestIsLast(sorted, leader);
  }

  lemma HistoryIsLower(dag: Dag, gc: nat, leader: BlockRef, r: BlockRef)
    requires CanWalk(dag, gc) && leader in dag && Reaches(dag, gc, leader, r)
    ensures r.round < leader.round
  {
    ReachesLower(dag, gc, leader, r);
  }

  lemma HighestIsLast(refs: seq<BlockRef>, leader: BlockRef)
    requires InOrder(refs) && leader in refs && forall r | r in refs && r != leader :: r.round < leader.round
    ensures refs[|refs| - 1] == leader
  {
    var k :| 0 <= k < |refs| && refs[k] == leader;
    if k < |refs| - 1 {
      assert NotAfter(refs[k], refs[|refs| - 1]);
      assert refs[|refs| - 1] in refs;
    }
  }

  /** What a leader commits is not a later leader. */
  lemma CommitsNoLaterLeader(dag: Dag, gc: nat, committed: set<BlockRef>, leader: BlockRef, l: BlockRef)
    requires CanWalk(dag, gc) && leader in dag && leader !in committed && Settled(dag, gc, committed, {})
    requires l !in committed && l != leader && leader.round <= l.round
    ensures l !in Walk(dag, gc, committed + {leader}, [leader]).1
  {
    hide Walk, Settled, NoRepeats, Reaches;
    SubDagIsHistory(dag, gc, committed, leader);
    if Reaches(dag, gc, leader, l) { ReachesLower(dag, gc, leader, l); }
  }

  /** The sub-dags list what is newly committed, each block once. */
  lemma {:induction false} NothingTwice(dag: Dag, depth: nat, committed: set<BlockRef>, last: nat,
                                        leaders: seq<BlockRef>)
    requires Due(dag, depth, last, leaders) && Settled(dag, Gc(last, depth), committed, {})
    requires forall l | l in leaders :: l !in committed
    ensures var all := Concat(SubDags(dag, depth, committed, last, leaders));
            && NoRepeats(all) && Elements(all) !! committed
            && After(dag, depth, committed, last, leaders) == committed + Elements(all)
    decreases |leaders|
  {
    hide Due, Walk, CanWalk, Settled, SortSubDag, NoRepeats, Reaches;
    if leaders == [] {
      NoElements();
    } else {
      DueNext(dag, depth, last, leaders);
      CanWalkWhenDue(dag, depth, last, leaders);
      var gc, leader := Gc(last, depth), leaders[0];
      var (out, after) := Walk(dag, gc, committed + {leader}, [leader]);
      SubDagIsHistory(dag, gc, committed, leader);
      SubDagIsSorted(out);
      SettledLater(dag, gc, Gc(leader.round, depth), after);
      forall l | l in leaders[1..] ensures l !in after { CommitsNoLaterLeader(dag, gc, committed, leader, l); }
      NothingTwice(dag, depth, after, leader.round, leaders[1..]);
      var rest := SubDags(dag, depth, after, leader.round, leaders[1..]);
      LeaderWalk(dag, gc, committed, leader);
      ConcatHasNoRepeats(SortSubDag(out), Concat(rest));
      assert ([SortSubDag(out)] + rest)[1..] == rest;
    }
  }

  /** One sub-dag per leader: its history, less what was committed before. */
  ghost predicate AreSubDags(dag: Dag, depth: nat, committed: set<BlockRef>, last: nat, leaders: seq<BlockRef>,
                             subDags: seq<seq<BlockRef>>) {
    && |subDags| == |leaders|
    && forall k | 0 <= k < |leaders| ::
         IsSubDagOf(dag, depth, LastRound(last, leaders[..k]), committed + Elements(Concat(subDags[..k])), leaders[k],
           subDags[k])
  }

  lemma {:induction false} SubDagsAreHistories(dag: Dag, depth: nat, committed: set<BlockRef>, last: nat,
                                               leaders: seq<BlockRef>)
    requires Due(dag, depth, last, leaders) && Settled(dag, Gc(last, depth), committed, {})
    requires forall l | l in leaders :: l !in committed
    ensures AreSubDags(dag, depth, committed, last, leaders, SubDags(dag, depth, committed, last, leaders))
    decreases |leaders|
  {
    hide Due, Walk, CanWalk, Settled, SortSubDag, NoRepeats, Reaches, IsSubDagOf, Elements;
    if leaders != [] {
      hide SubDags, AreSubDags, Gc;
      var gc, leader, rest := Gc(last, depth), leaders[0], leaders[1..];
      DueNext(dag, depth, last, leaders);
      CommitFirst(dag, depth, committed, last, leaders);
      GcRises(last, leader.round, depth);
      var (out, after) := Walk(dag, gc, committed + {leader}, [leader]);
      SubDagIsHistory(dag, gc, committed, leader);
      SortedIsSubDag(dag, depth, last, committed, leader, out);
      SubDagIsSorted(out);
      SettledLater(dag, gc, Gc(leader.round, depth), after);
      forall l | l in rest ensures l !in after { CommitsNoLaterLeader(dag, gc, committed, leader, l); }
      SubDagsAreHistories(dag, depth, after, leader.round, rest);
      SubDagsCons(dag, depth, committed, last, leaders, SortSubDag(out), after,
        SubDags(dag, depth, after, leader.round, rest));
    }
  }

  lemma GcRises(last: nat, round: nat, depth: nat)
    requires last <= round
    ensures Gc(last, depth) <= Gc(round, depth)
  {}

  lemma SubDagsCons(dag: Dag, depth: nat, committed: set<BlockRef>, last: nat, leaders: seq<BlockRef>,
                    first: seq<BlockRef>, after: set<BlockRef>, later: seq<seq<BlockRef>>)
    requires leaders != [] && IsSubDagOf(dag, depth, last, committed, leaders[0], first)
    requires after == committed + Elements(first)
    requires AreSubDags(dag, depth, after, leaders[0].round, leaders[1..], later)
    ensures AreSubDags(dag, depth, committed, last, leaders, [first] + later)
  {
    hide IsSubDagOf, Elements, Concat;
    var subDags, rest := [first] + later, leaders[1..];
    forall k | 0 <= k < |leaders|
      ensures IsSubDagOf(dag, depth, LastRound(last, leaders[..k]), committed + Elements(Concat(subDags[..k])),
        leaders[k], subDags[k])
    {
      ConcatOfFirst(first, later, k);
      if k == 0 {
        assert committed + {} == committed;
      } else {
        var i := k - 1;
        var prev := LastRound(leaders[0].round, rest[..i]);
        assert IsSubDagOf(dag, depth, prev, after + Elements(Concat(later[..i])), rest[i], later[i]);
        assert prev == LastRound(last, leaders[..k]);
        assert committed + Elements(Concat(subDags[..k])) == after + Elements(Concat(later[..i]));
      }
    }
  }

  lemma ConcatOfFirst(first: seq<BlockRef>, later: seq<seq<BlockRef>>, k: nat)
    requires k <= |later| + 1
    ensures Elements(Concat(([first] + later)[..k]))
      == if k == 0 then {} else Elements(first) + Elements(Concat(later[..k - 1]))
  {
    if k > 0 {
      assert ([first] + later)[..k] == [first] + later[..k - 1];
      assert ([first] + later[..k - 1])[1..] == later[..k - 1];
    }
  }

  lemma CanWalkWhenDue(dag: Dag, depth: nat, last: nat, leaders: seq<BlockRef>)
    requires Due(dag, depth, last, leaders)
    ensures CanWalk(dag, Gc(last, depth))
  {}

  lemma ConcatHasNoRepeats(x: seq<BlockRef>, y: seq<BlockRef>)
    requires NoRepeats(x) && NoRepeats(y) && Elements(x) !! Elements(y)
    ensures NoRepeats(x + y) && Elements(x + y) == Elements(x) + Elements(y)
  {
    forall i, j | 0 <= i < j < |x + y| ensures (x + y)[i] != (x + y)[j] {
      if i < |x| <= j { assert x[i] in Elements(x) && y[j - |x|] in Elements(y); }
    }
  }

  // ---------- Two validators ----------

  /** The walk reads nothing but the history of the leader. */
  lemma {:induction false} WalkSameInBothViews(v: Dag, w: Dag, gc: nat, committed: set<BlockRef>, buffer: seq<BlockRef>)
    requires CanWalk(v, gc) && CanWalk(w, gc) && forall b | b in buffer :: b in v && b in w
    requires forall r | r in v && r in w :: v[r] == w[r]
    ensures Walk(v, gc, committed, buffer) == Walk(w, gc, committed, buffer)
    decreases v.Keys - committed, |buffer|
  {
    if buffer != [] {
      var n := |buffer| - 1;
      assert buffer[n] in buffer;
      var more := Uncommitted(gc, committed, v[buffer[n]].ancestors);
      assert more != [] ==> more[0] in v.Keys - committed && more[0] in Elements(more);
      WalkSameInBothViews(v, w, gc, committed + Elements(more), buffer[..n] + more);
    }
  }

  /** The same leaders, or more of them, give the same sub-dags, or more of them. */
  lemma {:induction false} SubDagsAgree(v: Dag, w: Dag, depth: nat, committed: set<BlockRef>, last: nat,
                                        p: seq<BlockRef>, q: seq<BlockRef>)
    requires Due(v, depth, last, p) && Due(w, depth, last, q) && p <= q
    requires forall r | r in v && r in w :: v[r] == w[r]
    ensures SubDags(v, depth, committed, last, p) <= SubDags(w, depth, committed, last, q)
    decreases |p|
  {
    hide Due, Walk, CanWalk, SortSubDag;
    if p != [] {
      DueNext(v, depth, last, p);
      DueNext(w, depth, last, q);
      CanWalkWhenDue(v, depth, last, p);
      CanWalkWhenDue(w, depth, last, q);
      var gc := Gc(last, depth);
      WalkSameInBothViews(v, w, gc, committed + {p[0]}, [p[0]]);
      var after := Walk(v, gc, committed + {p[0]}, [p[0]]).1;
      SubDagsAgree(v, w, depth, after, p[0].round, p[1..], q[1..]);
    }
  }

  /** The first leader, and then the rest. */
  lemma CommitFirst(dag: Dag, depth: nat, committed: set<BlockRef>, last: nat, leaders: seq<BlockRef>)
    requires Due(dag, depth, last, leaders) && leaders != []
    ensures CanWalk(dag, Gc(last, depth)) && leaders[0] in dag && Due(dag, depth, leaders[0].round, leaders[1..])
    ensures var (out, after) := Walk(dag, Gc(last, depth), committed + {leaders[0]}, [leaders[0]]);
      && SubDags(dag, depth, committed, last, leaders)
        == [SortSubDag(out)] + SubDags(dag, depth, after, leaders[0].round, leaders[1..])
      && After(dag, depth, committed, last, leaders) == After(dag, depth, after, leaders[0].round, leaders[1..])
  {
    hide Due, Walk, CanWalk, SortSubDag;
    DueNext(dag, depth, last, leaders);
    CanWalkWhenDue(dag, depth, last, leaders);
  }

  /** What the next leaders may be: held, not committed, in order and above the collection
      round. */
  ghost predicate Committable(dag: Dag, depth: nat, committed: set<BlockRef>, last: nat, leaders: seq<BlockRef>)
    ensures Committable(dag, depth, committed, last, leaders) ==> Due(dag, depth, last, leaders)
  {
    && Due(dag, depth, last, leaders) && Settled(dag, Gc(last, depth), committed, {})
    && depth >= 1 && forall l | l in leaders :: l !in committed && l.round >= 1
  }

  lemma CommittableNext(dag: Dag, depth: nat, committed: set<BlockRef>, last: nat, leaders: seq<BlockRef>)
    requires Committable(dag, depth, committed, last, leaders) && leaders != []
    ensures CanWalk(dag, Gc(last, depth)) && Settled(dag, Gc(last, depth), committed, {})
    ensures leaders[0] in dag && leaders[0] !in committed && leaders[0].round > Gc(last, depth)
    ensures var after := Walk(dag, Gc(last, depth), committed + {leaders[0]}, [leaders[0]]).1;
      Committable(dag, depth, after, leaders[0].round, leaders[1..])
  {
    hide Due, Walk, CanWalk, Settled, NoRepeats, Reaches;
    DueNext(dag, depth, last, leaders);
    CanWalkWhenDue(dag, depth, last, leaders);
    var gc, leader := Gc(last, depth), leaders[0];
    assert leader in leaders;
    LeaderWalk(dag, gc, committed, leader);
    var after := Walk(dag, gc, committed + {leader}, [leader]).1;
    SettledLater(dag, gc, Gc(leader.round, depth), after);
    forall l | l in leaders[1..] ensures l !in after && l.round >= 1 {
      assert l in leaders;
      CommitsNoLaterLeader(dag, gc, committed, leader, l);
    }
  }

  // ---------- The linearizer ----------

  /** The linearizer and the part of `DagState` it works on. */
  class Linearizer {
    var dag: Dag
    const gcDepth: nat
    var committed: set<BlockRef>
    var lastCommitRound: nat

    constructor (blocks: Dag, depth: nat)
      ensures dag == blocks && gcDepth == depth && committed == {} && lastCommitRound == 0
    {
      dag, gcDepth, committed, lastCommitRound := blocks, depth, {}, 0;
    }

    function GcRound(): nat
      reads this
    {
      Gc(lastCommitRound, gcDepth)
    }

    ghost predicate MayCommit(leaders: seq<BlockRef>)
      reads this
    {
      Committable(dag, gcDepth, committed, lastCommitRound, leaders)
    }

    /** Marks the ancestors; each is marked for the first time. */
    method CommitAll(refs: seq<BlockRef>)
      requires NoRepeats(refs) && Elements(refs) !! committed
      modifies this`committed
      ensures committed == old(committed) + Elements(refs)
    {
      for i := 0 to |refs|
        invariant committed == old(committed) + Elements(refs[..i])
      {
        assert refs[..i + 1] == refs[..i] + [refs[i]];
        assert refs[i] in Elements(refs);
        // Otherwise the source panics: committed twice.
        assert refs[i] !in committed;
        committed := committed + {refs[i]};
      }
      assert refs[..|refs|] == refs;
    }

    /** The sub-dag of one leader. No assertion of the source fails. */
    method LinearizeSubDag(leader: BlockRef) returns (toCommit: seq<BlockRef>)
      requires CanWalk(dag, GcRound()) && Settled(dag, GcRound(), committed, {})
      requires leader in dag && leader !in committed && leader.round > GcRound()
      modifies this`committed
      ensures var (out, after) := Walk(dag, GcRound(), old(committed) + {leader}, [leader]);
              toCommit == SortSubDag(out) && committed == after
      ensures InOrder(toCommit) && NoRepeats(toCommit) && committed == old(committed) + Elements(toCommit)
      ensures IsSubDagOf(dag, gcDepth, lastCommitRound, old(committed), leader, toCommit)
    {
      hide CanWalk, NoRepeats, Settled, SortSubDag, InOrder, Walk, Reaches, Uncommitted;
      var gc := GcRound();
      ghost var before := committed;
      var buffer := [leader];
      toCommit := [];
      committed := committed + {leader};
      ghost var walk := Walk(dag, gc, committed, buffer);
      assert toCommit + walk.0 == walk.0;
      while buffer != []
        invariant forall b | b in buffer :: b in dag
        invariant var rest := Walk(dag, gc, committed, buffer); walk == (toCommit + rest.0, rest.1)
        decreases dag.Keys - committed, |buffer|
      {
        WalkStep(dag, gc, committed, buffer);
        var n := |buffer| - 1;
        var x := buffer[n];
        ghost var done := toCommit;
        toCommit := toCommit + [x];
        var ancestors := Uncommitted(gc, committed, dag[x].ancestors);
        AncestorsDiffer(dag, gc, x);
        UncommittedHasNoRepeats(gc, committed, dag[x].ancestors);
        buffer := buffer[..n] + ancestors;
        CommitAll(ancestors);
        ghost var rest := Walk(dag, gc, committed, buffer);
        assert done + ([x] + rest.0) == toCommit + rest.0;
      }
      WalkNothing(dag, gc, committed);
      assert toCommit + [] == toCommit;
      SubDagIsHistory(dag, gc, before, leader);
      // The assertion of the source.
      assert forall r | r in toCommit :: r.round > gc;
      SubDagIsSorted(toCommit);
      SortedIsSubDag(dag, gcDepth, lastCommitRound, before, leader, toCommit);
      toCommit := SortSubDag(toCommit);
    }

    /** Commits the leaders one after the other; the collection round follows. */
    method HandleCommit(leaders: seq<BlockRef>) returns (subDags: seq<seq<BlockRef>>)
      requires MayCommit(leaders)
      modifies this`committed, this`lastCommitRound
      ensures subDags == SubDags(dag, gcDepth, old(committed), old(lastCommitRound), leaders)
      ensures NoRepeats(Concat(subDags)) && Elements(Concat(subDags)) !! old(committed)
      ensures MayCommit([]) && committed == After(dag, gcDepth, old(committed), old(lastCommitRound), leaders)
      ensures committed == old(committed) + Elements(Concat(subDags))
      ensures lastCommitRound == LastRound(old(lastCommitRound), leaders)
      ensures lastCommitRound == if leaders == [] then old(lastCommitRound) else leaders[|leaders| - 1].round
      ensures AreSubDags(dag, gcDepth, old(committed), old(lastCommitRound), leaders, subDags)
    {
      hide IsSubDagOf, AreSubDags;
      hide Due, CanWalk, NoRepeats, Settled, SortSubDag, InOrder, Walk, Reaches, Concat, SubDags, After, Committable;
      hide Elements, LastRound;
      CommittableOnce(dag, gcDepth, committed, lastCommitRound, leaders);
      ghost var all := SubDags(dag, gcDepth, committed, lastCommitRound, leaders);
      ghost var after := After(dag, gcDepth, committed, lastCommitRound, leaders);
      LastRoundStep(lastCommitRound, leaders, 0);
      subDags := [];
      var i := 0;
      assert leaders[0..] == leaders;
      while i < |leaders|
        invariant 0 <= i <= |leaders| && MayCommit(leaders[i..])
        invariant subDags + SubDags(dag, gcDepth, committed, lastCommitRound, leaders[i..]) == all
        invariant After(dag, gcDepth, committed, lastCommitRound, leaders[i..]) == after
        invariant lastCommitRound == LastRound(old(lastCommitRound), leaders[..i])
      {
        ghost var rest, done := leaders[i..], subDags;
        assert rest[0] == leaders[i] && rest[1..] == leaders[i + 1..];
        CommittableNext(dag, gcDepth, committed, lastCommitRound, rest);
        CommitFirst(dag, gcDepth, committed, lastCommitRound, rest);
        LastRoundStep(old(lastCommitRound), leaders, i);
        var subDag := LinearizeSubDag(leaders[i]);
        subDags := subDags + [subDag];
        lastCommitRound := leaders[i].round;
        i := i + 1;
        ghost var later := SubDags(dag, gcDepth, committed, lastCommitRound, leaders[i..]);
        assert done + ([subDag] + later) == subDags + later;
      }
      assert leaders[..|leaders|] == leaders && leaders[i..] == [];
      if leaders != [] { LastRoundStep(old(lastCommitRound), leaders, |leaders| - 1); }
      CommitNone(dag, gcDepth, committed, lastCommitRound);
      assert subDags + [] == subDags;
    }
  }

  lemma LastRoundStep(last: nat, leaders: seq<BlockRef>, i: nat)
    requires i <= |leaders|
    ensures LastRound(last, leaders[..0]) == last
    ensures i < |leaders| ==> LastRound(last, leaders[..i + 1]) == leaders[i].round
  {}

  lemma CommittableOnce(dag: Dag, depth: nat, committed: set<BlockRef>, last: nat, leaders: seq<BlockRef>)
    requires Committable(dag, depth, committed, last, leaders)
    ensures var all := Concat(SubDags(dag, depth, committed, last, leaders));
            && NoRepeats(all) && Elements(all) !! committed
            && After(dag, depth, committed, last, leaders) == committed + Elements(all)
    ensures AreSubDags(dag, depth, committed, last, leaders, SubDags(dag, depth, committed, last, leaders))
  {
    hide Due, Settled, AreSubDags;
    NothingTwice(dag, depth, committed, last, leaders);
    SubDagsAreHistories(dag, depth, committed, last, leaders);
  }

  lemma CommitNone(dag: Dag, depth: nat, committed: set<BlockRef>, last: nat)
    requires Due(dag, depth, last, [])
    ensures SubDags(dag, depth, committed, last, []) == [] && After(dag, depth, committed, last, []) == committed
  {}

  lemma WalkNothing(dag: Dag, gc: nat, committed: set<BlockRef>)
    requires CanWalk(dag, gc)
    ensures Walk(dag, gc, committed, []) == ([], committed)
  {}

  // ---------- Total order ----------

  function LeaderRefs(s: seq<LeaderStatus>): seq<BlockRef> {
    if s == [] then [] else (if s[0].Commit? then [s[0].block.ref] else []) + LeaderRefs(s[1..])
  }

  lemma {:induction false} LeaderRefsOfPrefix(p: seq<LeaderStatus>, q: seq<LeaderStatus>)
    requires p <= q
    ensures LeaderRefs(p) <= LeaderRefs(q)
  {
    if p != [] { LeaderRefsOfPrefix(p[1..], q[1..]); }
  }

  ghost predicate DistinctSlots(sched: nat -> Slot) {
    forall i: nat, j: nat {:trigger sched(i), sched(j)} | i < j :: sched(i) != sched(j)
  }

  /** The block lies in a slot from `lo` on. */
  ghost predicate FromSlot(sched: nat -> Slot, lo: nat, r: BlockRef) {
    exists k: nat :: lo <= k && r.SlotOf() == sched(k)
  }

  /** The block lies in a slot from `lo` on and before `hi`. */
  ghost predicate InSlots(sched: nat -> Slot, lo: nat, hi: nat, r: BlockRef) {
    exists k: nat :: lo <= k < hi && r.SlotOf() == sched(k)
  }

  /** At most so many decisions are taken from one call. */
  function UpTo(s: seq<LeaderStatus>, limit: nat): (taken: seq<LeaderStatus>)
    ensures taken <= s && |taken| <= limit && (taken == s || |taken| == limit)
  {
    if |s| <= limit then s else s[..limit]
  }

  /** Leaders come out of the committer in slot order. */
  lemma {:induction false} LeadersInSlotOrder(c: Committee, v: Dag, sched: nat -> Slot, lo: nat, hi: nat, limit: nat)
    requires lo <= hi && Ready(v, sched, lo) && DistinctSlots(sched)
    ensures var decided := UpTo(TakeDecided(Statuses(c, v, sched, lo, hi)), limit);
      var leaders := LeaderRefs(decided);
      LeadersIn(v, sched, lo, lo + |decided|, leaders) && InCommitOrder(leaders)
    decreases hi - lo
  {
    hide Decide, Walkable, StatusAt, Statuses, DistinctSlots, InRoundOrder, LeadersIn, InCommitOrder;
    NoLeadersYet(v, sched, lo);
    var s := Statuses(c, v, sched, lo, hi);
    if lo < hi && s[0].IsDecided() && limit > 0 {
      StatusesCons(c, v, sched, lo, hi);
      var later := Statuses(c, v, sched, lo + 1, hi);
      assert s[1..] == later;
      LeadersInSlotOrder(c, v, sched, lo + 1, hi, limit - 1);
      var decided := UpTo(TakeDecided(later), limit - 1);
      assert UpTo(TakeDecided(s), limit) == [s[0]] + decided;
      LeadersCons(v, sched, lo, lo + 1 + |decided|, s[0], decided);
    }
  }

  ghost predicate LeadersIn(v: Dag, sched: nat -> Slot, lo: nat, end: nat, leaders: seq<BlockRef>) {
    forall l | l in leaders :: l in v && InSlots(sched, lo, end, l)
  }

  lemma NoLeadersYet(v: Dag, sched: nat -> Slot, lo: nat)
    ensures LeaderRefs([]) == [] && LeadersIn(v, sched, lo, lo, []) && InCommitOrder([])
  {}

  lemma LeadersCons(v: Dag, sched: nat -> Slot, lo: nat, end: nat, first: LeaderStatus, later: seq<LeaderStatus>)
    requires lo < end && InRoundOrder(sched) && DistinctSlots(sched) && IsFor(first, sched(lo))
    requires first.Commit? ==> first.block.ref in v
    requires LeadersIn(v, sched, lo + 1, end, LeaderRefs(later)) && InCommitOrder(LeaderRefs(later))
    ensures var leaders := LeaderRefs([first] + later); LeadersIn(v, sched, lo, end, leaders) && InCommitOrder(leaders)
  {
    hide InRoundOrder, DistinctSlots;
    var rest := LeaderRefs(later);
    assert ([first] + later)[1..] == later;
    assert LeaderRefs([first] + later) == if first.Commit? then [first.block.ref] + rest else rest;
    if first.Commit? { assert InSlots(sched, lo, end, first.block.ref); }
    hide InSlots, LeaderRefs, InCommitOrder;
    forall l | l in rest
      ensures InSlots(sched, lo, end, l) && (first.Commit? ==> first.block.ref.round <= l.round && first.block.ref != l)
    {
      LaterSlot(sched, lo, end, l);
    }
    if first.Commit? { ConsInCommitOrder(first.block.ref, rest); }
  }

  lemma ConsInCommitOrder(leader: BlockRef, rest: seq<BlockRef>)
    requires InCommitOrder(rest) && forall l | l in rest :: leader.round <= l.round && leader != l
    ensures InCommitOrder([leader] + rest)
  {}

  lemma LaterSlot(sched: nat -> Slot, lo: nat, hi: nat, r: BlockRef)
    requires InRoundOrder(sched) && DistinctSlots(sched) && InSlots(sched, lo + 1, hi, r)
    ensures InSlots(sched, lo, hi, r) && sched(lo).round <= r.round && r.SlotOf() != sched(lo)
  {
    var k: nat :| lo + 1 <= k < hi && r.SlotOf() == sched(k);
    assert sched(lo) != sched(k);
  }

  lemma SlotRound(sched: nat -> Slot, lo: nat, hi: nat, r: BlockRef)
    requires InRoundOrder(sched) && InSlots(sched, lo, hi, r)
    ensures sched(lo).round <= r.round && FromSlot(sched, lo, r)
  {
    var k: nat :| lo <= k < hi && r.SlotOf() == sched(k);
  }

  /** Nothing that a leader before slot `next` commits lies in a slot from `next` on. */
  lemma NotInLaterSlot(sched: nat -> Slot, next: nat, leader: BlockRef, r: BlockRef)
    requires InRoundOrder(sched) && DistinctSlots(sched) && InSlots(sched, 0, next, leader)
    requires r == leader || r.round < leader.round
    ensures !FromSlot(sched, next, r)
  {
    var k: nat :| k < next && leader.SlotOf() == sched(k);
    forall j: nat | next <= j ensures r.SlotOf() != sched(j) { assert sched(k) != sched(j); }
  }

  /** Committing the leaders before slot `next` leaves the slots from `next` on alone. */
  lemma {:induction false} LaterSlotsStayOpen(dag: Dag, depth: nat, committed: set<BlockRef>, last: nat,
                                              leaders: seq<BlockRef>,
                                              sched: nat -> Slot, next: nat)
    requires Due(dag, depth, last, leaders) && Settled(dag, Gc(last, depth), committed, {})
    requires (forall l | l in leaders :: l !in committed && InSlots(sched, 0, next, l)) && InRoundOrder(sched)
      && DistinctSlots(sched)
    requires forall r | r in committed :: !FromSlot(sched, next, r)
    ensures forall r | r in After(dag, depth, committed, last, leaders) :: !FromSlot(sched, next, r)
    decreases |leaders|
  {
    hide Due, Walk, CanWalk, Settled, NoRepeats, Reaches, FromSlot, InSlots, InRoundOrder, DistinctSlots;
    if leaders != [] {
      DueNext(dag, depth, last, leaders);
      CanWalkWhenDue(dag, depth, last, leaders);
      var gc, leader := Gc(last, depth), leaders[0];
      var (out, after) := Walk(dag, gc, committed + {leader}, [leader]);
      SubDagIsHistory(dag, gc, committed, leader);
      SettledLater(dag, gc, Gc(leader.round, depth), after);
      forall l | l in leaders[1..] ensures l !in after { CommitsNoLaterLeader(dag, gc, committed, leader, l); }
      forall r | r in after ensures !FromSlot(sched, next, r) {
        if r !in committed {
          assert r in out;
          if r != leader { ReachesLower(dag, gc, leader, r); }
          NotInLaterSlot(sched, next, leader, r);
        }
      }
      LaterSlotsStayOpen(dag, depth, after, leader.round, leaders[1..], sched, next);
    }
  }

  /** The linearizer works on the committer's DAG and has committed nothing of what is
      still to be decided. */
  ghost predicate IsPairedWith(a: Linearizer, u: UniversalCommitter, lastDecided: Slot)
    requires u.Leaders() >= 1
    reads a
  {
    && a.dag == u.dag && a.gcDepth == u.gcDepth && a.lastCommitRound == u.lastCommitRound
    && Settled(a.dag, a.GcRound(), a.committed, {})
    && forall lo: nat, r | u.LooksFrom(lastDecided, lo) && r in a.committed ::
         !FromSlot(u.Sched(), u.AfterGenesis(lo), r)
  }

  lemma ViewCanWalk(u: UniversalCommitter, n: Network)
    requires u.Valid(n)
    ensures CanWalk(u.dag, u.GcRound())
  {}

  lemma StartRound(u: UniversalCommitter, n: Network, lastDecided: Slot, lo: nat)
    requires u.Valid(n) && u.lastCommitRound <= lastDecided.round && u.FirstRound(lastDecided) * u.Leaders() <= lo
    ensures u.Sched()(u.AfterGenesis(lo)).round >= u.lastCommitRound && u.Sched()(u.AfterGenesis(lo)).round >= 1
    ensures InRoundOrder(u.Sched())
  {
    hide Sound, IsView, IsPipeline;
    var leaders, start := u.Leaders(), u.AfterGenesis(lo);
    ScheduledInOrder(u.elect, leaders);
    u.GenesisIndex(start);
    MulKeepsOrder(leaders, u.lastCommitRound, u.FirstRound(lastDecided));
    IndexOf(u.lastCommitRound, 0, leaders);
    DivMonotone(u.lastCommitRound * leaders, start, leaders);
  }

  /** What the committer decides, the linearizer may commit. */
  lemma DecidedMayCommit(u: UniversalCommitter, a: Linearizer, lastDecided: Slot, n: Network,
                         all: seq<LeaderStatus>, lo: nat, limit: nat)
    requires u.Valid(n) && u.lastCommitRound <= lastDecided.round && IsPairedWith(a, u, lastDecided)
    requires DistinctSlots(u.Sched()) && u.Decides(lastDecided, all, lo)
    ensures a.MayCommit(LeaderRefs(UpTo(all, limit)))
  {
    hide Sound, IsView, IsPipeline, Scheduled, Statuses, TakeDecided, LeaderRefs, CanWalk, Settled, FromSlot, InSlots;
    hide DistinctSlots, Ready, InCommitOrder;
    ViewCanWalk(u, n);
    var decided := UpTo(all, limit);
    if all == [] {
      NoLeadersYet(u.dag, u.Sched(), lo);
    } else {
      var start, sched := u.AfterGenesis(lo), u.Sched();
      StartRound(u, n, lastDecided, lo);
      LeadersInSlotOrder(u.committee, u.dag, sched, start, u.End(), limit);
      forall l | l in LeaderRefs(decided)
        ensures l in u.dag && l.round >= u.lastCommitRound && l.round >= 1 && l !in a.committed
      {
        SlotRound(sched, start, start + |decided|, l);
      }
    }
  }

  /** One validator decides what it can and commits it, at most `limit` decisions. */
  method DecideAndCommit(u: UniversalCommitter, a: Linearizer, lastDecided: Slot, limit: nat, ghost n: Network)
    returns (decided: seq<LeaderStatus>, subDags: seq<seq<BlockRef>>, ghost all: seq<LeaderStatus>, ghost lo: nat)
    requires u.Valid(n) && u.lastCommitRound <= lastDecided.round && IsPairedWith(a, u, lastDecided)
    requires DistinctSlots(u.Sched())
    modifies a`committed, a`lastCommitRound
    ensures u.Decides(lastDecided, all, lo) && decided == UpTo(all, limit)
    ensures decided <= all && |decided| == if |all| <= limit then |all| else limit
    ensures AreSubDags(u.dag, u.gcDepth, old(a.committed), u.lastCommitRound, LeaderRefs(decided), subDags)
    ensures Due(u.dag, u.gcDepth, u.lastCommitRound, LeaderRefs(decided))
    ensures subDags == SubDags(u.dag, u.gcDepth, old(a.committed), u.lastCommitRound, LeaderRefs(decided))
    ensures a.committed == After(u.dag, u.gcDepth, old(a.committed), u.lastCommitRound, LeaderRefs(decided))
    ensures a.lastCommitRound == LastRound(u.lastCommitRound, LeaderRefs(decided))
    ensures NoRepeats(Concat(subDags)) && a.committed == old(a.committed) + Elements(Concat(subDags))
    ensures a.MayCommit([])
    ensures all != [] ==> forall r | r in a.committed :: !FromSlot(u.Sched(), u.AfterGenesis(lo) + |decided|, r)
  {
    hide Sound, IsView, IsPipeline, Scheduled, Statuses, TakeDecided, LeaderRefs, CanWalk, Settled, FromSlot;
    hide DistinctSlots, Ready, Due, SubDags, Concat, NoRepeats, After, UpTo, AreSubDags;
    var decisions;
    decisions, lo := u.TryDecide(lastDecided, n);
    all := decisions;
    decided := UpTo(decisions, limit);
    DecidedMayCommit(u, a, lastDecided, n, all, lo, limit);
    if all != [] { DecidedSlotsClose(u, a, lastDecided, n, all, lo, limit); }
    subDags := a.HandleCommit(LeaderRefs(decided));
  }

  /** Afterwards only decided slots hold committed blocks, so the next decisions may be
      committed in turn. */
  lemma DecidedSlotsClose(u: UniversalCommitter, a: Linearizer, lastDecided: Slot, n: Network,
                          all: seq<LeaderStatus>, lo: nat, limit: nat)
    requires u.Valid(n) && u.lastCommitRound <= lastDecided.round && IsPairedWith(a, u, lastDecided)
    requires DistinctSlots(u.Sched()) && u.Decides(lastDecided, all, lo) && all != []
    requires a.MayCommit(LeaderRefs(UpTo(all, limit)))
    ensures var leaders := LeaderRefs(UpTo(all, limit));
      forall r | r in After(a.dag, a.gcDepth, a.committed, a.lastCommitRound, leaders) ::
        !FromSlot(u.Sched(), u.AfterGenesis(lo) + |UpTo(all, limit)|, r)
  {
    hide Sound, IsView, IsPipeline, Scheduled, Statuses, TakeDecided, LeaderRefs, CanWalk, Settled, DistinctSlots;
    hide Ready, InRoundOrder, InCommitOrder, Due, After;
    var sched, start, decided := u.Sched(), u.AfterGenesis(lo), UpTo(all, limit);
    var next := start + |decided|;
    StartRound(u, n, lastDecided, lo);
    LeadersInSlotOrder(u.committee, u.dag, sched, start, u.End(), limit);
    forall r | r in a.committed ensures !FromSlot(sched, next, r) { assert !FromSlot(sched, start, r); }
    assert forall l | l in LeaderRefs(decided) :: InSlots(sched, start, next, l) && InSlots(sched, 0, next, l);
    LaterSlotsStayOpen(a.dag, a.gcDepth, a.committed, a.lastCommitRound, LeaderRefs(decided), sched, next);
  }

  lemma UpToKeepsPrefix(p: seq<LeaderStatus>, q: seq<LeaderStatus>, i: nat, j: nat)
    requires p <= q
    ensures UpTo(p, i) <= UpTo(q, j) || UpTo(q, j) <= UpTo(p, i)
  {}

  /** Two validators that have committed the same so far: what each commits next, sub-dag by
      sub-dag and block by block, extends what the other does. */
  method CommitInTotalOrder(u: UniversalCommitter, a: Linearizer, limit: nat,
                            u': UniversalCommitter, b: Linearizer, limit': nat, lastDecided: Slot, ghost n: Network)
    returns (x: seq<seq<BlockRef>>, y: seq<seq<BlockRef>>, ghost p: seq<LeaderStatus>, ghost q: seq<LeaderStatus>,
             ghost lo: nat, ghost lo': nat)
    requires u.Valid(n) && u'.Valid(n)
    requires u.leadersPerRound == u'.leadersPerRound && u.elect == u'.elect && u.gcDepth == u'.gcDepth
    requires a != b && IsPairedWith(a, u, lastDecided) && IsPairedWith(b, u', lastDecided) && DistinctSlots(u.Sched())
    requires a.committed == b.committed && u.lastCommitRound == u'.lastCommitRound <= lastDecided.round
    modifies a`committed, a`lastCommitRound, b`committed, b`lastCommitRound
    ensures u.Decides(lastDecided, p, lo) && u'.Decides(lastDecided, q, lo')
    ensures AreSubDags(u.dag, u.gcDepth, old(a.committed), u.lastCommitRound, LeaderRefs(UpTo(p, limit)), x)
    ensures AreSubDags(u'.dag, u.gcDepth, old(b.committed), u.lastCommitRound, LeaderRefs(UpTo(q, limit')), y)
    ensures x <= y || y <= x
    ensures NoRepeats(Concat(x)) && NoRepeats(Concat(y))
  {
    hide Sound, IsView, IsPipeline, Scheduled, Statuses, TakeDecided, LeaderRefs, CanWalk, Settled, FromSlot;
    hide DistinctSlots, Ready, Due, SubDags, Concat, NoRepeats, After, UpTo, AreSubDags;
    ghost var committed, last := a.committed, u.lastCommitRound;
    var taken, taken';
    taken, x, p, lo := DecideAndCommit(u, a, lastDecided, limit, n);
    taken', y, q, lo' := DecideAndCommit(u', b, lastDecided, limit', n);
    DecidedExtend(u, u', lastDecided, n, p, lo, q, lo');
    if p <= q { UpToKeepsPrefix(p, q, limit, limit'); } else { UpToKeepsPrefix(q, p, limit', limit); }
    ViewsAgree(n, u.AsView(), u'.AsView());
    if taken <= taken' {
      LeaderRefsOfPrefix(taken, taken');
      SubDagsAgree(u.dag, u'.dag, u.gcDepth, committed, last, LeaderRefs(taken), LeaderRefs(taken'));
    } else {
      LeaderRefsOfPrefix(taken', taken);
      SubDagsAgree(u'.dag, u.dag, u.gcDepth, committed, last, LeaderRefs(taken'), LeaderRefs(taken));
    }
  }

  lemma ViewsAgree(n: Network, v: View, w: View)
    requires IsView(n, v) && IsView(n, w)
    ensures forall r | r in v.dag && r in w.dag :: v.dag[r] == w.dag[r]
  {}
}
