/** Serving blocks and commits to peers (consensus/core/src/block_sync_service.rs). A block
    is returned by its reference, which identifies it. */
module BlockSync {
  import opened Committees
  import opened Blocks
  import opened StakeAggregators

  // ---------- The periodic-sync merge ----------

  /** Where to go on fetching for one authority. */
  datatype Entry = Entry(start: nat, authority: nat, limit: nat)

  predicate Less(e: Entry, f: Entry) {
    e.start < f.start || (e.start == f.start
      && (e.authority < f.authority || (e.authority == f.authority && e.limit < f.limit)))
  }

  type Limits = map<nat, nat>

  /** Strictly between what the peer has and the limit. */
  predicate InWindow(after: seq<nat>, limits: Limits, r: BlockRef) {
    r.author < |after| && r.author in limits && after[r.author] < r.round < limits[r.author]
  }

  predicate SameSlot(r: BlockRef, s: BlockRef) { r.author == s.author && r.round == s.round }

  /** A block of that authority and round is among them. */
  ghost predicate Returned(blocks: seq<BlockRef>, r: BlockRef) {
    exists k | 0 <= k < |blocks| :: SameSlot(blocks[k], r)
  }

  ghost predicate Increasing(popped: seq<Entry>) {
    forall i, j | 0 <= i < j < |popped| :: Less(popped[i], popped[j])
  }

  ghost predicate OnePerSlot(blocks: seq<BlockRef>) {
    forall i, j | 0 <= i < j < |blocks| :: !SameSlot(blocks[i], blocks[j])
  }

  /** What the merge adds: stored blocks of the window, one per authority and round. Below
      the cap nothing in the window is left out. */
  ghost predicate Merged(store: Dag, after: seq<nat>, limits: Limits, room: nat, found: seq<BlockRef>) {
    && |found| <= room
    && (forall r | r in found :: r in store && InWindow(after, limits, r))
    && OnePerSlot(found)
    && (|found| < room ==> forall r | r in store && InWindow(after, limits, r) :: Returned(found, r))
  }

  /** The lowest stored block in the range of an entry. */
  ghost predicate IsFirst(store: Dag, e: Entry, b: BlockRef) {
    && b in store && InRange(b, e.authority, e.start, e.limit)
    && forall r | r in store && InRange(r, e.authority, e.start, e.limit) :: r == b || Sooner(b, r)
  }

  ghost predicate HasFirst(store: Dag, e: Entry) { exists b :: IsFirst(store, e, b) }

  /** What the popped entries yield: of each, the lowest stored block in its range. */
  ghost function Yield(store: Dag, popped: seq<Entry>): seq<BlockRef> {
    if popped == [] then []
    else
      var e := popped[|popped| - 1];
      Yield(store, popped[..|popped| - 1])
      + if HasFirst(store, e) then var b :| IsFirst(store, e, b); [b] else []
  }

  predicate IsInitial(after: seq<nat>, limits: Limits, k: Entry) {
    && k.authority < |after| && k.authority in limits && k.limit == limits[k.authority]
    && k.start == after[k.authority] + 1 < k.limit
  }

  predicate Follows(e: Entry, b: BlockRef, k: Entry) {
    b.round + 1 < e.limit && k == Entry(b.round + 1, e.authority, e.limit)
  }

  /** An entry that is pushed at the start, or after one of the popped entries yielded. */
  ghost predicate IsKey(store: Dag, after: seq<nat>, limits: Limits, popped: seq<Entry>, k: Entry) {
    IsInitial(after, limits, k) || exists e, b :: e in popped && IsFirst(store, e, b) && Follows(e, b, k)
  }

  /** Always the least entry that was pushed and not yet popped is popped, until there is none
      or the response is full; the blocks returned are what the popped entries yield. */
  ghost predicate LowestFirst(store: Dag, after: seq<nat>, limits: Limits, room: nat, found: seq<BlockRef>,
                              popped: seq<Entry>) {
    && found == Yield(store, popped) && |found| <= room && Increasing(popped)
    && (forall e | e in popped :: IsKey(store, after, limits, popped, e))
    && (forall k | IsKey(store, after, limits, popped, k) && k !in popped ::
          |found| == room && popped != [] && Less(popped[|popped| - 1], k))
    && (|found| == room ==> popped != [] && HasFirst(store, popped[|popped| - 1]))
  }

  /** Nothing below the last popped entry was passed over, even if the response is full. */
  ghost predicate BelowIsDone(store: Dag, after: seq<nat>, limits: Limits, found: seq<BlockRef>, popped: seq<Entry>) {
    popped != [] ==>
      var e := popped[|popped| - 1];
      forall r | r in store && InWindow(after, limits, r) && IsBelow(r, e) :: Returned(found, r)
  }

  predicate IsBelow(r: BlockRef, e: Entry) { r.round < e.start || (r.round == e.start && r.author < e.authority) }

  /** The order of the merge. */
  ghost predicate InRoundOrder(store: Dag, after: seq<nat>, limits: Limits, room: nat, found: seq<BlockRef>,
                               popped: seq<Entry>) {
    LowestFirst(store, after, limits, room, found, popped) && BelowIsDone(store, after, limits, found, popped)
  }

  /** The heap holds exactly what was pushed and not popped. */
  ghost predicate HeapIsRest(store: Dag, after: seq<nat>, limits: Limits, popped: seq<Entry>, heap: set<Entry>) {
    && (forall e | e in popped :: IsKey(store, after, limits, popped, e))
    && forall k :: k in heap <==> IsKey(store, after, limits, popped, k) && k !in popped
  }

  lemma YieldMore(store: Dag, popped: seq<Entry>, e: Entry, b: BlockRef)
    ensures IsFirst(store, e, b) ==> Yield(store, popped + [e]) == Yield(store, popped) + [b]
    ensures (forall x :: !IsFirst(store, e, x)) ==> Yield(store, popped + [e]) == Yield(store, popped)
  {
    assert (popped + [e])[..|popped|] == popped;
  }

  lemma KeysGrow(store: Dag, after: seq<nat>, limits: Limits, popped: seq<Entry>, e: Entry, k: Entry)
    ensures IsKey(store, after, limits, popped + [e], k)
      <==> IsKey(store, after, limits, popped, k) || exists b :: IsFirst(store, e, b) && Follows(e, b, k)
  {
    if x, b :| x in popped && IsFirst(store, x, b) && Follows(x, b, k) { assert x in popped + [e]; }
    if b :| IsFirst(store, e, b) && Follows(e, b, k) { assert e in popped + [e]; }
  }

  lemma PoppedAreLess(heap: set<Entry>, popped: seq<Entry>, e: Entry)
    requires PoppedOk(heap, popped) && e in heap
    ensures forall x | x in popped :: Less(x, e)
  {
    forall x | x in popped ensures Less(x, e) {
      var i :| 0 <= i < |popped| && popped[i] == x;
      assert i < |popped| - 1 ==> Less(popped[i], popped[|popped| - 1]);
    }
  }

  /** Popping the least entry, with what it pushes. */
  lemma HeapNext(store: Dag, after: seq<nat>, limits: Limits, popped: seq<Entry>, heap: set<Entry>, e: Entry,
                 heap': set<Entry>)
    requires HeapIsRest(store, after, limits, popped, heap) && PoppedOk(heap, popped) && e in heap
    requires forall k :: k in heap' <==> (k in heap && k != e) || exists b :: IsFirst(store, e, b) && Follows(e, b, k)
    ensures HeapIsRest(store, after, limits, popped + [e], heap')
  {
    hide IsKey;
    PoppedAreLess(heap, popped, e);
    var popped' := popped + [e];
    forall k
      ensures k in heap' <==> IsKey(store, after, limits, popped', k) && k !in popped'
      ensures k in popped' ==> IsKey(store, after, limits, popped', k)
    {
      KeysGrow(store, after, limits, popped, e, k);
      assert k in popped' <==> k in popped || k == e;
    }
  }

  ghost predicate HeapOk(after: seq<nat>, limits: Limits, heap: set<Entry>) {
    && (forall e | e in heap ::
          e.authority < |after| && e.authority in limits && e.limit == limits[e.authority]
            && after[e.authority] < e.start < e.limit)
    && (forall e, f | e in heap && f in heap && e.authority == f.authority :: e == f)
  }

  /** Whoever is not returned yet is still ahead of some entry. */
  ghost predicate Covered(store: Dag, after: seq<nat>, limits: Limits, heap: set<Entry>, found: seq<BlockRef>) {
    forall r | r in store && InWindow(after, limits, r) :: Returned(found, r) || Ahead(heap, r)
  }

  ghost predicate Ahead(heap: set<Entry>, r: BlockRef) {
    exists e :: e in heap && e.authority == r.author && e.start <= r.round
  }

  ghost predicate FoundOk(store: Dag, after: seq<nat>, limits: Limits, heap: set<Entry>, found: seq<BlockRef>) {
    && OnePerSlot(found)
    && (forall r | r in found :: r in store && InWindow(after, limits, r))
    && (forall r, e | r in found && e in heap && e.authority == r.author :: r.round < e.start)
  }

  ghost predicate PoppedOk(heap: set<Entry>, popped: seq<Entry>) {
    && Increasing(popped)
    && (popped != [] ==> forall e | e in heap :: Less(popped[|popped| - 1], e))
  }

  /** Rounds still to be looked at. */
  ghost function Work(heap: set<Entry>): set<(nat, nat)> {
    set e, r: nat | e in heap && e.start <= r < e.limit :: (e.authority, r)
  }

  predicate InRange(r: BlockRef, author: nat, start: nat, end: nat) { r.author == author && start <= r.round < end }

  predicate Sooner(r: BlockRef, s: BlockRef) { r.round < s.round || (r.round == s.round && r.digest < s.digest) }

  /** The lowest stored block of an author with start <= round < end. */
  method ScanFirst(store: Dag, author: nat, start: nat, end: nat) returns (first: Option<BlockRef>)
    ensures first == None ==> forall r | r in store :: !InRange(r, author, start, end)
    ensures first.Some? ==> IsFirst(store, Entry(start, author, end), first.value)
    ensures first.Some? ==> forall r | r in store && r.author == author && start <= r.round < end ::
      first.value.round < r.round || (first.value.round == r.round && first.value.digest <= r.digest)
  {
    first := None;
    var rest := store.Keys;
    while rest != {}
      invariant rest <= store.Keys
      invariant first == None ==> forall r | r in store && r !in rest :: !InRange(r, author, start, end)
      invariant first.Some? ==>
        && first.value in store && InRange(first.value, author, start, end)
        && forall r | r in store && r !in rest && InRange(r, author, start, end) ::
             r == first.value || Sooner(first.value, r)
      decreases rest
    {
      var r :| r in rest;
      rest := rest - {r};
      if InRange(r, author, start, end) && (first == None || Sooner(r, first.value)) { first := Some(r); }
    }
  }

  method PopLeast(heap: set<Entry>) returns (least: Entry, rest: set<Entry>)
    requires heap != {}
    ensures least in heap && rest == heap - {least} && forall e | e in rest :: Less(least, e)
  {
    least :| least in heap;
    var left := heap - {least};
    while left != {}
      invariant left <= heap && least in heap && least !in left
      invariant forall e | e in heap && e !in left :: e == least || Less(least, e)
      decreases left
    {
      var e :| e in left;
      left := left - {e};
      if Less(e, least) { least := e; }
    }
    rest := heap - {least};
  }

  /** A popped entry without a stored block is done with. */
  lemma NothingFound(store: Dag, after: seq<nat>, limits: Limits, heap: set<Entry>, found: seq<BlockRef>, e: Entry)
    requires HeapOk(after, limits, heap) && FoundOk(store, after, limits, heap, found)
      && Covered(store, after, limits, heap, found)
    requires e in heap && forall r | r in store :: !InRange(r, e.authority, e.start, e.limit)
    ensures HeapOk(after, limits, heap - {e}) && FoundOk(store, after, limits, heap - {e}, found)
    ensures Covered(store, after, limits, heap - {e}, found) && Work(heap - {e}) < Work(heap)
  {
    hide OnePerSlot;
    forall r | r in store && InWindow(after, limits, r) && Ahead(heap, r) ensures Ahead(heap - {e}, r) {
      var f :| f in heap && f.authority == r.author && f.start <= r.round;
      assert f != e;
    }
    WorkShrinks(after, limits, heap, e);
  }

  lemma WorkShrinks(after: seq<nat>, limits: Limits, heap: set<Entry>, e: Entry)
    requires HeapOk(after, limits, heap) && e in heap
    ensures Work(heap - {e}) < Work(heap)
    ensures forall start | e.start < start < e.limit ::
      Work(heap - {e} + {Entry(start, e.authority, e.limit)}) < Work(heap)
  {
    assert (e.authority, e.start) in Work(heap);
    assert (e.authority, e.start) !in Work(heap - {e});
    forall start | e.start < start < e.limit
      ensures Work(heap - {e} + {Entry(start, e.authority, e.limit)}) < Work(heap)
    {
      var heap' := heap - {e} + {Entry(start, e.authority, e.limit)};
      assert (e.authority, e.start) !in Work(heap');
      forall p | p in Work(heap') ensures p in Work(heap) {
        var f: Entry, r: nat :| f in heap' && f.start <= r < f.limit && p == (f.authority, r);
        if f !in heap { assert e.start <= r < e.limit; }
      }
    }
  }

  function After(heap: set<Entry>, e: Entry, b: BlockRef): set<Entry> {
    if b.round + 1 < e.limit then heap - {e} + {Entry(b.round + 1, e.authority, e.limit)} else heap - {e}
  }

  lemma FoundNext(store: Dag, after: seq<nat>, limits: Limits, heap: set<Entry>, found: seq<BlockRef>, e: Entry,
                  b: BlockRef)
    requires HeapOk(after, limits, heap) && FoundOk(store, after, limits, heap, found) && e in heap
    requires b in store && InRange(b, e.authority, e.start, e.limit)
    ensures HeapOk(after, limits, After(heap, e, b)) && FoundOk(store, after, limits, After(heap, e, b), found + [b])
    ensures Work(After(heap, e, b)) < Work(heap)
  {
    WorkShrinks(after, limits, heap, e);
    var found' := found + [b];
    forall i, j | 0 <= i < j < |found'| ensures !SameSlot(found'[i], found'[j]) {
      if j == |found| { assert found[i] in found; }
    }
  }

  lemma CoveredNext(store: Dag, after: seq<nat>, limits: Limits, heap: set<Entry>, found: seq<BlockRef>, e: Entry,
                    b: BlockRef)
    requires HeapOk(after, limits, heap) && Covered(store, after, limits, heap, found) && e in heap
    requires b in store && InRange(b, e.authority, e.start, e.limit)
    requires forall r | r in store && InRange(r, e.authority, e.start, e.limit) :: r == b || Sooner(b, r)
    ensures Covered(store, after, limits, After(heap, e, b), found + [b])
  {
    var heap', found' := After(heap, e, b), found + [b];
    forall r | r in store && InWindow(after, limits, r) ensures Returned(found', r) || Ahead(heap', r) {
      if Returned(found, r) {
        var k :| 0 <= k < |found| && SameSlot(found[k], r);
        assert SameSlot(found'[k], r);
      } else {
        var f :| f in heap && f.authority == r.author && f.start <= r.round;
        if f != e {
          assert f in heap';
        } else if r.round == b.round {
          assert SameSlot(found'[|found|], r);
        } else {
          assert Entry(b.round + 1, e.authority, e.limit) in heap';
        }
      }
    }
  }

  /** Everything below the least entry is returned. */
  lemma BelowLeastIsReturned(store: Dag, after: seq<nat>, limits: Limits, heap: set<Entry>, found: seq<BlockRef>,
                             popped: seq<Entry>, e: Entry, b: BlockRef)
    requires Covered(store, after, limits, heap, found) && e in heap && forall f | f in heap - {e} :: Less(e, f)
    ensures BelowIsDone(store, after, limits, found, popped + [e])
      && BelowIsDone(store, after, limits, found + [b], popped + [e])
  {
    assert forall f | f in heap :: f == e || f in heap - {e};
    forall r | r in store && InWindow(after, limits, r) && IsBelow(r, e)
      ensures Returned(found, r) && Returned(found + [b], r)
    {
      assert !Ahead(heap, r);
      var k :| 0 <= k < |found| && SameSlot(found[k], r);
      assert SameSlot((found + [b])[k], r);
    }
  }

  lemma PoppedNext(heap: set<Entry>, popped: seq<Entry>, e: Entry, heap': set<Entry>)
    requires PoppedOk(heap, popped) && e in heap && forall f | f in heap' :: Less(e, f)
    ensures PoppedOk(heap', popped + [e])
  {
    assert forall i | 0 <= i < |popped| - 1 :: Less(popped[i], popped[|popped| - 1]);
  }

  /** Fetches across authorities, lowest start round first, until the response is full. */
  method MergeByRound(store: Dag, after: seq<nat>, limits: Limits, room: nat)
    returns (found: seq<BlockRef>, ghost popped: seq<Entry>)
    requires room > 0 && forall a | a in limits :: a < |after|
    ensures Merged(store, after, limits, room, found)
    ensures InRoundOrder(store, after, limits, room, found, popped)
    ensures |found| <= room && forall r | r in found ::
      r in store && r.author in limits && after[r.author] < r.round < limits[r.author]
    ensures |found| < room ==>
      forall r | r in store && r.author in limits && after[r.author] < r.round < limits[r.author] ::
        exists s :: s in found && s.author == r.author && s.round == r.round
  {
    hide Merging, Work, Merged, InRoundOrder;
    var heap := StartHeap(store, after, limits);
    found, popped := [], [];
    while heap != {}
      invariant Merging(store, after, limits, heap, found, popped) && |found| < room
      decreases Work(heap)
    {
      var e, rest := PopLeast(heap);
      var first := ScanFirst(store, e.authority, e.start, e.limit);
      if first.Some? {
        var b := first.value;
        MergeOne(store, after, limits, heap, found, popped, e, b);
        found, popped := found + [b], popped + [e];
        if |found| >= room {
          FullIsMerged(store, after, limits, room, After(heap, e, b), found, popped, b);
          MergedMeans(store, after, limits, room, found);
          return;
        }
        heap := rest;
        if b.round + 1 < e.limit { heap := heap + {Entry(b.round + 1, e.authority, e.limit)}; }
      } else {
        MergeNone(store, after, limits, heap, found, popped, e);
        heap, popped := rest, popped + [e];
      }
    }
    EmptyIsMerged(store, after, limits, room, found, popped);
    MergedMeans(store, after, limits, room, found);
  }

  lemma MergedMeans(store: Dag, after: seq<nat>, limits: Limits, room: nat, found: seq<BlockRef>)
    requires Merged(store, after, limits, room, found) && forall a | a in limits :: a < |after|
    ensures |found| <= room && forall r | r in found ::
      r in store && r.author in limits && after[r.author] < r.round < limits[r.author]
    ensures |found| < room ==>
      forall r | r in store && r.author in limits && after[r.author] < r.round < limits[r.author] ::
        exists s :: s in found && s.author == r.author && s.round == r.round
  {
    if |found| < room {
      forall r | r in store && r.author in limits && after[r.author] < r.round < limits[r.author]
        ensures exists s :: s in found && s.author == r.author && s.round == r.round
      {
        var k :| 0 <= k < |found| && SameSlot(found[k], r);
        assert found[k] in found;
      }
    }
  }

  /** What the merge keeps from one popped entry to the next. */
  ghost predicate Merging(store: Dag, after: seq<nat>, limits: Limits, heap: set<Entry>, found: seq<BlockRef>,
                          popped: seq<Entry>) {
    && HeapOk(after, limits, heap) && FoundOk(store, after, limits, heap, found)
    && Covered(store, after, limits, heap, found) && PoppedOk(heap, popped)
    && BelowIsDone(store, after, limits, found, popped)
    && HeapIsRest(store, after, limits, popped, heap) && found == Yield(store, popped)
  }

  lemma MergeOne(store: Dag, after: seq<nat>, limits: Limits, heap: set<Entry>, found: seq<BlockRef>,
                 popped: seq<Entry>, e: Entry, b: BlockRef)
    requires Merging(store, after, limits, heap, found, popped) && e in heap && IsFirst(store, e, b)
    requires forall f | f in heap - {e} :: Less(e, f)
    ensures Merging(store, after, limits, After(heap, e, b), found + [b], popped + [e])
    ensures Work(After(heap, e, b)) < Work(heap)
  {
    hide HeapOk, FoundOk, Covered, PoppedOk, Work, BelowIsDone, HeapIsRest, Yield;
    PushedNext(store, after, limits, popped, heap, e, b);
    YieldMore(store, popped, e, b);
    FoundNext(store, after, limits, heap, found, e, b);
    CoveredNext(store, after, limits, heap, found, e, b);
    BelowLeastIsReturned(store, after, limits, heap, found, popped, e, b);
    PoppedNext(heap, popped, e, After(heap, e, b));
  }

  lemma MergeNone(store: Dag, after: seq<nat>, limits: Limits, heap: set<Entry>, found: seq<BlockRef>,
                  popped: seq<Entry>, e: Entry)
    requires Merging(store, after, limits, heap, found, popped) && e in heap
    requires forall f | f in heap - {e} :: Less(e, f)
    requires forall r | r in store :: !InRange(r, e.authority, e.start, e.limit)
    ensures Merging(store, after, limits, heap - {e}, found, popped + [e]) && Work(heap - {e}) < Work(heap)
  {
    hide HeapOk, FoundOk, Covered, PoppedOk, Work, BelowIsDone, HeapIsRest, Yield;
    var none := BlockRef(0, 0, 0);
    NothingFound(store, after, limits, heap, found, e);
    BelowLeastIsReturned(store, after, limits, heap, found, popped, e, none);
    HeapNext(store, after, limits, popped, heap, e, heap - {e});
    YieldMore(store, popped, e, none);
    PoppedNext(heap, popped, e, heap - {e});
  }

  lemma PushedNext(store: Dag, after: seq<nat>, limits: Limits, popped: seq<Entry>, heap: set<Entry>, e: Entry,
                   b: BlockRef)
    requires HeapIsRest(store, after, limits, popped, heap) && PoppedOk(heap, popped) && e in heap
    requires IsFirst(store, e, b)
    ensures HeapIsRest(store, after, limits, popped + [e], After(heap, e, b))
  {
    hide HeapIsRest, PoppedOk;
    forall x | IsFirst(store, e, x) ensures x == b {}
    HeapNext(store, after, limits, popped, heap, e, After(heap, e, b));
  }

  lemma FullIsMerged(store: Dag, after: seq<nat>, limits: Limits, room: nat, heap: set<Entry>, found: seq<BlockRef>,
                     popped: seq<Entry>, b: BlockRef)
    requires Merging(store, after, limits, heap, found, popped) && |found| == room
    requires popped != [] && IsFirst(store, popped[|popped| - 1], b)
    ensures Merged(store, after, limits, room, found) && InRoundOrder(store, after, limits, room, found, popped)
  {
    hide IsKey, Yield, IsFirst;
  }

  lemma EmptyIsMerged(store: Dag, after: seq<nat>, limits: Limits, room: nat, found: seq<BlockRef>, popped: seq<Entry>)
    requires Merging(store, after, limits, {}, found, popped) && |found| < room
    ensures Merged(store, after, limits, room, found) && InRoundOrder(store, after, limits, room, found, popped)
  {
    hide IsKey, Yield, IsFirst;
  }

  // ---------- The merge is determined ----------

  /** An entry comes to be pushed by smaller ones only. */
  lemma KeyOfPrefix(store: Dag, after: seq<nat>, limits: Limits, popped: seq<Entry>, n: nat)
    requires Increasing(popped) && n < |popped| && IsKey(store, after, limits, popped, popped[n])
    ensures IsKey(store, after, limits, popped[..n], popped[n]) && popped[n] !in popped[..n]
  {
    var k := popped[n];
    if !IsInitial(after, limits, k) {
      var e, b :| e in popped && IsFirst(store, e, b) && Follows(e, b, k);
      var j :| 0 <= j < |popped| && popped[j] == e;
      assert Less(e, k);
      assert j < n;
      assert e in popped[..n];
    }
    forall i | 0 <= i < n ensures popped[i] != k { assert Less(popped[i], popped[n]); }
  }

  lemma KeyOfMore(store: Dag, after: seq<nat>, limits: Limits, p: seq<Entry>, q: seq<Entry>, k: Entry)
    requires p <= q && IsKey(store, after, limits, p, k)
    ensures IsKey(store, after, limits, q, k)
  {
    if !IsInitial(after, limits, k) {
      var e, b :| e in p && IsFirst(store, e, b) && Follows(e, b, k);
      assert e in q;
    }
  }

  /** With the same entries popped so far, the next one of `p` is not below the next one of `q`. */
  lemma NextNotBelow(store: Dag, after: seq<nat>, limits: Limits, room: nat, f: seq<BlockRef>, p: seq<Entry>,
                     g: seq<BlockRef>, q: seq<Entry>, n: nat)
    requires LowestFirst(store, after, limits, room, f, p) && LowestFirst(store, after, limits, room, g, q)
    requires n < |p| && n < |q| && p[..n] == q[..n]
    ensures p[n] == q[n] || Less(q[n], p[n])
  {
    hide IsKey, Yield, IsFirst;
    var k := p[n];
    assert k in p;
    KeyOfPrefix(store, after, limits, p, n);
    KeyOfMore(store, after, limits, q[..n], q, k);
    if k in q {
      var j :| 0 <= j < |q| && q[j] == k;
      assert forall i | 0 <= i < n :: q[i] == q[..n][i] && q[i] in q[..n];
      assert n < j ==> Less(q[n], q[j]);
    } else {
      assert n < |q| - 1 ==> Less(q[n], q[|q| - 1]);
    }
  }

  lemma {:induction false} SamePopped(store: Dag, after: seq<nat>, limits: Limits, room: nat, f: seq<BlockRef>,
                                      p: seq<Entry>, g: seq<BlockRef>, q: seq<Entry>, n: nat)
    requires LowestFirst(store, after, limits, room, f, p) && LowestFirst(store, after, limits, room, g, q)
    requires n <= |p| && n <= |q|
    ensures p[..n] == q[..n]
  {
    hide LowestFirst;
    if n > 0 {
      SamePopped(store, after, limits, room, f, p, g, q, n - 1);
      NextNotBelow(store, after, limits, room, f, p, g, q, n - 1);
      NextNotBelow(store, after, limits, room, g, q, f, p, n - 1);
      assert p[..n] == p[..n - 1] + [p[n - 1]] && q[..n] == q[..n - 1] + [q[n - 1]];
    }
  }

  lemma {:induction false} YieldGrows(store: Dag, popped: seq<Entry>, n: nat)
    requires n <= |popped|
    ensures |Yield(store, popped[..n])| <= |Yield(store, popped)|
    decreases |popped| - n
  {
    if n < |popped| {
      assert popped[..n + 1][..n] == popped[..n];
      YieldGrows(store, popped, n + 1);
    } else {
      assert popped[..n] == popped;
    }
  }

  /** A run does not stop before another does. */
  lemma NotShorter(store: Dag, after: seq<nat>, limits: Limits, room: nat, f: seq<BlockRef>, p: seq<Entry>,
                   g: seq<BlockRef>, q: seq<Entry>)
    requires LowestFirst(store, after, limits, room, f, p) && LowestFirst(store, after, limits, room, g, q)
    ensures |p| >= |q|
  {
    hide IsKey, IsFirst;
    if |p| < |q| {
      var n := |p|;
      SamePopped(store, after, limits, room, f, p, g, q, n);
      assert p[..n] == p && q[n] in q;
      KeyOfPrefix(store, after, limits, q, n);
      assert |f| == room;
      var init := q[..|q| - 1];
      assert init[..n] == p;
      YieldGrows(store, init, n);
    }
  }

  /** The order leaves no choice: it determines the blocks that are returned. */
  lemma MergeIsDetermined(store: Dag, after: seq<nat>, limits: Limits, room: nat, f: seq<BlockRef>, p: seq<Entry>,
                          g: seq<BlockRef>, q: seq<Entry>)
    requires LowestFirst(store, after, limits, room, f, p) && LowestFirst(store, after, limits, room, g, q)
    ensures f == g && p == q
  {
    NotShorter(store, after, limits, room, f, p, g, q);
    NotShorter(store, after, limits, room, g, q, f, p);
    SamePopped(store, after, limits, room, f, p, g, q, |p|);
    assert p[..|p|] == p && q[..|q|] == q;
  }

  method StartHeap(store: Dag, after: seq<nat>, limits: Limits) returns (heap: set<Entry>)
    requires forall a | a in limits :: a < |after|
    ensures Merging(store, after, limits, heap, [], [])
  {
    heap := {};
    var rest := limits.Keys;
    while rest != {}
      invariant rest <= limits.Keys && HeapOk(after, limits, heap) && forall e | e in heap :: e.authority !in rest
      invariant forall k :: k in heap <==> IsInitial(after, limits, k) && k.authority !in rest
      decreases rest
    {
      var a :| a in rest;
      rest := rest - {a};
      if after[a] + 1 < limits[a] { heap := heap + {Entry(after[a] + 1, a, limits[a])}; }
    }
    forall r | r in store && InWindow(after, limits, r) ensures Ahead(heap, r) {
      assert IsInitial(after, limits, Entry(after[r.author] + 1, r.author, limits[r.author]));
      assert Entry(after[r.author] + 1, r.author, limits[r.author]) in heap;
    }
  }

  // ---------- Requests ----------

  datatype FetchError =
    | InvalidFetchBlocksRequest
    | InvalidSizeOfHighestAcceptedRounds
    | InvalidAuthorityIndex
    | UnexpectedGenesisBlockRequested

  datatype Response = Ok(blocks: seq<BlockRef>) | Err(error: FetchError)

  /** Of the references, those that are present, in order. */
  function Present(dag: Dag, refs: seq<BlockRef>): (found: seq<BlockRef>)
    ensures |found| <= |refs| && forall r :: r in found <==> r in refs && r in dag
  {
    if refs == [] then []
    else
      var last := refs[|refs| - 1];
      assert refs == refs[..|refs| - 1] + [last];
      Present(dag, refs[..|refs| - 1]) + if last in dag then [last] else []
  }

  /** They come in the order asked for, as often as asked for. */
  lemma {:induction false} PresentInOrder(dag: Dag, x: seq<BlockRef>, y: seq<BlockRef>)
    ensures Present(dag, x + y) == Present(dag, x) + Present(dag, y)
  {
    hide Present;
    if y == [] {
      assert x + y == x && Present(dag, y) == [];
    } else {
      var n := |y| - 1;
      PresentInOrder(dag, x, y[..n]);
      PresentLast(dag, y[..n], y[n]);
      PresentLast(dag, x + y[..n], y[n]);
      assert y == y[..n] + [y[n]] && x + y == (x + y[..n]) + [y[n]];
    }
  }

  lemma {:induction false} AllPresent(dag: Dag, refs: seq<BlockRef>)
    requires forall r | r in refs :: r in dag
    ensures Present(dag, refs) == refs
  {
    if refs != [] {
      var n := |refs| - 1;
      assert refs == refs[..n] + [refs[n]];
      AllPresent(dag, refs[..n]);
    }
  }

  lemma PresentLast(dag: Dag, refs: seq<BlockRef>, r: BlockRef)
    ensures Present(dag, refs + [r]) == Present(dag, refs) + if r in dag then [r] else []
  {
    assert (refs + [r])[..|refs|] == refs;
  }

  function Lookup(m: Dag, r: BlockRef): Option<Block> { if r in m then Some(m[r]) else None }

  /** Ancestors of the blocks above what the peer has. */
  ghost predicate IsMissingAncestor(dag: Dag, after: seq<nat>, blocks: seq<BlockRef>, a: BlockRef) {
    && (exists b :: b in blocks && b in dag && a in dag[b].ancestors)
    && a.author < |after| && after[a.author] < a.round
  }

  /** As many missing ancestors as there is room for. */
  ghost predicate Picks(dag: Dag, after: seq<nat>, blocks: seq<BlockRef>, room: nat, picked: seq<BlockRef>) {
    && NoRepeats(picked) && |picked| <= room
    && (forall a | a in picked :: IsMissingAncestor(dag, after, blocks, a))
    && (|picked| < room ==> forall a | IsMissingAncestor(dag, after, blocks, a) :: a in picked)
  }

  /** The lowest requested round of each requested author. */
  ghost predicate LowestRounds(refs: seq<BlockRef>, limits: Limits) {
    && (forall r | r in refs :: r.author in limits && limits[r.author] <= r.round)
    && (forall a | a in limits :: exists r :: r in refs && r.author == a && r.round == limits[a])
  }

  lemma AtMostPicked(dag: Dag, after: seq<nat>, blocks: seq<BlockRef>, room: nat, picked: seq<BlockRef>)
    requires Picks(dag, after, blocks, room, picked)
    ensures |picked| <= room
  {}

  lemma AtMostRoom(store: Dag, after: seq<nat>, limits: Limits, room: nat, found: seq<BlockRef>)
    requires Merged(store, after, limits, room, found)
    ensures |found| <= room
  {}

  /** What the merge adds was not asked for by reference. */
  lemma MergedIsNew(store: Dag, after: seq<nat>, limits: Limits, room: nat, found: seq<BlockRef>, asked: seq<BlockRef>)
    requires Merged(store, after, limits, room, found) && LowestRounds(asked, limits)
    ensures forall r | r in found :: r !in asked
  {
    hide OnePerSlot, Returned;
    forall r | r in found ensures r !in asked { assert InWindow(after, limits, r); }
  }

  /** What `DagState` and the store hold; every stored block is in `dag`. */
  datatype BlockSyncService = BlockSyncService(
    committee: Committee, dag: Dag, store: Dag, lastRounds: seq<nat>, maxBlocksPerSync: nat, maxBlocksPerFetch: nat)
  {
    ghost predicate Valid() {
      && (forall r | r in store :: r in dag && store[r] == dag[r])
      && (forall r, a | r in dag && a in dag[r].ancestors :: a.author < committee.Size())
      && |lastRounds| == committee.Size()
    }

    function MaxBlocks(refs: seq<BlockRef>, after: seq<nat>): nat {
      if after != [] && refs != [] then maxBlocksPerSync else maxBlocksPerFetch
    }

    function Truncated(refs: seq<BlockRef>, after: seq<nat>): (asked: seq<BlockRef>)
      ensures asked <= refs && |asked| <= MaxBlocks(refs, after)
      ensures asked == refs || |asked| == MaxBlocks(refs, after)
    {
      if |refs| > MaxBlocks(refs, after) then refs[..MaxBlocks(refs, after)] else refs
    }

    predicate IsRequest(refs: seq<BlockRef>, after: seq<nat>, fetchMissingAncestors: bool) {
      && (refs == [] ==> !fetchMissingAncestors && after != [])
      && (fetchMissingAncestors ==> after != [])
    }

    predicate MayFetch(r: BlockRef) { committee.IsValidIndex(r.author) && r.round != GENESIS_ROUND }

    /** The first fault of a request that is not well-formed. */
    function Fault(refs: seq<BlockRef>, after: seq<nat>, fetchMissingAncestors: bool): FetchError {
      if !IsRequest(refs, after, fetchMissingAncestors) then InvalidFetchBlocksRequest
      else if after != [] && |after| != committee.Size() then InvalidSizeOfHighestAcceptedRounds
      else FaultIn(Truncated(refs, after))
    }

    function FaultIn(asked: seq<BlockRef>): FetchError {
      if asked == [] || !committee.IsValidIndex(asked[0].author) then InvalidAuthorityIndex
      else if asked[0].round == GENESIS_ROUND then UnexpectedGenesisBlockRequested
      else FaultIn(asked[1..])
    }

    /** The fault is that of the first reference that may not be fetched. */
    lemma {:induction false} FaultIsFirst(asked: seq<BlockRef>) returns (i: nat)
      requires exists r :: r in asked && !MayFetch(r)
      ensures i < |asked| && !MayFetch(asked[i]) && forall k | 0 <= k < i :: MayFetch(asked[k])
      ensures FaultIn(asked) == if asked[i].author < |committee.stakes| then UnexpectedGenesisBlockRequested
                                else InvalidAuthorityIndex
    {
      if !MayFetch(asked[0]) {
        i := 0;
      } else {
        assert asked == [asked[0]] + asked[1..];
        var j := FaultIsFirst(asked[1..]);
        i := j + 1;
      }
    }

    /** Reads the store first and only asks `dag` for what is not there: the answer is the
        same as from `dag` alone. */
    method ReadBlocks(refs: seq<BlockRef>) returns (blocks: seq<BlockRef>)
      requires Valid()
      ensures blocks == Present(dag, refs)
    {
      var slots, missing := ReadStore(refs);
      for j := 0 to |missing|
        invariant |slots| == |refs|
        invariant forall k: nat | k < |refs| :: slots[k] == Lookup(dag, refs[k]) || k in missing[j..]
      {
        var i := missing[j];
        assert i in missing && missing[j..] == [i] + missing[j + 1..];
        slots := slots[i := Lookup(dag, refs[i])];
      }
      blocks := [];
      for i := 0 to |refs|
        invariant blocks == Present(dag, refs[..i])
      {
        assert refs[..i + 1][..i] == refs[..i];
        assert slots[i] == Lookup(dag, refs[i]);
        if slots[i].Some? { blocks := blocks + [refs[i]]; }
      }
      assert refs[..|refs|] == refs;
    }

    method ReadStore(refs: seq<BlockRef>) returns (slots: seq<Option<Block>>, missing: seq<nat>)
      requires Valid()
      ensures |slots| == |refs| && forall m | m in missing :: m < |refs|
      ensures forall k: nat | k < |refs| :: slots[k] == Lookup(dag, refs[k]) || k in missing
    {
      slots, missing := [], [];
      for i := 0 to |refs|
        invariant |slots| == i && forall m | m in missing :: m < i
        invariant forall k: nat | k < i :: slots[k] == Lookup(dag, refs[k]) || k in missing
      {
        slots := slots + [Lookup(store, refs[i])];
        if refs[i] !in store { missing := missing + [i]; }
      }
    }

    /** A selection of at most `room` missing ancestors, whichever they are. */
    method PickMissingAncestors(blocks: seq<BlockRef>, after: seq<nat>, room: nat) returns (picked: seq<BlockRef>)
      requires Valid() && |after| == committee.Size() && forall b | b in blocks :: b in dag
      ensures Picks(dag, after, blocks, room, picked)
      ensures forall a | a in picked ::
        a.author < |after| && after[a.author] < a.round && exists b :: b in blocks && a in dag[b].ancestors
      ensures |picked| < room ==>
        forall b, a | b in blocks && a in dag[b].ancestors && a.author < |after| && after[a.author] < a.round ::
          a in picked
    {
      var missing := set b, a | b in blocks && a in dag[b].ancestors && after[a.author] < a.round :: a;
      picked := [];
      var rest := missing;
      while rest != {} && |picked| < room
        invariant rest <= missing && |picked| <= room && NoRepeats(picked)
        invariant forall a :: a in missing <==> a in picked || a in rest
        invariant forall a | a in picked :: a !in rest
        decreases rest
      {
        var a :| a in rest;
        rest := rest - {a};
        assert forall i | 0 <= i < |picked| :: picked[i] in picked;
        picked := picked + [a];
      }
    }

    method LimitRounds(refs: seq<BlockRef>) returns (limits: Limits)
      ensures IsLimits(refs, limits)
      ensures if refs == [] then
          forall a: nat :: (a in limits <==> a < |lastRounds|) && (a in limits ==> limits[a] == lastRounds[a])
        else
          && (forall r | r in refs :: r.author in limits && limits[r.author] <= r.round)
          && forall a | a in limits :: BlockAt(refs, a, limits[a])
    {
      if refs == [] {
        return map a: nat | a < |lastRounds| :: lastRounds[a];
      }
      limits := map[];
      for i := 0 to |refs|
        invariant LowestRounds(refs[..i], limits)
      {
        var r := refs[i];
        ghost var before := limits;
        assert refs[..i + 1] == refs[..i] + [r];
        var entry := if r.author in limits then limits[r.author] else r.round;
        limits := limits[r.author := if entry <= r.round then entry else r.round];
        forall a | a in limits ensures exists q :: q in refs[..i + 1] && q.author == a && q.round == limits[a] {
          if a in before && limits[a] == before[a] {
            var q :| q in refs[..i] && q.author == a && q.round == before[a];
            assert q in refs[..i + 1];
          } else {
            assert r in refs[..i + 1];
          }
        }
      }
      assert refs[..|refs|] == refs;
    }

    /** Everything a response promises. */
    ghost predicate Answers(refs: seq<BlockRef>, after: seq<nat>, fetchMissingAncestors: bool, blocks: seq<BlockRef>) {
      var asked := Truncated(refs, after);
      var first := Present(dag, asked);
      && first <= blocks && |blocks| <= MaxBlocks(refs, after)
      && Adds(asked, after, fetchMissingAncestors, MaxBlocks(refs, after) - |first|, first, blocks[|first|..])
    }

    /** What follows the requested blocks. */
    ghost predicate Adds(asked: seq<BlockRef>, after: seq<nat>, fetchMissingAncestors: bool, room: int,
                         first: seq<BlockRef>, rest: seq<BlockRef>) {
      if room <= 0 || after == [] then rest == []
      else if fetchMissingAncestors then
        exists picked :: Picks(dag, after, first, room, picked) && rest == Present(dag, picked)
      else exists limits, popped ::
        IsLimits(asked, limits) && Merged(store, after, limits, room, rest)
          && InRoundOrder(store, after, limits, room, rest, popped)
    }

    lemma LimitsAreAuthorities(asked: seq<BlockRef>, limits: Limits)
      requires Valid() && IsLimits(asked, limits) && forall r | r in asked :: MayFetch(r)
      ensures forall a | a in limits :: a < committee.Size()
    {}

    /** A block of that authority and round is asked for. */
    ghost predicate BlockAt(refs: seq<BlockRef>, author: nat, round: nat) {
      exists r :: r in refs && r.author == author && r.round == round
    }

    ghost predicate IsLimits(asked: seq<BlockRef>, limits: Limits) {
      if asked == [] then limits == map a: nat | a < |lastRounds| :: lastRounds[a] else LowestRounds(asked, limits)
    }

    method ValidateRefs(asked: seq<BlockRef>) returns (fault: Option<FetchError>)
      ensures fault == None <==> forall r | r in asked :: MayFetch(r)
      ensures fault.Some? ==> fault.value == FaultIn(asked)
    {
      assert asked[0..] == asked;
      for i := 0 to |asked|
        invariant forall k | 0 <= k < i :: MayFetch(asked[k])
        invariant FaultIn(asked[i..]) == FaultIn(asked)
      {
        assert asked[i] in asked && asked[i..] == [asked[i]] + asked[i + 1..];
        if !committee.IsValidIndex(asked[i].author) { return Some(InvalidAuthorityIndex); }
        if asked[i].round == GENESIS_ROUND { return Some(UnexpectedGenesisBlockRequested); }
      }
      return None;
    }

    /** The first references asked for are kept, up to the cap of the kind of request. */
    lemma AskedIs(refs: seq<BlockRef>, after: seq<nat>)
      ensures var cap := if after == [] || refs == [] then maxBlocksPerFetch else maxBlocksPerSync;
        && MaxBlocks(refs, after) == cap && Truncated(refs, after) == (if |refs| <= cap then refs else refs[..cap])
        && ((forall r | r in Truncated(refs, after) :: MayFetch(r)) <==>
              forall k | 0 <= k < |refs| && k < cap :: refs[k].author < |committee.stakes| && refs[k].round >= 1)
    {
      var asked := Truncated(refs, after);
      assert forall k | 0 <= k < |asked| :: asked[k] == refs[k] && asked[k] in asked;
    }

    /** A stored round between what the peer has and the lowest round asked for, or the last round
        held if nothing is asked for. */
    ghost predicate IsWanted(asked: seq<BlockRef>, after: seq<nat>, r: BlockRef) {
      && r in store && r.author < |after| && r.author < |lastRounds| && after[r.author] < r.round
      && if asked == [] then r.round < lastRounds[r.author]
         else
           && (exists q :: q in asked && q.author == r.author)
           && forall q | q in asked && q.author == r.author :: r.round < q.round
    }

    lemma WantedIsInWindow(asked: seq<BlockRef>, after: seq<nat>, limits: Limits, r: BlockRef)
      requires IsLimits(asked, limits) && IsWanted(asked, after, r)
      ensures r in store && InWindow(after, limits, r)
    {}

    /** A sync that is not full leaves out nothing that is wanted. */
    lemma SyncIsComplete(refs: seq<BlockRef>, after: seq<nat>, blocks: seq<BlockRef>, r: BlockRef)
      requires after != [] && Answers(refs, after, false, blocks)
      requires var cap := if refs == [] then maxBlocksPerFetch else maxBlocksPerSync;
        |blocks| < cap && IsWanted(if |refs| <= cap then refs else refs[..cap], after, r)
      ensures exists s :: s in blocks && s.author == r.author && s.round == r.round
    {
      hide Present, IsWanted, IsLimits, InRoundOrder;
      AskedIs(refs, after);
      var asked := Truncated(refs, after);
      var first := Present(dag, asked);
      var rest, room := blocks[|first|..], MaxBlocks(refs, after) - |first|;
      var limits, popped :| IsLimits(asked, limits) && Merged(store, after, limits, room, rest)
        && InRoundOrder(store, after, limits, room, rest, popped);
      WantedIsInWindow(asked, after, limits, r);
      assert Returned(rest, r);
      var k :| 0 <= k < |rest| && SameSlot(rest[k], r);
      assert blocks[|first| + k] == rest[k] && rest[k] in blocks;
    }

    /** With missing ancestors asked for, what follows the requested blocks are ancestors of them
        above what the peer has; if all of these are held and the response is not full, all of them. */
    lemma AncestorsFollow(refs: seq<BlockRef>, after: seq<nat>, blocks: seq<BlockRef>, a: BlockRef)
      requires after != [] && Answers(refs, after, true, blocks)
      ensures var cap := if refs == [] then maxBlocksPerFetch else maxBlocksPerSync;
        var first := Present(dag, if |refs| <= cap then refs else refs[..cap]);
        && |first| <= |blocks|
        && (a in blocks[|first|..] ==> a in dag && IsMissingAncestor(dag, after, first, a))
        && (|blocks| < cap && IsMissingAncestor(dag, after, first, a) ==>
              (forall x | IsMissingAncestor(dag, after, first, x) :: x in dag) ==> a in blocks)
    {
      hide IsMissingAncestor;
      AskedIs(refs, after);
      var first := Present(dag, Truncated(refs, after));
      var rest, room := blocks[|first|..], MaxBlocks(refs, after) - |first|;
      if room > 0 {
        var picked :| Picks(dag, after, first, room, picked) && rest == Present(dag, picked);
        if forall x | IsMissingAncestor(dag, after, first, x) :: x in dag { AllPresent(dag, picked); }
        if |picked| < room && IsMissingAncestor(dag, after, first, a) && a in dag { assert a in rest && a in blocks; }
      }
    }

    /** Exactly the well-formed requests are answered. */
    method FetchBlocks(refs: seq<BlockRef>, after: seq<nat>, fetchMissingAncestors: bool) returns (response: Response)
      requires Valid()
      ensures var cap := if after == [] || refs == [] then maxBlocksPerFetch else maxBlocksPerSync;
        && (response.Ok? <==>
              && (refs == [] ==> after != [] && !fetchMissingAncestors) && (fetchMissingAncestors ==> after != [])
              && (after != [] ==> |after| == |committee.stakes|)
              && forall k | 0 <= k < |refs| && k < cap :: refs[k].author < |committee.stakes| && refs[k].round >= 1)
        && (response.Ok? ==>
              && |response.blocks| <= cap
              && Present(dag, if |refs| <= cap then refs else refs[..cap]) <= response.blocks)
      ensures response.Err? ==> response.error == Fault(refs, after, fetchMissingAncestors)
      ensures response.Ok? ==> Answers(refs, after, fetchMissingAncestors, response.blocks)
    {
      hide Merged, InRoundOrder, LowestRounds, Present, Picks, MaxBlocks, Truncated, FaultIn, MayFetch;
      AskedIs(refs, after);
      if refs == [] && (fetchMissingAncestors || after == []) { return Err(InvalidFetchBlocksRequest); }
      if fetchMissingAncestors && after == [] { return Err(InvalidFetchBlocksRequest); }
      if after != [] && |after| != committee.Size() { return Err(InvalidSizeOfHighestAcceptedRounds); }
      var asked := Truncated(refs, after);
      var fault := ValidateRefs(asked);
      if fault.Some? { return Err(fault.value); }
      var blocks := Present(dag, asked);
      if after == [] { blocks := ReadBlocks(asked); }
      var room := MaxBlocks(refs, after) - |blocks|;
      var rest := [];
      if room > 0 && after != [] {
        if fetchMissingAncestors {
          var picked := PickMissingAncestors(blocks, after, room);
          rest := Present(dag, picked);
          assert |picked| <= room by { AtMostPicked(dag, after, blocks, room, picked); }
        } else {
          var limits := LimitRounds(asked);
          LimitsAreAuthorities(asked, limits);
          ghost var popped;
          rest, popped := MergeByRound(store, after, limits, room);
          assert |rest| <= room by { AtMostRoom(store, after, limits, room, rest); }
          assert IsLimits(asked, limits) && Merged(store, after, limits, room, rest)
            && InRoundOrder(store, after, limits, room, rest, popped);
        }
      }
      assert Adds(asked, after, fetchMissingAncestors, room, blocks, rest);
      assert (blocks + rest)[|blocks|..] == rest;
      return Response.Ok(blocks + rest);
    }
  }

  // ---------- Certified commits ----------

  /** Stored commits and, per index, the blocks that vote for one. */
  datatype CommitStore = CommitStore(commits: set<nat>, votes: map<nat, seq<BlockRef>>, blocks: Dag)
  {
    /** The stored indices in a range, lowest first. */
    function Scan(lo: nat, hi: nat): seq<nat>
      decreases hi - lo
    {
      if hi < lo then []
      else if hi == 0 then (if 0 in commits then [0] else [])
      else Scan(lo, hi - 1) + if hi in commits then [hi] else []
    }

    function VotesFor(index: nat): seq<BlockRef> { if index in votes then votes[index] else [] }

    ghost predicate IsCertified(c: Committee, index: nat) {
      IsQuorum(c, set r | r in VotesFor(index) :: r.author)
    }
  }

  method IsCertifiedBy(c: Committee, votes: seq<BlockRef>) returns (certified: bool)
    requires c.quorumThreshold > 0 && forall r | r in votes :: c.IsValidIndex(r.author)
    ensures certified <==> IsQuorum(c, set r | r in votes :: r.author)
  {
    var aggregator := new StakeAggregator(c);
    NobodyIsNoQuorum(c);
    certified := false;
    for i := 0 to |votes|
      invariant aggregator.Valid(c) && fresh(aggregator)
      invariant aggregator.votes == set r | r in votes[..i] :: r.author
      invariant certified <==> IsQuorum(c, aggregator.votes)
    {
      assert votes[..i + 1] == votes[..i] + [votes[i]];
      certified := aggregator.Add(votes[i].author, c);
    }
    assert votes[..|votes|] == votes;
  }

  /** Who votes for a commit. */
  ghost function Voters(s: CommitStore, index: nat): set<nat>
    requires index in s.votes
  {
    set r | r in s.votes[index] :: r.author
  }

  lemma CertifiedIff(c: Committee, s: CommitStore, index: nat)
    requires c.quorumThreshold > 0
    ensures s.IsCertified(c, index) <==> index in s.votes && IsQuorum(c, Voters(s, index))
  {
    NobodyIsNoQuorum(c);
    var voters := set r | r in s.VotesFor(index) :: r.author;
    if index in s.votes { assert voters == Voters(s, index); } else { assert voters == {}; }
  }

  /** The longest stored prefix of the range that ends in a certified commit, and the
      blocks that certify it. */
  method FetchCommits(c: Committee, s: CommitStore, start: nat, end: nat, batchSize: nat)
    returns (commits: seq<nat>, certifiers: seq<BlockRef>)
    requires c.quorumThreshold > 0 && batchSize > 0
    requires forall i, r | i in s.votes && r in s.votes[i] :: c.IsValidIndex(r.author)
    ensures var scanned := s.Scan(start, if end <= start + batchSize - 1 then end else start + batchSize - 1);
      && commits <= scanned
      && (forall k | |commits| <= k < |scanned| :: !s.IsCertified(c, scanned[k]))
      && (if commits == [] then certifiers == []
          else
            && s.IsCertified(c, commits[|commits| - 1])
            && certifiers == Present(s.blocks, s.VotesFor(commits[|commits| - 1])))
      && (forall k | |commits| <= k < |scanned| && scanned[k] in s.votes :: !IsQuorum(c, Voters(s, scanned[k])))
      && (commits != [] ==>
            var last := commits[|commits| - 1];
            last in s.votes && IsQuorum(c, Voters(s, last)) && certifiers == Present(s.blocks, s.votes[last]))
  {
    hide IsQuorum;
    forall i ensures s.IsCertified(c, i) <==> i in s.votes && IsQuorum(c, Voters(s, i)) { CertifiedIff(c, s, i); }
    var last := if end <= start + batchSize - 1 then end else start + batchSize - 1;
    ghost var scanned := s.Scan(start, last);
    commits := s.Scan(start, last);
    certifiers := [];
    while commits != []
      invariant commits <= scanned && certifiers == []
      invariant forall k | |commits| <= k < |scanned| :: !s.IsCertified(c, scanned[k])
      decreases |commits|
    {
      var index := commits[|commits| - 1];
      var certified := IsCertifiedBy(c, s.VotesFor(index));
      if certified {
        certifiers := Present(s.blocks, s.VotesFor(index));
        break;
      }
      commits := commits[..|commits| - 1];
    }
  }

  lemma {:induction false} ScanIsExact(s: CommitStore, lo: nat, hi: nat)
    ensures forall i :: i in s.Scan(lo, hi) <==> lo <= i <= hi && i in s.commits
    ensures forall j, k | 0 <= j < k < |s.Scan(lo, hi)| :: s.Scan(lo, hi)[j] < s.Scan(lo, hi)[k]
    decreases hi - lo
  {
    if lo <= hi && hi > 0 {
      ScanIsExact(s, lo, hi - 1);
      var shorter := s.Scan(lo, hi - 1);
      assert forall j | 0 <= j < |shorter| :: shorter[j] in shorter;
    }
  }
}
