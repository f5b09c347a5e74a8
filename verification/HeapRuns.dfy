/** What holds over every sequence of kmalloc and kfree calls. */
module HeapRuns {
  import opened HeapLayout
  import opened HeapMemory
  import opened KernelHeap

  /** All live allocations. */
  ghost function Pieces(bs: seq<Block>): set<Piece> {
    set i, k | 0 <= i < |bs| && 0 <= k < |bs[i].pieces| :: bs[i].pieces[k]
  }

  ghost predicate Has(bs: seq<Block>, x: Piece, i: nat, k: nat) {
    i < |bs| && k < |bs[i].pieces| && bs[i].pieces[k] == x
  }

  lemma PiecesIff(bs: seq<Block>, x: Piece)
    ensures x in Pieces(bs) <==> exists i: nat, k: nat :: Has(bs, x, i, k)
  {
    if x in Pieces(bs) {
      var i, k :| 0 <= i < |bs| && 0 <= k < |bs[i].pieces| && bs[i].pieces[k] == x;
      assert Has(bs, x, i, k);
    }
  }

  lemma InsertAddsOne(bs: seq<Block>, i: nat, k: nat, req: nat)
    requires i < |bs| && k <= |bs[i].pieces|
    ensures Pieces(bs[i := InsertPiece(bs[i], k, req)]) == Pieces(bs) + {Piece(GapStart(bs[i], k), Padded(req), req)}
  {
    var x := Piece(GapStart(bs[i], k), Padded(req), req);
    var bs' := bs[i := InsertPiece(bs[i], k, req)];
    forall y
      ensures y in Pieces(bs') <==> y in Pieces(bs) || y == x
    {
      PiecesIff(bs, y);
      PiecesIff(bs', y);
      if y in Pieces(bs') {
        var j: nat, m: nat :| Has(bs', y, j, m);
        if !(j == i && m == k) { assert Has(bs, y, j, if j == i && m > k then m - 1 else m); }
      }
      if y == x { assert Has(bs', y, i, k); }
      if y in Pieces(bs) {
        var j: nat, m: nat :| Has(bs, y, j, m);
        assert Has(bs', y, j, if j == i && m >= k then m + 1 else m);
      }
    }
  }

  lemma AppendAddsOne(bs: seq<Block>, b: Block, x: Piece)
    requires b.pieces == [x]
    ensures Pieces(bs + [b]) == Pieces(bs) + {x}
  {
    var bs' := bs + [b];
    forall y
      ensures y in Pieces(bs') <==> y in Pieces(bs) || y == x
    {
      PiecesIff(bs, y);
      PiecesIff(bs', y);
      if y in Pieces(bs') {
        var j: nat, m: nat :| Has(bs', y, j, m);
        if j < |bs| { assert Has(bs, y, j, m); }
      }
      if y == x { assert Has(bs', y, |bs|, 0); }
      if y in Pieces(bs) {
        var j: nat, m: nat :| Has(bs, y, j, m);
        assert Has(bs', y, j, m);
      }
    }
  }

  lemma InsertIsApart(bs: seq<Block>, i: nat, k: nat, req: nat, y: Piece)
    requires Room(bs, i, k, req) && y in Pieces(bs)
    ensures var a := GapStart(bs[i], k); Disjoint(a, a + Need(req), y.addr, y.End())
  {
    PiecesIff(bs, y);
    var j: nat, m: nat :| Has(bs, y, j, m);
    GapIsFree(bs, i, k, req, j, m);
  }

  lemma AppendIsApart(bs: seq<Block>, hook: nat, req: nat, y: Piece)
    requires WfBlocks(bs) && FreshRun(bs, hook, PagesFor(Padded(req))) && y in Pieces(bs)
    ensures Disjoint(hook + MAJOR_SIZE, hook + MAJOR_SIZE + Need(req), y.addr, y.End())
  {
    PiecesIff(bs, y);
    var j: nat, m: nat :| Has(bs, y, j, m);
    assert WfBlock(bs[j]) && Apart(bs[j], Block(hook, PagesFor(Padded(req)), []));
  }

  /** The allocation `x` is new: it answers the request under pointer `p` and shares no byte with any other. */
  ghost predicate AddedOne(bs: seq<Block>, bs': seq<Block>, req: nat, p: nat, x: Piece) {
    && x.req == req && x.size == Padded(req) && p == Payload(x.addr)
    && Pieces(bs') == Pieces(bs) + {x}
    && (forall y :: y in Pieces(bs) ==> Disjoint(x.addr, x.End(), y.addr, y.End()))
    && InUse(bs') == InUse(bs) + Padded(req)
  }

  lemma InsertAdds(bs: seq<Block>, i: nat, k: nat, req: nat)
    requires Room(bs, i, k, req)
    ensures AddedOne(bs, bs[i := InsertPiece(bs[i], k, req)], req, Payload(GapStart(bs[i], k)),
                     Piece(GapStart(bs[i], k), Padded(req), req))
  {
    hide WfBlocks, WfBlock, Pieces, SumSizes, InUse;
    var x := Piece(GapStart(bs[i], k), Padded(req), req);
    InsertAddsOne(bs, i, k, req);
    TotalsReplace(bs, i, InsertPiece(bs[i], k, req));
    SumInsert(bs[i].pieces, k, x);
    forall y | y in Pieces(bs)
      ensures Disjoint(x.addr, x.End(), y.addr, y.End())
    {
      InsertIsApart(bs, i, k, req, y);
    }
  }

  lemma AppendAdds(bs: seq<Block>, hook: nat, req: nat)
    requires WfBlocks(bs) && FreshRun(bs, hook, PagesFor(Padded(req)))
    ensures AddedOne(bs, bs + [NewBlock(hook, req)], req, Payload(hook + MAJOR_SIZE), Piece(hook + MAJOR_SIZE, Padded(req), req))
  {
    hide WfBlocks, WfBlock, Pieces, SumSizes, InUse, FreshRun, PagesFor;
    var x := Piece(hook + MAJOR_SIZE, Padded(req), req);
    AppendAddsOne(bs, NewBlock(hook, req), x);
    TotalsAppend(bs, NewBlock(hook, req));
    SumOne(x);
    forall y | y in Pieces(bs)
      ensures Disjoint(x.addr, x.End(), y.addr, y.End())
    {
      AppendIsApart(bs, hook, req, y);
    }
  }

  /** A successful kmalloc adds one allocation, for this request and under the returned pointer, shares no byte with
      any other live allocation, and neither moves nor resizes any of them.  A failed one changes nothing. */
  lemma MallocAddsOne(bs: seq<Block>, best: nat, req: nat, hook: nat, bs': seq<Block>, p: nat)
    requires WfHeap(bs) && MallocStep(bs, best, req, hook, bs', p)
    requires hook != 0 ==> FreshRun(bs, hook, PagesFor(Padded(req)))
    ensures if p == 0 then bs' == bs && hook == 0 else exists x: Piece :: AddedOne(bs, bs', req, p, x)
  {
    hide WfBlocks, AddedOne, InUse, FreshRun, HasGap, PagesFor;
    if AnyGap(bs, Need(req)) {
      var s: nat, i: nat, k: nat :| MallocAt(bs, best, req, s, i, k, bs', p);
      InsertAdds(bs, i, k, req);
    } else if hook != 0 {
      AppendAdds(bs, hook, req);
    }
  }

  /** A kfree takes away exactly the allocation its pointer names. */
  lemma FreeTakesOne(bs: seq<Block>, p: nat, bs': seq<Block>)
    requires WfHeap(bs) && FreeStep(bs, p, bs')
    ensures exists x: Piece :: AddedOne(bs', bs, x.req, p, x)
  {
    FreeKeepsWf(bs, p, bs');
    var i: nat, k: nat :| IsPointer(bs, p, i, k) && bs' == RemoveAt(bs, i, k);
    var x := bs[i].pieces[k];
    RemoveTakes(bs, i, k);
    forall y | y in Pieces(bs')
      ensures Disjoint(x.addr, x.End(), y.addr, y.End())
    {
      RemoveIsApart(bs, i, k, y);
    }
    assert WfBlock(bs[i]);
    RemoveTotals(bs, i, k);
    assert AddedOne(bs', bs, x.req, p, x);
  }

  lemma RemoveTakes(bs: seq<Block>, i: nat, k: nat)
    requires i < |bs| && k < |bs[i].pieces|
    ensures Pieces(bs) == Pieces(RemoveAt(bs, i, k)) + {bs[i].pieces[k]}
  {
    var bs' := RemoveAt(bs, i, k);
    var x := bs[i].pieces[k];
    forall y
      ensures y in Pieces(bs) <==> y in Pieces(bs') || y == x
    {
      PiecesIff(bs, y);
      PiecesIff(bs', y);
      if y == x { assert Has(bs, y, i, k); }
      if y in Pieces(bs') {
        var j: nat, m: nat :| Has(bs', y, j, m);
        RemovedFrom(bs, i, k, j, m);
      }
      if y in Pieces(bs) && y != x {
        var j: nat, m: nat :| Has(bs, y, j, m);
        KeptBy(bs, i, k, j, m);
      }
    }
  }

  lemma RemovedFrom(bs: seq<Block>, i: nat, k: nat, j: nat, m: nat)
    requires i < |bs| && k < |bs[i].pieces|
    requires j < |RemoveAt(bs, i, k)| && m < |RemoveAt(bs, i, k)[j].pieces|
    ensures exists j': nat, m': nat :: Has(bs, RemoveAt(bs, i, k)[j].pieces[m], j', m') && !(j' == i && m' == k)
  {
    var x := RemoveAt(bs, i, k)[j].pieces[m];
    if |bs[i].pieces| == 1 {
      assert Has(bs, x, if j < i then j else j + 1, m);
    } else if j == i {
      assert Has(bs, x, i, if m < k then m else m + 1);
    } else {
      assert Has(bs, x, j, m);
    }
  }

  lemma KeptBy(bs: seq<Block>, i: nat, k: nat, j: nat, m: nat)
    requires i < |bs| && k < |bs[i].pieces| && j < |bs| && m < |bs[j].pieces| && !(j == i && m == k)
    ensures exists j': nat, m': nat :: Has(RemoveAt(bs, i, k), bs[j].pieces[m], j', m')
  {
    var bs' := RemoveAt(bs, i, k);
    if |bs[i].pieces| == 1 {
      assert Has(bs', bs[j].pieces[m], if j < i then j else j - 1, m);
    } else if j == i {
      assert Has(bs', bs[j].pieces[m], i, if m < k then m else m - 1);
    } else {
      assert Has(bs', bs[j].pieces[m], j, m);
    }
  }

  lemma RemoveIsApart(bs: seq<Block>, i: nat, k: nat, y: Piece)
    requires WfBlocks(bs) && i < |bs| && k < |bs[i].pieces| && y in Pieces(RemoveAt(bs, i, k))
    ensures Disjoint(bs[i].pieces[k].addr, bs[i].pieces[k].End(), y.addr, y.End())
  {
    PiecesIff(RemoveAt(bs, i, k), y);
    var j: nat, m: nat :| Has(RemoveAt(bs, i, k), y, j, m);
    RemovedFrom(bs, i, k, j, m);
    var j': nat, m': nat :| Has(bs, y, j', m') && !(j' == i && m' == k);
    AllocationsDisjoint(bs, i, k, j', m');
  }

  lemma RemoveTotals(bs: seq<Block>, i: nat, k: nat)
    requires i < |bs| && k < |bs[i].pieces|
    ensures InUse(bs) == InUse(RemoveAt(bs, i, k)) + bs[i].pieces[k].size
  {
    var c := RemovePiece(bs[i], k);
    InsertRemove(bs[i], k);
    SumInsert(c.pieces, k, bs[i].pieces[k]);
    if |bs[i].pieces| == 1 {
      TotalsDrop(bs, i);
      assert c.pieces == [];
    } else {
      TotalsReplace(bs, i, c);
    }
  }

  // ----- runs -----

  /** One call: a kfree of a live pointer, a kmalloc, or a call that leaves the heap alone. */
  ghost predicate Step(bs: seq<Block>, bs': seq<Block>) {
    || bs' == bs
    || (exists p: nat :: FreeStep(bs, p, bs'))
    || (exists best: nat, req: nat, hook: nat, p: nat :: AllowedMalloc(bs, best, req, hook, bs', p))
  }

  ghost predicate AllowedMalloc(bs: seq<Block>, best: nat, req: nat, hook: nat, bs': seq<Block>, p: nat) {
    && req <= MAX_REQUEST
    && (hook != 0 ==> FreshRun(bs, hook, PagesFor(Padded(req))))
    && MallocStep(bs, best, req, hook, bs', p)
  }

  /** The heaps an execution goes through, from the empty one. */
  ghost predicate IsRun(states: seq<seq<Block>>) {
    && |states| > 0 && states[0] == []
    && forall n :: 0 <= n < |states| - 1 ==> Step(states[n], states[n + 1])
  }

  /** Over every run, at every moment: the heap is well formed, and any two live allocations and any allocation and
      any block header are disjoint. */
  lemma {:induction false} RunIsSafe(states: seq<seq<Block>>, n: nat)
    requires IsRun(states) && n < |states|
    ensures WfHeap(states[n])
    ensures forall x, y :: x in Pieces(states[n]) && y in Pieces(states[n]) && x != y ==> Disjoint(x.addr, x.End(), y.addr, y.End())
    ensures forall x, b :: x in Pieces(states[n]) && b in states[n] ==> Disjoint(x.addr, x.End(), b.base, b.base + MAJOR_SIZE)
  {
    if n > 0 {
      RunIsSafe(states, n - 1);
      StepKeepsWf(states[n - 1], states[n]);
    }
    forall x, y | x in Pieces(states[n]) && y in Pieces(states[n]) && x != y
      ensures Disjoint(x.addr, x.End(), y.addr, y.End())
    {
      PiecesApart(states[n], x, y);
    }
    forall x, b | x in Pieces(states[n]) && b in states[n]
      ensures Disjoint(x.addr, x.End(), b.base, b.base + MAJOR_SIZE)
    {
      ClearOfHeaders(states[n], x, b);
    }
  }

  lemma ClearOfHeaders(bs: seq<Block>, x: Piece, b: Block)
    requires WfHeap(bs) && x in Pieces(bs) && b in bs
    ensures Disjoint(x.addr, x.End(), b.base, b.base + MAJOR_SIZE)
  {
    PiecesIff(bs, x);
    var i: nat, k: nat :| Has(bs, x, i, k);
    var j: nat :| j < |bs| && bs[j] == b;
    assert bs[j].pieces != [];
    AllocationsDisjoint(bs, i, k, j, 0);
  }

  lemma StepKeepsWf(bs: seq<Block>, bs': seq<Block>)
    requires WfHeap(bs) && Step(bs, bs')
    ensures WfHeap(bs')
  {
    if bs' == bs {
    } else if p: nat :| FreeStep(bs, p, bs') {
      FreeKeepsWf(bs, p, bs');
    } else {
      var best: nat, req: nat, hook: nat, p: nat :| AllowedMalloc(bs, best, req, hook, bs', p);
      MallocKeepsWf(bs, best, req, hook, bs', p);
    }
  }

  lemma PiecesApart(bs: seq<Block>, x: Piece, y: Piece)
    requires WfBlocks(bs) && x in Pieces(bs) && y in Pieces(bs) && x != y
    ensures Disjoint(x.addr, x.End(), y.addr, y.End())
  {
    PiecesIff(bs, x);
    PiecesIff(bs, y);
    var i: nat, k: nat :| Has(bs, x, i, k);
    var j: nat, m: nat :| Has(bs, y, j, m);
    AllocationsDisjoint(bs, i, k, j, m);
  }

  // ----- executions of the allocator -----

  datatype Call = Malloc(req: nat, hook: nat) | Free(ptr: nat, byte: nat, word: nat)

  /** All fields of the allocator but the warning counters, and the heap they stand for. */
  datatype Snapshot = Snapshot(view: seq<Block>, majors: map<nat, Major>, minors: map<nat, Minor>, info: map<nat, nat>,
                               root: nat, best: nat, inuse: int, reserved: int)

  ghost function Taken(heap: KHeap): Snapshot
    reads heap
  {
    Snapshot(heap.view, heap.majors, heap.minors, heap.info, heap.memRoot, heap.bestBet, heap.inuse, heap.sysAllocated)
  }

  /** The lists are linked both ways and hold exactly the heap, the counters are its true sums, no block is empty, and
      the hint is NULL or a block of the list. */
  ghost predicate Sound(s: Snapshot) {
    && WfHeap(s.view) && Stored(s.majors, s.minors, s.info, s.view) && BytesOk(s.info) && s.root == FirstBase(s.view)
    && s.inuse == InUse(s.view) && s.reserved == Allocated(s.view)
    && (s.best == 0 || exists i: nat :: IsBase(s.view, s.best, i))
  }

  lemma ValidIsSound(heap: KHeap)
    requires heap.Valid()
    ensures Sound(Taken(heap))
  {
    hide Stored, WfHeap, BytesOk;
  }

  /** What the page hook answers: the offered pages if they are fresh, else NULL. */
  ghost function Answer(bs: seq<Block>, req: nat, hook: nat): (h: nat)
    ensures h != 0 ==> FreshRun(bs, h, PagesFor(Padded(req)))
  {
    if FreshRun(bs, hook, PagesFor(Padded(req))) then hook else 0
  }

  /** What a call does to the heap and to the hint. */
  ghost predicate CallStep(s: Snapshot, call: Call, s': Snapshot) {
    match call
    case Malloc(req, hook) =>
      && (exists p: nat :: AllowedMalloc(s.view, s.best, req, Answer(s.view, req, hook), s'.view, p))
      && MallocHint(s.view, s.best, req, Answer(s.view, req, hook), s'.best)
    case Free(ptr, byte, word) =>
      var h := HeaderOf(s.info, ptr, byte);
      && (if ptr != 0 && HeaderLive(s.view, h) then Frees(s, Payload(h), s') else s'.view == s.view && s'.best == s.best)
      && (ptr != 0 && Live(s.view, ptr) ==> Frees(s, ptr, s'))
      && (ptr != 0 && !Live(s.view, ptr) && Recorded(s.info, ptr) ==> s'.view == s.view && s'.best == s.best)
  }

  /** The allocation of `ptr` is gone, and the hint follows the rule of `kfree`. */
  ghost predicate Frees(s: Snapshot, ptr: nat, s': Snapshot) {
    FreeStep(s.view, ptr, s'.view) && FreeHint(s'.view, s.best, BaseOf(s.view, ptr), s'.best)
  }

  /** Requests are within bounds, and memory never written does not hold the magic number. */
  predicate Allowed(call: Call) {
    match call
    case Malloc(req, hook) => req <= MAX_REQUEST
    case Free(ptr, byte, word) => word != MAGIC
  }

  /** Do the pages offered avoid every block?  A walk along the list of majors. */
  method IsFresh(heap: KHeap, hook: nat, pages: nat) returns (yes: bool)
    requires heap.Valid()
    ensures yes == FreshRun(heap.view, hook, pages)
  {
    ghost var bs := heap.view;
    StoredFirst(heap.majors, heap.minors, heap.info, bs);
    hide Stored, BytesOk, WfHeap, InUse, Allocated, SumPieces;
    if hook == 0 {
      return false;
    }
    var maj := heap.memRoot;
    ghost var i := 0;
    while maj != 0
      invariant 0 <= i <= |bs| && (maj != 0 <==> i < |bs|) && (i < |bs| ==> maj == bs[i].base)
      invariant forall j :: 0 <= j < i ==> Apart(bs[j], Block(hook, pages, []))
      decreases |bs| - i
    {
      WalkOn(heap.majors, heap.minors, heap.info, bs, i);
      var m := heap.majors[maj];
      if !(maj + m.size <= hook || hook + pages * 4096 <= maj) {
        assert !Apart(bs[i], Block(hook, pages, []));
        return false;
      }
      maj, i := m.next, i + 1;
    }
    return true;
  }

  lemma WalkOn(majors: map<nat, Major>, minors: map<nat, Minor>, info: map<nat, nat>, bs: seq<Block>, i: nat)
    requires Stored(majors, minors, info, bs) && i < |bs|
    ensures bs[i].base in majors && var m := majors[bs[i].base];
            m.size == bs[i].pages * 4096 && (m.next != 0 <==> i + 1 < |bs|) && (i + 1 < |bs| ==> m.next == bs[i + 1].base)
  {
    assert MajorAt(majors, bs, i);
    if i + 1 < |bs| { assert WfBlock(bs[i + 1]); }
  }

  /** The states an execution goes through, from `states[0]`, one per call. */
  ghost predicate IsExecution(states: seq<Snapshot>, calls: seq<Call>) {
    && |states| == |calls| + 1
    && (forall n :: 0 <= n < |states| ==> Sound(states[n]))
    && forall n :: 0 <= n < |calls| ==> CallStep(states[n], calls[n], states[n + 1])
  }

  lemma ExecutionGrows(states: seq<Snapshot>, calls: seq<Call>, n: nat, s: Snapshot)
    requires n < |calls| && IsExecution(states, calls[..n]) && Sound(s) && CallStep(states[n], calls[n], s)
    ensures IsExecution(states + [s], calls[..n + 1])
  {
    hide Sound, CallStep;
    var ss := states + [s];
    forall k | 0 <= k < n + 1
      ensures CallStep(ss[k], calls[k], ss[k + 1])
    {
      assert k < n ==> calls[..n][k] == calls[k];
    }
  }

  /** Any list of calls on one heap: every state passed through is sound, and every call does exactly its step. */
  method Execute(heap: KHeap, calls: seq<Call>) returns (ghost states: seq<Snapshot>)
    requires heap.Valid() && forall c :: c in calls ==> Allowed(c)
    modifies heap
    ensures heap.Valid() && IsExecution(states, calls)
    ensures states[0] == old(Taken(heap)) && states[|calls|] == Taken(heap)
  {
    hide Sound, CallStep, Stored, BytesOk, WfHeap, InUse, Allocated;
    ValidIsSound(heap);
    states := [Taken(heap)];
    var n := 0;
    while n < |calls|
      invariant 0 <= n <= |calls| && heap.Valid() && IsExecution(states, calls[..n])
      invariant states[0] == old(Taken(heap)) && states[n] == Taken(heap)
    {
      Perform(heap, calls[n]);
      ValidIsSound(heap);
      ExecutionGrows(states, calls, n, Taken(heap));
      states := states + [Taken(heap)];
      n := n + 1;
    }
    assert calls[..|calls|] == calls;
  }

  method Perform(heap: KHeap, call: Call)
    requires heap.Valid() && Allowed(call)
    modifies heap
    ensures heap.Valid() && CallStep(old(Taken(heap)), call, Taken(heap))
  {
    hide Stored, BytesOk, WfHeap, InUse, Allocated, FreshRun, MallocStep, FreeStep, Live;
    ghost var bs, best := heap.view, heap.bestBet;
    match call
    case Malloc(req, hook) =>
      var isFresh := IsFresh(heap, hook, PagesFor(Padded(req)));
      var p, asks := heap.Kmalloc(req, if isFresh then hook else 0);
      assert AllowedMalloc(bs, best, req, Answer(bs, req, hook), heap.view, p);
    case Free(ptr, byte, word) =>
      heap.Kfree(ptr, byte, word);
  }

  /** An execution from the empty heap is a run, so at every moment all live allocations are pairwise disjoint. */
  lemma ExecutionIsRun(states: seq<Snapshot>, calls: seq<Call>)
    requires IsExecution(states, calls) && states[0].view == []
    ensures IsRun(Views(states))
  {
    hide Sound;
    var vs := Views(states);
    forall n | 0 <= n < |vs| - 1
      ensures Step(vs[n], vs[n + 1])
    {
      assert CallStep(states[n], calls[n], states[n + 1]);
    }
  }

  ghost function Views(states: seq<Snapshot>): (vs: seq<seq<Block>>)
    ensures |vs| == |states| && forall n :: 0 <= n < |vs| ==> vs[n] == states[n].view
  {
    seq(|states|, n requires 0 <= n < |states| => states[n].view)
  }
}
