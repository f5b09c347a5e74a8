/** The pointer code of kernel/std/kheap.c: `kmalloc` with its five cases, `kfree`, and the counters.
    The ghost field `view` is the heap's meaning, and `Valid` pins every stored field to it. */
module KernelHeap {
  import opened HeapLayout
  import opened HeapMemory

  class KHeap {
    var majors: map<nat, Major>
    var minors: map<nat, Minor>
    var info: map<nat, nat>
    var memRoot: nat
    var bestBet: nat
    var sysAllocated: int
    var inuse: int
    var warningCount: nat
    var errorCount: nat
    var possibleOverruns: nat
    ghost var view: seq<Block>

    /** Everything but "no block is empty", which fails inside kmalloc between getting and using fresh pages. */
    ghost predicate Shape()
      reads this
    {
      && Stored(majors, minors, info, view)
      && BytesOk(info)
      && memRoot == FirstBase(view)
      && (bestBet == 0 || exists i: nat :: IsBase(view, bestBet, i))
      && inuse == InUse(view)
      && sysAllocated == Allocated(view)
    }

    ghost predicate Valid()
      reads this
    {
      Shape() && WfHeap(view)
    }

    constructor ()
      ensures Valid() && view == [] && bestBet == 0
      ensures warningCount == errorCount == possibleOverruns == 0
    {
      majors, minors, info := map[], map[], map[];
      memRoot, bestBet := 0, 0;
      sysAllocated, inuse := 0, 0;
      warningCount, errorCount, possibleOverruns := 0, 0, 0;
      view := [];
    }

    /** `hook` is what `liballoc_alloc` answers: the start of a fresh page run, or 0. */
    method AllocateNewPage(size: nat, hook: nat) returns (maj: nat)
      modifies this`majors, this`sysAllocated, this`warningCount
      ensures maj == hook
      ensures hook == 0 ==> majors == old(majors) && sysAllocated == old(sysAllocated) && warningCount == old(warningCount) + 1
      ensures hook != 0 ==>
                && majors == old(majors)[hook := Major(0, 0, PagesFor(size), PagesFor(size) * 4096, MAJOR_SIZE, 0)]
                && sysAllocated == old(sysAllocated) + PagesFor(size) * 4096 && warningCount == old(warningCount)
    {
      var st := size + MAJOR_SIZE;
      st := st + MINOR_SIZE;
      if st % 4096 == 0 {
        st := st / 4096;
      } else {
        st := st / 4096 + 1;
      }
      if st < MIN_PAGES { st := MIN_PAGES; }
      maj := hook;
      if maj == 0 {
        warningCount := warningCount + 1;
        return;
      }
      majors := majors[maj := Major(0, 0, st, st * 4096, MAJOR_SIZE, 0)];
      sysAllocated := sysAllocated + st * 4096;
    }

    /** The ALIGN macro: move past the alignment record, round up, leave the distance behind. */
    method Align(ptr: nat) returns (p: nat)
      requires ptr >= MINOR_SIZE
      modifies this`info
      ensures p == Payload(ptr - MINOR_SIZE)
      ensures info == AlignInfo(old(info), ptr - MINOR_SIZE)
    {
      p := ptr + ALIGN_INFO;
      var diff := p % 16;
      if diff != 0 {
        diff := ALIGNMENT - diff;
        p := p + diff;
      }
      info := info[p - ALIGN_INFO := diff + ALIGN_INFO];
    }

    /** The heap after the request went into gap `k` of block `i`; the hint and the warning counters are untouched. */
    twostate predicate Placed(i: nat, k: nat, req: nat, p: nat)
      reads this
    {
      && i < |old(view)| && k <= |old(view)[i].pieces|
      && view == old(view)[i := InsertPiece(old(view)[i], k, req)]
      && p == Payload(GapStart(old(view)[i], k))
      && bestBet == old(bestBet)
      && warningCount == old(warningCount) && errorCount == old(errorCount) && possibleOverruns == old(possibleOverruns)
    }

    /** Write a header and make its neighbours point to it; the bytes behind it now belong to the caller. */
    method WriteHeader(a: nat, m: Minor)
      requires m.prev != 0 ==> m.prev in ForgetMinors(minors, a, a + MINOR_SIZE + m.size)
      requires m.next != 0 ==> m.next in ForgetMinors(minors, a, a + MINOR_SIZE + m.size)
      modifies this`minors, this`info
      ensures minors == LinkIn(old(minors), a, m)
      ensures info == ForgetInfo(old(info), a, a + MINOR_SIZE + m.size)
    {
      hide ForgetMinors, ForgetInfo;
      minors := ForgetMinors(minors, a, a + MINOR_SIZE + m.size)[a := m];
      info := ForgetInfo(info, a, a + MINOR_SIZE + m.size);
      if m.next != 0 { minors := minors[m.next := minors[m.next].(prev := a)]; }
      if m.prev != 0 { minors := minors[m.prev := minors[m.prev].(next := a)]; }
    }

    /** Charge an allocation to its block and to the running total. */
    method Charge(maj: nat, a: nat, atFront: bool, size: nat)
      requires maj in majors
      modifies this`majors, this`inuse
      ensures majors == PlacedMajors(old(majors), maj, a, atFront, size + MINOR_SIZE)
      ensures inuse == old(inuse) + size
    {
      if atFront { majors := majors[maj := majors[maj].(first := a)]; }
      majors := majors[maj := majors[maj].(usage := majors[maj].usage + size + MINOR_SIZE)];
      inuse := inuse + size;
    }

    /** The writes shared by cases 2, 3, 4.1 and 4.2: header, neighbours, accounting, alignment. */
    method Place(maj: nat, a: nat, prev: nat, next: nat, req: nat, ghost i: nat, ghost k: nat) returns (p: nat)
      requires Shape() && Room(view, i, k, req) && view[i].base == maj
      requires a == GapStart(view[i], k) && prev == PrevAddr(view[i], k) && next == NextAddr(view[i], k)
      modifies this
      ensures Shape() && Placed(i, k, req, p)
    {
      hide Stored, WfBlocks, HeadersOk, InfosOk, ForgetMinors, ForgetInfo, InUse, Allocated, MajorImage, LinkIn, PlacedMajors, AlignInfo;
      StoredHeaders(majors, minors, info, view, i);
      NeighboursKnown(majors, minors, info, view, i, k, req);
      PlaceStored(majors, minors, info, view, i, k, req);
      AlignKeepsBytes(info, a, a + Need(req), a);
      ghost var bs' := view[i := InsertPiece(view[i], k, req)];
      HintStays(view, bs', bestBet, i);
      WriteHeader(a, Minor(prev, next, maj, MAGIC, Padded(req), req));
      Charge(maj, a, prev == 0, Padded(req));
      p := Align(a + MINOR_SIZE);
      view := bs';
    }

    /** Cases 2 to 4 on one block with enough free bytes: take its first usable gap, or report that it has none. */
    method FindRoom(maj: nat, req: nat, ghost i: nat) returns (p: nat, ghost k: nat)
      requires Shape() && IsBase(view, maj, i) && Free(view[i]) >= Need(req)
      modifies this
      ensures Shape()
      ensures p != 0 ==> IsFirstGap(old(view)[i], Need(req), k) && Placed(i, k, req, p)
      ensures p == 0 ==> !HasGap(old(view)[i], Need(req)) && unchanged(this)
    {
      ghost var b := view[i];
      StoredHeaders(majors, minors, info, view, i);
      StoredWf(majors, minors, info, view);
      WfAt(view, i);
      hide Stored, WfBlocks, WfBlock, HeadersOk, InfosOk, SumPieces;
      p, k := 0, 0;
      // CASE 2: it's a brand new block
      if majors[maj].first == 0 {
        FirstIsNull(b);
        p := Place(maj, maj + MAJOR_SIZE, 0, 0, req, i, 0);
        return;
      }
      FirstIsNull(b);
      // CASE 3: enough space at the start of the block
      var diff := majors[maj].first - maj - MAJOR_SIZE;
      if diff >= Need(req) {
        p := Place(maj, maj + MAJOR_SIZE, 0, majors[maj].first, req, i, 0);
        return;
      }
      var min, next, a;
      min, next, a, k := FindBehind(maj, req, i);
      if min != 0 {
        p := Place(maj, a, min, next, req, i, k);
      }
    }

    /** CASE 4: walk the allocations of a block to the first that has a usable gap behind it. */
    method FindBehind(maj: nat, req: nat, ghost i: nat) returns (min: nat, next: nat, a: nat, ghost k: nat)
      requires Shape() && IsBase(view, maj, i) && view[i].pieces != [] && Gap(view[i], 0) < Need(req)
      ensures min != 0 ==> IsFirstGap(view[i], Need(req), k) && a == GapStart(view[i], k)
      ensures min != 0 ==> min == PrevAddr(view[i], k) && next == NextAddr(view[i], k)
      ensures min == 0 ==> !HasGap(view[i], Need(req))
    {
      ghost var b := view[i];
      StoredHeaders(majors, minors, info, view, i);
      StoredWf(majors, minors, info, view);
      WfAt(view, i);
      assert maj + majors[maj].size == b.Limit() && majors[maj].first == b.pieces[0].addr;
      hide Stored, WfBlocks, WfBlock, HeadersOk, InfosOk, InUse, Allocated, MajorAt, GapStart, GapEnd, NoGapBefore, IsFirstGap, HasGap;
      NoGapAtFront(b, Need(req));
      min, next, a, k := majors[maj].first, 0, 0, 1;
      while min != 0
        invariant 1 <= k <= |b.pieces| + 1
        invariant min == if k <= |b.pieces| then b.pieces[k - 1].addr else 0
        invariant NoGapBefore(b, Need(req), k)
        decreases |b.pieces| + 1 - k
      {
        HeaderPointers(minors, b, k - 1);
        next := minors[min].next;
        a := min + MINOR_SIZE + minors[min].size;
        // CASE 4.1: from the last allocation to the end of the block; CASE 4.2: between two allocations
        var end := if next == 0 then maj + majors[maj].size else next;
        NoGapMoves(b, Need(req), k);
        if end - a >= Need(req) {
          return;
        }
        min := next;
        k := k + 1;
      }
      NoGapAtAll(b, Need(req));
    }

    /** The first block of all (`l_memRoot == NULL`). */
    method InitRoot(req: nat, hook: nat) returns (ok: bool)
      requires Shape() && view == [] && bestBet == 0 && req <= MAX_REQUEST
      modifies this
      ensures Shape() && ok == (hook != 0) && bestBet == 0
      ensures view == if ok then [EmptyBlock(hook, req)] else []
      ensures warningCount == old(warningCount) + (if ok then 0 else 1)
      ensures errorCount == old(errorCount) && possibleOverruns == old(possibleOverruns)
    {
      memRoot := AllocateNewPage(Padded(req), hook);
      ok := memRoot != 0;
      if ok {
        view := [EmptyBlock(hook, req)];
        FreshBlockFits(hook, req);
        TotalsOne(view[0]);
      }
    }

    /** A new block behind the last one (`maj->next == NULL`). */
    method Extend(maj: nat, req: nat, hook: nat) returns (next: nat)
      requires Shape() && view != [] && maj == view[|view| - 1].base && req <= MAX_REQUEST
      requires hook != 0 ==> FreshRun(view, hook, PagesFor(Padded(req)))
      modifies this
      ensures Shape() && next == hook && bestBet == old(bestBet)
      ensures view == if hook != 0 then old(view) + [EmptyBlock(hook, req)] else old(view)
      ensures warningCount == old(warningCount) + (if hook != 0 then 0 else 1)
      ensures errorCount == old(errorCount) && possibleOverruns == old(possibleOverruns)
    {
      hide Stored, WfBlocks, InUse, Allocated, FreshRun, MajorImage;
      StoredHeaders(majors, minors, info, view, |view| - 1);
      if hook != 0 {
        ExtendStored(majors, minors, info, view, hook, req);
        HintAfterAppend(view, EmptyBlock(hook, req), bestBet);
      }
      next := AllocateNewPage(Padded(req), hook);
      majors := majors[maj := majors[maj].(next := next)];
      if next == 0 {
        LastHasNoNext(old(majors), view);
        assert majors == old(majors);
        return;
      }
      majors := majors[next := majors[next].(prev := maj)];
      view := view + [EmptyBlock(hook, req)];
      assert majors == ExtendedMajors(old(majors), maj, hook, req);
    }

    /** The free bytes of a block; the hint moves to it when it beats the best seen so far. */
    method Look(maj: nat, bestSize: int, ghost i: nat) returns (diff: int, bestSize': int)
      requires Shape() && IsBase(view, maj, i) && maj != 0 && HintFree(view, bestBet, bestSize)
      modifies this`bestBet
      ensures Shape() && HintFree(view, bestBet, bestSize')
      ensures diff == Free(view[i]) && bestSize' == (if bestSize < diff then diff else bestSize)
      ensures bestBet == if bestSize < diff then maj else old(bestBet)
      ensures maj in majors && majors[maj].next == NextMajor(view, i)
    {
      StoredHeaders(majors, minors, info, view, i);
      hide Stored, SumPieces, InUse, Allocated;
      diff := majors[maj].size - majors[maj].usage;
      bestSize' := bestSize;
      if bestSize < diff {
        bestBet := maj;
        bestSize' := diff;
        assert IsBase(view, bestBet, i);
      }
    }

    /** Where the scan starts: at the hint if that block has more than enough free bytes, else at the root. */
    method Begin(req: nat) returns (maj: nat, startedBet: bool, bestSize: int, ghost i: nat)
      requires Shape() && view != []
      ensures IsBase(view, maj, i) && maj != 0 && IsStart(view, bestBet, Need(req), i) && (bestBet == 0 ==> !startedBet)
      ensures HintFree(view, bestBet, bestSize) && (!startedBet ==> i == 0)
    {
      StoredFirst(majors, minors, info, view);
      maj, startedBet, bestSize, i := memRoot, false, 0, 0;
      if bestBet != 0 {
        ghost var h: nat :| IsBase(view, bestBet, h);
        StoredFree(majors, minors, info, view, h);
        StartIs(majors, minors, info, view, bestBet, Need(req), h);
        hide Stored, Free, IsStart, InUse, Allocated;
        bestSize := majors[bestBet].size - majors[bestBet].usage;
        if bestSize > Need(req) {
          maj, startedBet, i := bestBet, true, h;
        }
      } else {
        NoHint(majors, minors, info, view, Need(req));
      }
    }

    /** Leave a block that cannot serve the request: the next block, the root again, or fresh pages. */
    method Advance(maj: nat, startedBet: bool, req: nat, hook: nat, ghost i: nat)
      returns (turn: Turn, maj': nat, startedBet': bool, ghost i': nat)
      requires Shape() && IsBase(view, maj, i) && req <= MAX_REQUEST
      requires hook != 0 && i + 1 == |view| && !startedBet ==> FreshRun(view, hook, PagesFor(Padded(req)))
      modifies this
      ensures Shape() && bestBet == old(bestBet)
      ensures TurnOk(old(view), view, hook, req, startedBet, startedBet', i, i', turn)
      ensures turn != NoMemory ==> IsBase(view, maj', i') && maj' != 0
      ensures warningCount == old(warningCount) + (if turn == NoMemory then 1 else 0)
      ensures errorCount == old(errorCount) && possibleOverruns == old(possibleOverruns)
    {
      StoredFree(majors, minors, info, view, i);
      StoredFirst(majors, minors, info, view);
      hide Stored, Free, InUse, Allocated, FreshRun;
      maj', startedBet', i' := maj, startedBet, i;
      if majors[maj].next != 0 {
        turn, maj', i' := Hop, majors[maj].next, i + 1;
      } else if startedBet {
        turn, maj', startedBet', i' := Restart, memRoot, false, 0;
      } else {
        var next := Extend(maj, req, hook);
        if next == 0 {
          turn := NoMemory;
        } else {
          turn, maj', i' := Extended, next, i + 1;
        }
      }
    }

    /** CASE 1: too few free bytes in this block; a block of fresh pages falls through to CASE 2. */
    method CaseOne(maj: nat, startedBet: bool, bestSize: int, req: nat, hook: nat,
                   ghost vs: seq<Block>, ghost best0: nat, ghost bet: bool, ghost s: nat, ghost extended: bool, ghost i: nat)
      returns (done: bool, p: nat, asked: bool, maj': nat, startedBet': bool, ghost i': nat)
      requires Shape() && IsBase(view, maj, i) && req <= MAX_REQUEST && Free(view[i]) < Need(req) && Free(view[i]) <= bestSize
      requires ScanState(vs, view, best0, hook, req, bestBet, bestSize, bet, s, extended, startedBet, i)
      modifies this
      ensures Shape() && !extended && Counters(done && p == 0) && bestBet == old(bestBet)
      ensures done ==> asked && Finished(vs, view, best0, hook, req, bestBet, p, asked) && i + 1 == |vs| && !startedBet
      ensures !done ==> !asked && view == old(view) && IsBase(view, maj', i') && maj' != 0
      ensures !done ==> ScanState(vs, view, best0, hook, req, bestBet, bestSize, bet, s, false, startedBet', i')
      ensures !done ==> Later(|vs|, startedBet, i, startedBet', i')
    {
      hide Stored, WfBlocks, HasGap, Free, InUse, Allocated, FreshRun, MallocStep, HintLargest, ScanState, AnyGap;
      ghost var was := view;
      TooSmall(majors, minors, info, view, i, Need(req));
      NotFresh(vs, view, best0, hook, req, bestBet, bestSize, bet, s, extended, startedBet, i);
      var turn;
      turn, maj', startedBet', i' := Advance(maj, startedBet, req, hook, i);
      TurnKeeps(vs, was, view, best0, hook, req, bestBet, bestSize, bet, s, startedBet, startedBet', i, i', turn);
      done, p, asked := turn == NoMemory || turn == Extended, 0, turn == NoMemory || turn == Extended;
      if turn == Extended {
        was := view;
        FreshServes(vs, view, best0, hook, req, bestBet, bestSize, bet, s, startedBet', i');
        ghost var k;
        p, k := FindRoom(maj', req, i');
        FoundKeeps(vs, was, view, best0, hook, req, bestBet, bestSize, bet, s, true, startedBet', i', k, p);
      }
    }

    /** CASES 2 to 5: enough free bytes; take a gap, or go on behind this block. */
    method CasesTwoToFive(maj: nat, startedBet: bool, bestSize: int, req: nat, hook: nat,
                          ghost vs: seq<Block>, ghost best0: nat, ghost bet: bool, ghost s: nat, ghost extended: bool, ghost i: nat)
      returns (done: bool, p: nat, asked: bool, maj': nat, startedBet': bool, ghost i': nat)
      requires Shape() && IsBase(view, maj, i) && req <= MAX_REQUEST && Free(view[i]) >= Need(req) && Free(view[i]) <= bestSize
      requires ScanState(vs, view, best0, hook, req, bestBet, bestSize, bet, s, extended, startedBet, i)
      modifies this
      ensures Shape() && (extended ==> !asked) && Counters(done && p == 0) && bestBet == old(bestBet)
      ensures done && p != 0 ==> !asked && HasGap(old(view)[i], Need(req))
      ensures done && p == 0 ==> asked && hook == 0 && !extended && i + 1 == |vs| && !startedBet
      ensures done ==> Finished(vs, view, best0, hook, req, bestBet, p, extended || asked)
      ensures !done ==> !extended && IsBase(view, maj', i') && maj' != 0
      ensures !done ==> ScanState(vs, view, best0, hook, req, bestBet, bestSize, bet, s, asked, startedBet', i')
      ensures !done ==> if asked then !startedBet && !startedBet' && i + 1 == |vs| == i' else view == old(view) && Later(|vs|, startedBet, i, startedBet', i')
    {
      hide Stored, WfBlocks, HasGap, Free, InUse, Allocated, FreshRun, MallocStep, HintLargest, ScanState, AnyGap;
      ghost var was := view;
      ghost var k;
      p, k := FindRoom(maj, req, i);
      if p != 0 {
        done, asked, maj', startedBet', i' := true, false, maj, startedBet, i;
        FirstGapIsGap(was[i], Need(req), k);
        FoundKeeps(vs, was, view, best0, hook, req, bestBet, bestSize, bet, s, extended, startedBet, i, k, p);
        return;
      }
      NotFresh(vs, view, best0, hook, req, bestBet, bestSize, bet, s, extended, startedBet, i);
      var turn;
      turn, maj', startedBet', i' := Advance(maj, startedBet, req, hook, i);
      TurnKeeps(vs, was, view, best0, hook, req, bestBet, bestSize, bet, s, startedBet, startedBet', i, i', turn);
      done, asked := turn == NoMemory, turn == NoMemory || turn == Extended;
    }

    /** The counters of warnings and errors, of which a failed kmalloc moves one. */
    twostate predicate Counters(failed: bool)
      reads this
    {
      && warningCount == old(warningCount) + (if failed then 1 else 0)
      && errorCount == old(errorCount) && possibleOverruns == old(possibleOverruns)
    }

    /** One pass of the loop: look at a block, then try to serve the request there or move on. */
    method ScanBlock(maj: nat, startedBet: bool, bestSize: int, req: nat, hook: nat,
                     ghost vs: seq<Block>, ghost best0: nat, ghost n0: int, ghost bet: bool, ghost s: nat, ghost extended: bool, ghost i: nat)
      returns (done: bool, p: nat, asked: bool, maj': nat, startedBet': bool, bestSize': int, ghost i': nat)
      requires Shape() && IsBase(view, maj, i) && maj != 0 && req <= MAX_REQUEST
      requires ScanState(vs, view, best0, hook, req, bestBet, bestSize, bet, s, extended, startedBet, i)
      requires HintState(vs, best0, n0, req, bestBet, bestSize, bet, s, extended, startedBet, i)
      modifies this
      ensures Shape() && (extended ==> !asked) && Counters(done && p == 0)
      ensures done ==> Finished(vs, view, best0, hook, req, bestBet, p, extended || asked) && MallocHint(vs, best0, req, hook, bestBet)
      ensures !done ==> !extended && IsBase(view, maj', i') && maj' != 0
      ensures !done ==> ScanState(vs, view, best0, hook, req, bestBet, bestSize', bet, s, asked, startedBet', i')
      ensures !done ==> HintState(vs, best0, n0, req, bestBet, bestSize', bet, s, asked, startedBet', i')
      ensures !done ==> if asked then !startedBet && !startedBet' else view == old(view) && Later(|vs|, startedBet, i, startedBet', i')
    {
      hide Stored, WfBlocks, HasGap, Free, InUse, Allocated, FreshRun, MallocStep, HintLargest, ScanState, AnyGap, HintFree, MallocHint,
        HintState, HintSeen;
      ghost var best, bs := bestBet, view;
      var diff;
      StateHint(vs, view, best0, hook, req, bestBet, bestSize, bet, s, extended, startedBet, i);
      diff, bestSize' := Look(maj, bestSize, i);
      LookKeeps(vs, view, best0, hook, req, best, bestSize, bestBet, bestSize', bet, s, extended, startedBet, i);
      LookHint(vs, view, best0, n0, hook, req, best, bestSize, bestBet, bestSize', bet, s, extended, startedBet, i);
      if diff < Need(req) {
        done, p, asked, maj', startedBet', i' := CaseOne(maj, startedBet, bestSize', req, hook, vs, best0, bet, s, extended, i);
      } else {
        done, p, asked, maj', startedBet', i' := CasesTwoToFive(maj, startedBet, bestSize', req, hook, vs, best0, bet, s, extended, i);
      }
      if !done {
        NextHint(vs, bs, best0, n0, hook, req, bestBet, bestSize', bet, s, extended, asked, startedBet, startedBet', i, i');
      } else if p != 0 && !asked {
        FoundHint(vs, bs, best0, n0, hook, req, bestBet, bestSize', bet, s, extended, startedBet, i);
      } else {
        EndHint(vs, bs, best0, n0, hook, req, bestBet, bestSize', bet, s, startedBet, i);
      }
    }

    /** `kmalloc(req)`: `asks` counts the calls of the page hook, which would answer `hook`. */
    method Kmalloc(req: nat, hook: nat) returns (p: nat, asks: nat)
      requires Valid() && req <= MAX_REQUEST
      requires hook != 0 ==> FreshRun(view, hook, PagesFor(Padded(req)))
      modifies this
      ensures Valid()
      ensures MallocStep(old(view), old(bestBet), req, hook, view, p)
      ensures asks == if AnyGap(old(view), Need(req)) then 0 else 1
      ensures MallocHint(old(view), old(bestBet), req, hook, bestBet)
      ensures asks == 1 ==> HintLargest(old(view), hook, req, bestBet)
      ensures Counters(p == 0)
    {
      hide Stored, WfBlocks, HasGap, Free, InUse, Allocated, FreshRun, MallocStep, HintLargest, ScanState, AnyGap, HintFree, MallocHint,
        HintState, HintSeen;
      ghost var vs, best0 := view, bestBet;
      StoredFirst(majors, minors, info, view);
      p, asks := 0, 0;
      ghost var extended := false;
      if memRoot == 0 {
        NoBlocks(vs, best0, hook, req);
        NoBlocksNoHint(bestBet);
        asks := 1;
        var ok := InitRoot(req, hook);
        if !ok { return; }
        extended := true;
      }
      var maj, startedBet, bestSize, i := Begin(req);
      ghost var bet, s, n0 := startedBet, i, bestSize;
      BeginState(vs, view, best0, hook, req, bestSize, extended, startedBet, i);
      StoredWf(majors, minors, info, view);
      BeginHint(vs, view, best0, hook, req, bestSize, extended, startedBet, i);
      var done := false;
      while !done
        invariant Shape() && Counters(done && p == 0)
        invariant asks == if extended then 1 else 0
        invariant done ==> Finished(vs, view, best0, hook, req, bestBet, p, extended) && MallocHint(vs, best0, req, hook, bestBet)
        invariant !done ==> IsBase(view, maj, i) && maj != 0
        invariant !done ==> ScanState(vs, view, best0, hook, req, bestBet, bestSize, bet, s, extended, startedBet, i)
        invariant !done ==> HintState(vs, best0, n0, req, bestBet, bestSize, bet, s, extended, startedBet, i)
        decreases !done, startedBet, !extended, |view| - i
      {
        var asked;
        done, p, asked, maj, startedBet, bestSize, i := ScanBlock(maj, startedBet, bestSize, req, hook, vs, best0, n0, bet, s, extended, i);
        if asked { asks, extended := asks + 1, true; }
      }
      FinishedKeepsWf(vs, view, best0, hook, req, bestBet, p, extended);
    }

    /** Mark a header dead and make its neighbours point past it. */
    method KillHeader(min: nat)
      requires min in minors
      requires minors[min].next != 0 ==> minors[min].next in minors
      requires minors[min].prev != 0 ==> minors[min].prev in minors
      modifies this`minors
      ensures minors == LinkOut(old(minors), min)
    {
      var m := minors[min];
      minors := minors[min := minors[min].(magic := DEAD)];
      if m.next != 0 { minors := minors[m.next := minors[m.next].(prev := m.prev)]; }
      if m.prev != 0 { minors := minors[m.prev := minors[m.prev].(next := m.next)]; }
    }

    /** Take an allocation off its block's account and off the running total. */
    method Discharge(m: Minor)
      requires m.block in majors && majors[m.block].usage >= m.size + MINOR_SIZE
      modifies this`majors, this`inuse
      ensures majors == RemovedMajors(old(majors), m)
      ensures inuse == old(inuse) - m.size
    {
      inuse := inuse - m.size;
      majors := majors[m.block := majors[m.block].(usage := majors[m.block].usage - (m.size + MINOR_SIZE))];
      if m.prev == 0 { majors := majors[m.block := majors[m.block].(first := m.next)]; }
    }

    /** Take a live header out of its block's list and out of the accounts. */
    method Unlink(min: nat, ghost i: nat, ghost k: nat)
      requires Shape() && IsHeader(view, min, i, k)
      modifies this
      ensures Shape() && view == old(view)[i := RemovePiece(old(view)[i], k)]
      ensures bestBet == old(bestBet) && info == old(info) && Counters(false)
    {
      hide Stored, BytesOk, InUse, Allocated, LinkOut, RemovedMajors;
      HeaderIsLive(majors, minors, info, view, i, k);
      RemoveStored(majors, minors, info, view, i, k);
      HintStays(view, view[i := RemovePiece(view[i], k)], bestBet, i);
      Discharge(minors[min]);
      KillHeader(min);
      view := view[i := RemovePiece(view[i], k)];
    }

    /** Take a block out of the list of majors. */
    method UnlinkBlock(maj: nat)
      requires maj in majors
      requires majors[maj].prev != 0 ==> majors[maj].prev in majors
      requires majors[maj].next != 0 ==> majors[maj].next in majors
      modifies this`majors
      ensures majors == DropMajor(old(majors), maj)
    {
      var m := majors[maj];
      if m.prev != 0 { majors := majors[m.prev := majors[m.prev].(next := m.next)]; }
      if m.next != 0 { majors := majors[m.next := majors[m.next].(prev := m.prev)]; }
      majors := majors - {maj};
    }

    /** The root, the hint and the total no longer count the block. */
    method ForgetRoots(maj: nat, m: Major)
      modifies this`memRoot, this`bestBet, this`sysAllocated
      ensures memRoot == if old(memRoot) == maj then m.next else old(memRoot)
      ensures bestBet == if old(bestBet) == maj then 0 else old(bestBet)
      ensures sysAllocated == old(sysAllocated) - m.size
    {
      if memRoot == maj { memRoot := m.next; }
      if bestBet == maj { bestBet := 0; }
      sysAllocated := sysAllocated - m.size;
    }

    /** Give an empty block back to the system. */
    method Release(maj: nat, ghost i: nat)
      requires Shape() && IsBase(view, maj, i) && view[i].pieces == []
      modifies this
      ensures Shape() && view == DropBlock(old(view), i)
      ensures bestBet == if old(bestBet) == maj then 0 else old(bestBet)
      ensures Counters(false)
    {
      hide Stored, BytesOk, InUse, Allocated, ForgetMinors, ForgetInfo, DropMajor, LiveMajor, NextMajor;
      ReleaseAll(majors, minors, info, view, i, bestBet);
      var m := majors[maj];
      ForgetRoots(maj, m);
      UnlinkBlock(maj);
      minors := ForgetMinors(minors, maj, maj + m.size);
      info := ForgetInfo(info, maj, maj + m.size);
      view := DropBlock(view, i);
    }

    /** Point the hint at a block that was freed from if it now has more free bytes, compared as C `int`s. */
    method Rehint(maj: nat, ghost i: nat)
      requires Shape() && IsBase(view, maj, i) && maj != 0
      modifies this`bestBet
      ensures Shape() && FreeHint(view, old(bestBet), maj, bestBet)
    {
      hide Stored, BytesOk, InUse, Allocated, Free, AsInt;
      if bestBet != 0 {
        ghost var h: nat :| IsBase(view, bestBet, h);
        StoredFree(majors, minors, info, view, h);
        StoredFree(majors, minors, info, view, i);
        StoredDistinct(majors, minors, info, view);
        FreeOfIs(view, bestBet, h);
        FreeOfIs(view, maj, i);
        var bestSize := AsInt(majors[bestBet].size - majors[bestBet].usage);
        var majSize := AsInt(majors[maj].size - majors[maj].usage);
        if majSize > bestSize { bestBet := maj; }
      }
    }

    /** After a removal: release the block if it is empty, else see whether it beats the hint. */
    method CleanUp(maj: nat, ghost i: nat)
      requires Shape() && IsBase(view, maj, i)
      modifies this
      ensures Shape()
      ensures view == if old(view)[i].pieces == [] then DropBlock(old(view), i) else old(view)
      ensures FreeHint(view, old(bestBet), maj, bestBet) && Counters(false)
    {
      hide Stored, BytesOk, InUse, Allocated, Free;
      StoredPieces(majors, minors, info, view, i);
      StoredDistinct(majors, minors, info, view);
      if majors[maj].first == 0 {
        DroppedBase(view, i);
        Release(maj, i);
      } else {
        Rehint(maj, i);
      }
    }

    /** A live pointer was freed: its allocation is gone, and the hint follows the rule. */
    twostate predicate Freed(ptr: nat)
      reads this
    {
      && FreeStep(old(view), ptr, view)
      && FreeHint(view, old(bestBet), BaseOf(old(view), ptr), bestBet)
      && Counters(false)
    }

    /** Anything else was refused: nothing but the error counters moves. */
    twostate predicate Refused(overrun: bool)
      reads this
    {
      && view == old(view) && bestBet == old(bestBet) && warningCount == old(warningCount)
      && errorCount == old(errorCount) + 1
      && possibleOverruns == old(possibleOverruns) + (if overrun then 1 else 0)
    }

    /** The magic number read in a header at `h`; `word` is read where the allocator never wrote one. */
    function MagicAt(h: int, word: nat): nat
      reads this`minors
    {
      if h >= 0 && h in minors then minors[h].magic else word
    }

    method Refuse(magic: nat)
      requires Valid()
      modifies this`errorCount, this`possibleOverruns
      ensures Valid() && Refused(PartlyMagic(magic))
    {
      hide Stored, BytesOk, InUse, Allocated, WfHeap;
      errorCount := errorCount + 1;
      if PartlyMagic(magic) {
        possibleOverruns := possibleOverruns + 1;
      }
    }

    /** The part of kfree behind the magic check. */
    method FreeHeader(min: nat, ghost i: nat, ghost k: nat)
      requires Valid() && IsHeader(view, min, i, k)
      modifies this
      ensures Valid() && Freed(Payload(min))
    {
      hide Stored, BytesOk, InUse, Allocated, SumPieces, WfHeap, WfBlocks;
      ghost var ptr := Payload(min);
      LiveBlock(majors, minors, info, view, i, k);
      BaseOfIs(majors, minors, info, view, ptr, i, k);
      var maj := minors[min].block;
      Unlink(min, i, k);
      CleanUp(maj, i);
      FreeIsStep(old(view), view, ptr, i, k);
    }

    /** `kfree(ptr)`.  What it reads in memory that the allocator never wrote comes in as a parameter: `byte` in front
        of the pointer, and `word` in place of a magic number, which is not the magic number by chance.  It frees the
        live allocation whose header it is led to, if any; for a live pointer that is its own, and a pointer that is
        live no longer is refused as long as its alignment byte is still there. */
    method Kfree(ptr: nat, byte: nat, word: nat)
      requires Valid() && word != MAGIC
      modifies this
      ensures Valid()
      ensures ptr == 0 ==> view == old(view) && bestBet == old(bestBet) && Counters(true)
      ensures ptr != 0 ==>
                var h := old(HeaderOf(info, ptr, byte));
                if HeaderLive(old(view), h) then Freed(Payload(h)) else Refused(PartlyMagic(old(MagicAt(h, word))))
      ensures ptr != 0 && Live(old(view), ptr) ==> Freed(ptr)
      ensures ptr != 0 && !Live(old(view), ptr) && old(Recorded(info, ptr)) ==>
                Refused(PartlyMagic(old(MagicAt(HeaderOf(info, ptr, byte), word))))
    {
      if ptr == 0 {
        warningCount := warningCount + 1;
        return;
      }
      LiveMeansMagic(majors, minors, info, view, ptr, byte);
      MagicIffLive(majors, minors, info, view, HeaderOf(info, ptr, byte));
      hide Stored, BytesOk, InUse, Allocated, SumPieces, WfHeap, WfBlocks, Live;
      var diff := if Recorded(info, ptr) then info[ptr - ALIGN_INFO] else byte;
      var p: int := ptr;
      if diff < ALIGNMENT + ALIGN_INFO { p := p - diff; }
      var min := p - MINOR_SIZE;
      if MagicAt(min, word) != MAGIC {
        Refuse(MagicAt(min, word));
        return;
      }
      ghost var i: nat, k: nat :| IsHeader(view, min, i, k);
      FreeHeader(min, i, k);
    }

    /** kmalloc followed at once by kfree restores the block list and both byte counters. */
    method MallocThenFree(req: nat, hook: nat, byte: nat, word: nat)
      requires Valid() && req <= MAX_REQUEST && word != MAGIC
      requires hook != 0 ==> FreshRun(view, hook, PagesFor(Padded(req)))
      modifies this
      ensures Valid() && view == old(view) && memRoot == old(memRoot)
      ensures inuse == old(inuse) && sysAllocated == old(sysAllocated)
    {
      hide Stored, BytesOk, InUse, Allocated, WfBlocks, FreshRun, MallocStep, FreeStep, FreeHint;
      ghost var bs, best := view, bestBet;
      var p, asks := Kmalloc(req, hook);
      if p != 0 {
        ghost var bs' := view;
        MallocIsLive(bs, best, req, hook, view, p);
        Kfree(p, byte, word);
        FreeUndoesMalloc(bs, best, req, hook, bs', p, view);
      } else {
        NullMeansSame(bs, best, req, hook, view);
      }
    }
  }

  /** The hint names a block as long as that block is in the list, whatever happens to its contents. */
  lemma HintStays(bs: seq<Block>, bs': seq<Block>, best: nat, i: nat)
    requires best == 0 || exists j: nat :: IsBase(bs, best, j)
    requires i < |bs| == |bs'| && bs'[i].base == bs[i].base && forall j :: 0 <= j < |bs| && j != i ==> bs'[j] == bs[j]
    ensures best == 0 || exists j: nat :: IsBase(bs', best, j)
  {
    if best != 0 {
      var j: nat :| IsBase(bs, best, j);
      assert IsBase(bs', best, j);
    }
  }

  lemma StoredWf(majors: map<nat, Major>, minors: map<nat, Minor>, info: map<nat, nat>, bs: seq<Block>)
    requires Stored(majors, minors, info, bs)
    ensures WfBlocks(bs)
  {
  }

  ghost predicate NoGapBefore(b: Block, need: nat, k: nat) {
    k <= |b.pieces| + 1 && forall j: nat :: j < k ==> Gap(b, j) < need
  }

  lemma NoGapAtFront(b: Block, need: nat)
    requires Gap(b, 0) < need
    ensures NoGapBefore(b, need, 1)
  {
  }

  lemma NoGapMoves(b: Block, need: nat, k: nat)
    requires NoGapBefore(b, need, k) && k <= |b.pieces|
    ensures GapEnd(b, k) - GapStart(b, k) >= need ==> IsFirstGap(b, need, k)
    ensures GapEnd(b, k) - GapStart(b, k) < need ==> NoGapBefore(b, need, k + 1)
  {
  }

  lemma FirstGapIsGap(b: Block, need: nat, k: nat)
    requires IsFirstGap(b, need, k)
    ensures HasGap(b, need)
  {
  }

  lemma NoGapAtAll(b: Block, need: nat)
    requires NoGapBefore(b, need, |b.pieces| + 1)
    ensures !HasGap(b, need)
  {
  }

  /** The `first` pointer is NULL exactly in an empty block, whose one gap is all of its free space. */
  lemma FirstIsNull(b: Block)
    requires WfBlock(b)
    ensures b.pieces != [] ==> b.pieces[0].addr > 0
    ensures b.pieces == [] ==> Gap(b, 0) == Free(b)
  {
  }

  lemma HeaderPointers(minors: map<nat, Minor>, b: Block, k: nat)
    requires WfBlock(b) && HeadersOk(minors, b) && k < |b.pieces|
    ensures b.pieces[k].addr in minors
    ensures minors[b.pieces[k].addr].next == NextAddr(b, k + 1)
    ensures b.pieces[k].addr + MINOR_SIZE + minors[b.pieces[k].addr].size == GapStart(b, k + 1)
    ensures GapEnd(b, k + 1) == if NextAddr(b, k + 1) == 0 then b.Limit() else NextAddr(b, k + 1)
    ensures NextAddr(b, k + 1) != 0 <==> k + 1 < |b.pieces|
  {
    assert HeaderAt(minors, b, k);
  }

  function EmptyBlock(hook: nat, req: nat): Block { Block(hook, PagesFor(Padded(req)), []) }

  lemma FreshDiffers(bs: seq<Block>, base: nat, pages: nat)
    requires WfBlocks(bs) && FreshRun(bs, base, pages) && pages > 0
    ensures forall i :: 0 <= i < |bs| ==> bs[i].base != base
  {
    forall i | 0 <= i < |bs|
      ensures bs[i].base != base
    {
      assert Apart(bs[i], Block(base, pages, [])) && WfBlock(bs[i]);
    }
  }

  lemma HintAfterAppend(bs: seq<Block>, b: Block, best: nat)
    requires best == 0 || exists j: nat :: IsBase(bs, best, j)
    ensures best == 0 || exists j: nat :: IsBase(bs + [b], best, j)
  {
    if best != 0 {
      var j: nat :| IsBase(bs, best, j);
      assert IsBase(bs + [b], best, j);
    }
  }

  function ExtendedMajors(majors: map<nat, Major>, maj: nat, hook: nat, req: nat): map<nat, Major>
    requires maj in majors
  {
    var pages := PagesFor(Padded(req));
    majors[hook := Major(maj, 0, pages, pages * 4096, MAJOR_SIZE, 0)][maj := majors[maj].(next := hook)]
  }

  lemma ExtendStored(majors: map<nat, Major>, minors: map<nat, Minor>, info: map<nat, nat>, bs: seq<Block>, hook: nat, req: nat)
    requires Stored(majors, minors, info, bs) && bs != [] && hook != 0 && req <= MAX_REQUEST
    requires FreshRun(bs, hook, PagesFor(Padded(req)))
    ensures bs[|bs| - 1].base in majors && bs[|bs| - 1].base != hook
    ensures Stored(ExtendedMajors(majors, bs[|bs| - 1].base, hook, req), minors, info, bs + [EmptyBlock(hook, req)])
    ensures InUse(bs + [EmptyBlock(hook, req)]) == InUse(bs)
    ensures Allocated(bs + [EmptyBlock(hook, req)]) == Allocated(bs) + PagesFor(Padded(req)) * 4096
    ensures FirstBase(bs + [EmptyBlock(hook, req)]) == FirstBase(bs)
  {
    StoredWf(majors, minors, info, bs);
    FreshBlockFits(hook, req);
    FreshDiffers(bs, hook, PagesFor(Padded(req)));
    hide Stored, WfBlocks, WfBlock, FreshRun, InUse, Allocated, PagesFor;
    AppendKeeps(majors, minors, info, bs, EmptyBlock(hook, req));
  }

  lemma LastHasNoNext(majors: map<nat, Major>, bs: seq<Block>)
    requires bs != [] && MajorAt(majors, bs, |bs| - 1)
    ensures majors[bs[|bs| - 1].base].next == 0
  {
  }

  lemma StoredFree(majors: map<nat, Major>, minors: map<nat, Minor>, info: map<nat, nat>, bs: seq<Block>, i: nat)
    requires Stored(majors, minors, info, bs) && i < |bs|
    ensures bs[i].base in majors
    ensures majors[bs[i].base].size - majors[bs[i].base].usage == Free(bs[i])
    ensures majors[bs[i].base].next == NextMajor(bs, i)
    ensures i + 1 < |bs| ==> NextMajor(bs, i) != 0
  {
    assert MajorAt(majors, bs, i);
    assert i + 1 < |bs| ==> WfBlock(bs[i + 1]);
  }

  /** The free bytes of the block the hint names; 0 for no hint. */
  ghost predicate HintFree(bs: seq<Block>, best: nat, n: int) {
    if best == 0 then n == 0 else exists h: nat :: IsBase(bs, best, h) && Free(bs[h]) == n
  }

  function ScanList(bs: seq<Block>, hook: nat, req: nat): seq<Block> {
    if hook == 0 then bs else bs + [EmptyBlock(hook, req)]
  }

  /** After a full scan the hint names a block with the most free bytes, counted before the placement. */
  ghost predicate HintLargest(bs: seq<Block>, hook: nat, req: nat, best: nat) {
    exists n: int :: HintFree(ScanList(bs, hook, req), best, n) && forall j :: 0 <= j < |bs| ==> Free(bs[j]) <= n
  }

  /** The leader among the hint, with `n0` free bytes, and the blocks looked at: the hint stays unless some block has
      more free bytes, and then the first of those with the most takes over. */
  ghost predicate Leads(looked: seq<Block>, best0: nat, n0: int, best: nat, n: int) {
    if forall j :: 0 <= j < |looked| ==> Free(looked[j]) <= n0 then best == best0 && n == n0
    else exists m :: 0 <= m < |looked| && IsLeader(looked, m) && best == looked[m].base && n == Free(looked[m])
  }

  ghost predicate IsLeader(looked: seq<Block>, m: nat)
    requires m < |looked|
  {
    && (forall j :: 0 <= j < m ==> Free(looked[j]) < Free(looked[m]))
    && (forall j :: m < j < |looked| ==> Free(looked[j]) <= Free(looked[m]))
  }

  /** The blocks looked at by a scan from `s` that stops at block `i`, in order, round the end if need be. */
  ghost function Looked(bs: seq<Block>, s: nat, i: nat): seq<Block>
    requires s <= |bs| && i < |bs|
  {
    if s <= i then bs[s..i + 1] else bs[s..] + bs[..i + 1]
  }

  /** The blocks looked at by a scan from `s` that finds no gap: all of them, and then the fresh one, unless the last
      block had too few free bytes, when the fresh one is used without a look. */
  ghost function LookedAll(bs: seq<Block>, s: nat, hook: nat, req: nat): seq<Block>
    requires s <= |bs|
  {
    bs[s..] + bs[..s] + LookedFresh(bs, hook, req)
  }

  ghost function LookedFresh(bs: seq<Block>, hook: nat, req: nat): seq<Block> {
    if hook != 0 && (bs == [] || Free(bs[|bs| - 1]) >= Need(req)) then [EmptyBlock(hook, req)] else []
  }

  /** The hint after `kmalloc`, whatever the outcome; free bytes are counted before the placement. */
  ghost predicate MallocHint(bs: seq<Block>, best: nat, req: nat, hook: nat, best': nat) {
    exists s: nat, n: int :: HintFrom(bs, best, req, hook, best', s, n)
  }

  ghost predicate HintFrom(bs: seq<Block>, best: nat, req: nat, hook: nat, best': nat, s: nat, n: int) {
    && s <= |bs| && IsStart(bs, best, Need(req), s)
    && if AnyGap(bs, Need(req))
       then exists i: nat :: FirstFit(bs, s, Need(req), i) && Leads(Looked(bs, s, i), best, FreeOf(bs, best), best', n)
       else Leads(LookedAll(bs, s, hook, req), best, FreeOf(bs, best), best', n)
  }

  /** The new hint is determined by the old one and the blocks before the call. */
  lemma HintDetermined(bs: seq<Block>, best: nat, req: nat, hook: nat, x: nat, y: nat)
    requires WfBlocks(bs) && MallocHint(bs, best, req, hook, x) && MallocHint(bs, best, req, hook, y)
    ensures x == y
  {
    WfIsDistinct(bs);
    hide WfBlocks, Leads, FreeOf, Free, HasGap, AnyGap, FirstFit;
    var s: nat, n: int :| HintFrom(bs, best, req, hook, x, s, n);
    var t: nat, m: int :| HintFrom(bs, best, req, hook, y, t, m);
    StartDetermined(bs, best, Need(req), s, t);
    if AnyGap(bs, Need(req)) {
      var i: nat :| FirstFit(bs, s, Need(req), i) && Leads(Looked(bs, s, i), best, FreeOf(bs, best), x, n);
      var j: nat :| FirstFit(bs, s, Need(req), j) && Leads(Looked(bs, s, j), best, FreeOf(bs, best), y, m);
      FitDetermined(bs, s, Need(req), i, j);
      LeadDetermined(Looked(bs, s, i), best, FreeOf(bs, best), x, n, y, m);
    } else {
      LeadDetermined(LookedAll(bs, s, hook, req), best, FreeOf(bs, best), x, n, y, m);
    }
  }

  lemma StartDetermined(bs: seq<Block>, best: nat, need: nat, s: nat, t: nat)
    requires DistinctBases(bs) && IsStart(bs, best, need, s) && IsStart(bs, best, need, t)
    ensures s == t
  {
    hide Free;
  }

  lemma FitDetermined(bs: seq<Block>, s: nat, need: nat, i: nat, j: nat)
    requires FirstFit(bs, s, need, i) && FirstFit(bs, s, need, j)
    ensures i == j
  {
    hide HasGap;
  }

  lemma LeadDetermined(looked: seq<Block>, best: nat, n0: int, x: nat, n: int, y: nat, m: int)
    requires Leads(looked, best, n0, x, n) && Leads(looked, best, n0, y, m)
    ensures x == y
  {
    hide Free;
    if !(forall j :: 0 <= j < |looked| ==> Free(looked[j]) <= n0) {
      var i :| 0 <= i < |looked| && IsLeader(looked, i) && x == looked[i].base;
      var j :| 0 <= j < |looked| && IsLeader(looked, j) && y == looked[j].base;
      OneLeader(looked, i, j);
    }
  }

  lemma OneLeader(looked: seq<Block>, i: nat, j: nat)
    requires i < |looked| && j < |looked| && IsLeader(looked, i) && IsLeader(looked, j)
    ensures i == j
  {
    hide Free, IsLeader;
    LeaderHasMost(looked, i, j);
    LeaderHasMost(looked, j, i);
  }

  lemma LeaderHasMost(looked: seq<Block>, m: nat, j: nat)
    requires m < |looked| && j < |looked| && IsLeader(looked, m)
    ensures Free(looked[j]) <= Free(looked[m]) && (j < m ==> Free(looked[j]) < Free(looked[m]))
  {
    hide Free;
  }

  lemma LeadsNext(looked: seq<Block>, b: Block, best0: nat, n0: int, best: nat, n: int)
    requires Leads(looked, best0, n0, best, n)
    ensures var more := Free(b) > n;
            Leads(looked + [b], best0, n0, if more then b.base else best, if more then Free(b) else n)
  {
    var all := looked + [b];
    hide Free;
    assert all[|looked|] == b && forall j :: 0 <= j < |looked| ==> all[j] == looked[j];
    if forall j :: 0 <= j < |looked| ==> Free(looked[j]) <= n0 {
      if Free(b) > n { NewLeader(looked, b, n); }
    } else {
      var m :| 0 <= m < |looked| && IsLeader(looked, m) && best == looked[m].base && n == Free(looked[m]);
      LeaderIsMore(looked, m, n0);
      if Free(b) > n {
        NewLeader(looked, b, n);
      } else {
        OldLeader(looked, b, m);
        LeaderIsMore(all, m, n0);
      }
    }
  }

  lemma NewLeader(looked: seq<Block>, b: Block, n: int)
    requires Free(b) > n && forall j :: 0 <= j < |looked| ==> Free(looked[j]) <= n
    ensures IsLeader(looked + [b], |looked|)
  {
    hide Free;
  }

  lemma OldLeader(looked: seq<Block>, b: Block, m: nat)
    requires m < |looked| && IsLeader(looked, m) && Free(b) <= Free(looked[m])
    ensures IsLeader(looked + [b], m)
  {
    hide Free;
  }

  lemma LeaderIsMore(looked: seq<Block>, m: nat, n0: int)
    requires m < |looked| && IsLeader(looked, m) && exists j :: 0 <= j < |looked| && Free(looked[j]) > n0
    ensures Free(looked[m]) > n0
  {
  }

  lemma LeaderIsFirst(looked: seq<Block>, m: nat, j: nat)
    requires j < m < |looked| && IsLeader(looked, m)
    ensures looked[j] != looked[m]
  {
  }

  /** Blocks looked at a second time change nothing. */
  lemma LeadsOnce(first: seq<Block>, again: seq<Block>, more: seq<Block>, best0: nat, n0: int, best: nat, n: int)
    requires Leads(first + again + more, best0, n0, best, n) && forall b :: b in again ==> b in first
    ensures Leads(first + more, best0, n0, best, n)
  {
    var all, once := first + again + more, first + more;
    assert forall j :: 0 <= j < |once| ==> once[j] == all[if j < |first| then j else j + |again|];
    if exists j :: 0 <= j < |all| && Free(all[j]) > n0 {
      var m :| 0 <= m < |all| && IsLeader(all, m) && best == all[m].base && n == Free(all[m]);
      LeaderIsMore(all, m, n0);
      LeaderOnce(first, again, more, m);
      var k := if m < |first| then m else m - |again|;
      assert once[k] == all[m] && IsLeader(once, k);
    }
  }

  lemma LeaderOnce(first: seq<Block>, again: seq<Block>, more: seq<Block>, m: nat)
    requires m < |first + again + more| && IsLeader(first + again + more, m) && forall b :: b in again ==> b in first
    ensures m < |first| || m >= |first| + |again|
    ensures IsLeader(first + more, if m < |first| then m else m - |again|)
  {
    var all, once := first + again + more, first + more;
    if |first| <= m < |first| + |again| {
      assert all[m] == again[m - |first|];
      assert all[m] in first;
      var j :| 0 <= j < |first| && first[j] == all[m];
      LeaderIsFirst(all, m, j);
      assert false;
    }
    var k := if m < |first| then m else m - |again|;
    assert forall j :: 0 <= j < |once| ==> once[j] == all[if j < |first| then j else j + |again|];
    forall j | 0 <= j < k
      ensures Free(once[j]) < Free(once[k])
    {
      var i := if j < |first| then j else j + |again|;
      assert i < m;
    }
    forall j | k < j < |once|
      ensures Free(once[j]) <= Free(once[k])
    {
      var i := if j < |first| then j else j + |again|;
      assert m < i;
    }
  }

  /** The blocks looked at before block `i`. */
  ghost function Before(vs: seq<Block>, s: nat, bet: bool, started: bool, i: nat): seq<Block>
    requires s <= |vs| && i <= |vs| && (started ==> s <= i)
  {
    if started then vs[s..i] else (if bet then vs[s..] else []) + vs[..i]
  }

  ghost predicate InScan(vs: seq<Block>, req: nat, bet: bool, s: nat, extended: bool, started: bool, i: nat) {
    && (bet || s == 0) && s <= |vs| && i <= |vs| && (started ==> bet && s <= i)
    && (if extended then i == |vs| && !started && (vs == [] || Free(vs[|vs| - 1]) >= Need(req)) else i < |vs|)
  }

  /** What the scan knows of the hint before it looks at block `i`. */
  ghost predicate HintState(vs: seq<Block>, best0: nat, n0: int, req: nat, best: nat, n: int,
                            bet: bool, s: nat, extended: bool, started: bool, i: nat)
  {
    && InScan(vs, req, bet, s, extended, started, i) && n0 == FreeOf(vs, best0)
    && Leads(Before(vs, s, bet, started, i), best0, n0, best, n)
  }

  /** And afterwards. */
  ghost predicate HintSeen(vs: seq<Block>, b: Block, best0: nat, n0: int, req: nat, best: nat, n: int,
                           bet: bool, s: nat, extended: bool, started: bool, i: nat)
  {
    && InScan(vs, req, bet, s, extended, started, i) && n0 == FreeOf(vs, best0)
    && Leads(Before(vs, s, bet, started, i) + [b], best0, n0, best, n)
  }

  lemma BeginHint(vs: seq<Block>, bs: seq<Block>, best0: nat, hook: nat, req: nat, n: int, extended: bool, bet: bool, i: nat)
    requires HintFree(bs, best0, n) && WfBlocks(bs) && (best0 == 0 ==> !bet)
    requires if extended then vs == [] && hook != 0 && bs == [EmptyBlock(hook, req)] && i == 0 && !bet && best0 == 0
             else bs == vs && i < |vs| && (!bet ==> i == 0)
    ensures HintState(vs, best0, n, req, best0, n, bet, i, extended, bet, i)
  {
    hide WfBlocks, HintFree, FreeOf, Free;
    FreeOfHint(bs, best0, n);
    if extended { FreeOfNone(best0); }
    assert Before(vs, i, bet, bet, i) == [];
  }

  lemma FreeOfNone(best: nat)
    ensures FreeOf([], best) == 0
  {
  }

  lemma FreeOfHint(bs: seq<Block>, best: nat, n: int)
    requires HintFree(bs, best, n) && WfBlocks(bs)
    ensures FreeOf(bs, best) == n && (best == 0 ==> n == 0)
  {
    WfIsDistinct(bs);
    hide Free;
    if best != 0 {
      var h: nat :| IsBase(bs, best, h) && Free(bs[h]) == n;
      FreeOfIs(bs, best, h);
    } else {
      assert forall j :: 0 <= j < |bs| ==> WfBlock(bs[j]);
    }
  }

  lemma LookHint(vs: seq<Block>, bs: seq<Block>, best0: nat, n0: int, hook: nat, req: nat, best: nat, n: int, best': nat, n': int,
                 bet: bool, s: nat, extended: bool, started: bool, i: nat)
    requires HintState(vs, best0, n0, req, best, n, bet, s, extended, started, i) && i < |bs|
    requires n' == (if n < Free(bs[i]) then Free(bs[i]) else n) && best' == if n < Free(bs[i]) then bs[i].base else best
    ensures HintSeen(vs, bs[i], best0, n0, req, best', n', bet, s, extended, started, i)
  {
    hide Leads, FreeOf;
    LeadsNext(Before(vs, s, bet, started, i), bs[i], best0, n0, best, n);
  }

  /** On to the next block, to the root, or to a fresh block that is to be looked at. */
  lemma NextHint(vs: seq<Block>, bs: seq<Block>, best0: nat, n0: int, hook: nat, req: nat, best: nat, n: int,
                 bet: bool, s: nat, extended: bool, asked: bool, started: bool, started': bool, i: nat, i': nat)
    requires !extended && bs == vs && i < |vs| && HintSeen(vs, bs[i], best0, n0, req, best, n, bet, s, extended, started, i)
    requires if asked then !started && !started' && i + 1 == |vs| == i' && Free(bs[i]) >= Need(req)
             else i' < |vs| && Later(|vs|, started, i, started', i')
    ensures HintState(vs, best0, n0, req, best, n, bet, s, asked, started', i')
  {
    hide Leads, FreeOf, Free;
    assert Before(vs, s, bet, started', i') == Before(vs, s, bet, started, i) + [vs[i]];
  }

  /** At the block that serves the request the hint is the one promised. */
  lemma FoundHint(vs: seq<Block>, bs: seq<Block>, best0: nat, n0: int, hook: nat, req: nat, best: nat, n: int,
                  bet: bool, s: nat, extended: bool, started: bool, i: nat)
    requires ScanState(vs, bs, best0, hook, req, best, n, bet, s, extended, started, i) && i < |bs|
    requires HintSeen(vs, bs[i], best0, n0, req, best, n, bet, s, extended, started, i)
    requires HasGap(bs[i], Need(req))
    ensures MallocHint(vs, best0, req, hook, best)
  {
    hide Leads, FreeOf, Free, HasGap, IsStart, AnyGap, HintFree, FreshRun, MallocHint, FirstFit;
    if extended {
      BeforeAll(vs, bs[i], bet, s, i, LookedFresh(vs, hook, req));
      AllHint(vs, best0, n0, hook, req, best, n, bet, s);
    } else {
      ScanFound(vs, s, Need(req), n, bet, started, i);
      LookedSoFar(vs, s, bet, started, i);
      HintAtFit(vs, best0, req, hook, best, n, s, i);
    }
  }

  lemma LookedSoFar(vs: seq<Block>, s: nat, bet: bool, started: bool, i: nat)
    requires s <= |vs| && i < |vs| && (bet || s == 0) && (if started then bet && s <= i else bet ==> i < s)
    ensures Before(vs, s, bet, started, i) + [vs[i]] == Looked(vs, s, i)
  {
  }

  /** And so it is behind the last block. */
  lemma EndHint(vs: seq<Block>, bs: seq<Block>, best0: nat, n0: int, hook: nat, req: nat, best: nat, n: int,
                bet: bool, s: nat, started: bool, i: nat)
    requires ScanState(vs, bs, best0, hook, req, best, n, bet, s, false, started, i) && !AnyGap(vs, Need(req))
    requires i < |bs| && HintSeen(vs, bs[i], best0, n0, req, best, n, bet, s, false, started, i)
    requires i + 1 == |vs| && !started && (hook == 0 || Free(bs[i]) < Need(req))
    ensures MallocHint(vs, best0, req, hook, best)
  {
    hide Leads, FreeOf, Free, HasGap, IsStart, AnyGap, HintFree, FreshRun, MallocHint, Scanned;
    BeforeAll(vs, bs[i], bet, s, i, LookedFresh(vs, hook, req));
    AllHint(vs, best0, n0, hook, req, best, n, bet, s);
  }

  lemma HintAtFit(bs: seq<Block>, best: nat, req: nat, hook: nat, best': nat, n: int, s: nat, i: nat)
    requires s <= |bs| && IsStart(bs, best, Need(req), s) && AnyGap(bs, Need(req)) && FirstFit(bs, s, Need(req), i)
    requires Leads(Looked(bs, s, i), best, FreeOf(bs, best), best', n)
    ensures MallocHint(bs, best, req, hook, best')
  {
    hide Leads, FreeOf, Free, HasGap, IsStart, AnyGap, FirstFit, Looked;
    assert HintFrom(bs, best, req, hook, best', s, n);
  }

  lemma HintAtEnd(bs: seq<Block>, best: nat, req: nat, hook: nat, best': nat, n: int, s: nat)
    requires s <= |bs| && IsStart(bs, best, Need(req), s) && !AnyGap(bs, Need(req))
    requires Leads(LookedAll(bs, s, hook, req), best, FreeOf(bs, best), best', n)
    ensures MallocHint(bs, best, req, hook, best')
  {
    hide Leads, FreeOf, Free, HasGap, IsStart, AnyGap, FirstFit, LookedAll;
    assert HintFrom(bs, best, req, hook, best', s, n);
  }

  lemma BeforeAll(vs: seq<Block>, b: Block, bet: bool, s: nat, i: nat, more: seq<Block>)
    requires s <= |vs| && if i == |vs| then more == [b] else i + 1 == |vs| && vs[i] == b && more == []
    ensures Before(vs, s, bet, false, i) + [b] == (if bet then vs[s..] else []) + vs + more
  {
  }

  lemma AllHint(vs: seq<Block>, best0: nat, n0: int, hook: nat, req: nat, best: nat, n: int, bet: bool, s: nat)
    requires s <= |vs| && (bet || s == 0) && IsStart(vs, best0, Need(req), s) && !AnyGap(vs, Need(req)) && n0 == FreeOf(vs, best0)
    requires Leads((if bet then vs[s..] else []) + vs + LookedFresh(vs, hook, req), best0, n0, best, n)
    ensures MallocHint(vs, best0, req, hook, best)
  {
    hide Leads, FreeOf, IsStart, AnyGap, MallocHint, LookedFresh;
    var more := LookedFresh(vs, hook, req);
    if bet {
      assert vs[s..] + vs + more == vs[s..] + vs[..s] + vs[s..] + more;
      LeadsOnce(vs[s..] + vs[..s], vs[s..], more, best0, n0, best, n);
    } else {
      assert [] + vs + more == vs[s..] + vs[..s] + more;
    }
    HintAtEnd(vs, best0, req, hook, best, n, s);
  }

  /** Block `j` has been looked at before block `i`, in a scan from `s` that goes round once if it started at the hint. */
  ghost predicate Visited(s: nat, bet: bool, started: bool, i: nat, j: nat) {
    if started then s <= j < i else j < i || (bet && s <= j)
  }

  /** What the scan has found out when it looks at block `i`. */
  ghost predicate Scanned(bs: seq<Block>, s: nat, need: nat, n: int, bet: bool, started: bool, i: nat) {
    && (!bet ==> s == 0 && !started)
    && (started ==> s <= i)
    && forall j :: 0 <= j < |bs| && Visited(s, bet, started, i, j) ==> !HasGap(bs[j], need) && Free(bs[j]) <= n
  }

  lemma ScanNext(bs: seq<Block>, s: nat, need: nat, n: int, n': int, bet: bool, started: bool, i: nat)
    requires Scanned(bs, s, need, n, bet, started, i) && i < |bs| && n <= n'
    requires !HasGap(bs[i], need) && Free(bs[i]) <= n'
    ensures Scanned(bs, s, need, n', bet, started, i + 1)
  {
  }

  /** At the end of the list a scan that started at the hint begins again at the root. */
  lemma ScanRestart(bs: seq<Block>, s: nat, need: nat, n: int)
    requires Scanned(bs, s, need, n, true, true, |bs|)
    ensures Scanned(bs, s, need, n, true, false, 0)
  {
    forall j | 0 <= j < |bs| && Visited(s, true, false, 0, j)
      ensures !HasGap(bs[j], need) && Free(bs[j]) <= n
    {
      assert Visited(s, true, true, |bs|, j);
    }
  }

  /** A scan that reaches the end without a restart to come has seen every block. */
  lemma ScanEnd(bs: seq<Block>, s: nat, need: nat, n: int, bet: bool)
    requires Scanned(bs, s, need, n, bet, false, |bs|)
    ensures !AnyGap(bs, need)
    ensures forall j :: 0 <= j < |bs| ==> Free(bs[j]) <= n
  {
    forall j | 0 <= j < |bs|
      ensures !HasGap(bs[j], need) && Free(bs[j]) <= n
    {
      assert Visited(s, bet, false, |bs|, j);
    }
  }

  /** The block where the scan stops is the first fit. */
  lemma ScanFound(bs: seq<Block>, s: nat, need: nat, n: int, bet: bool, started: bool, i: nat)
    requires Scanned(bs, s, need, n, bet, started, i) && i < |bs| && HasGap(bs[i], need)
    ensures FirstFit(bs, s, need, i) && AnyGap(bs, need) && (!started && bet ==> i < s)
  {
    assert s <= i && !started && bet ==> Visited(s, bet, started, i, i);
    forall j | 0 <= j < |bs| && Visited(s, bet, started, i, j)
      ensures !HasGap(bs[j], need)
    {
    }
  }

  lemma StartIs(majors: map<nat, Major>, minors: map<nat, Minor>, info: map<nat, nat>, bs: seq<Block>, best: nat, need: nat, h: nat)
    requires Stored(majors, minors, info, bs) && IsBase(bs, best, h)
    ensures Free(bs[h]) > need ==> IsStart(bs, best, need, h)
    ensures Free(bs[h]) <= need ==> IsStart(bs, best, need, 0)
  {
    WfIsDistinct(bs);
    assert forall j :: 0 <= j < |bs| && bs[j].base == best ==> j == h;
  }

  lemma NoHint(majors: map<nat, Major>, minors: map<nat, Minor>, info: map<nat, nat>, bs: seq<Block>, need: nat)
    requires Stored(majors, minors, info, bs)
    ensures IsStart(bs, 0, need, 0)
  {
    assert forall j :: 0 <= j < |bs| ==> WfBlock(bs[j]);
  }

  lemma StoredFirst(majors: map<nat, Major>, minors: map<nat, Minor>, info: map<nat, nat>, bs: seq<Block>)
    requires Stored(majors, minors, info, bs)
    ensures bs != [] ==> FirstBase(bs) != 0
  {
    assert bs != [] ==> WfBlock(bs[0]);
  }

  lemma FoundStep(bs: seq<Block>, best: nat, req: nat, hook: nat, s: nat, i: nat, k: nat, bs': seq<Block>, p: nat)
    requires IsStart(bs, best, Need(req), s) && FirstFit(bs, s, Need(req), i) && AnyGap(bs, Need(req))
    requires IsFirstGap(bs[i], Need(req), k)
    requires bs' == bs[i := InsertPiece(bs[i], k, req)] && p == Payload(GapStart(bs[i], k))
    ensures MallocStep(bs, best, req, hook, bs', p)
  {
    assert MallocAt(bs, best, req, s, i, k, bs', p);
  }

  lemma FreshStep(bs: seq<Block>, best: nat, req: nat, hook: nat, k: nat, bs': seq<Block>, p: nat)
    requires !AnyGap(bs, Need(req)) && hook != 0 && k <= 0
    requires bs' == (bs + [EmptyBlock(hook, req)])[|bs| := InsertPiece(EmptyBlock(hook, req), k, req)]
    requires p == Payload(GapStart(EmptyBlock(hook, req), k))
    ensures MallocStep(bs, best, req, hook, bs', p)
  {
    assert InsertPiece(EmptyBlock(hook, req), 0, req) == NewBlock(hook, req);
    assert bs' == bs + [NewBlock(hook, req)];
  }

  lemma NoBlocks(bs: seq<Block>, best: nat, hook: nat, req: nat)
    requires bs == []
    ensures !AnyGap(bs, Need(req))
    ensures hook == 0 ==> MallocStep(bs, best, req, hook, bs, 0) && HintLargest(bs, hook, req, 0) && MallocHint(bs, best, req, hook, best)
    ensures IsStart(bs, best, Need(req), 0)
  {
    assert HintFree(ScanList(bs, 0, req), 0, 0);
    if hook == 0 {
      assert LookedAll(bs, 0, hook, req) == [];
      HintAtEnd(bs, best, req, hook, best, FreeOf(bs, best), 0);
    }
  }

  lemma HintGrows(bs: seq<Block>, b: Block, best: nat, n: int)
    requires HintFree(bs, best, n)
    ensures HintFree(bs + [b], best, n)
  {
    if best != 0 {
      var h: nat :| IsBase(bs, best, h) && Free(bs[h]) == n;
      assert IsBase(bs + [b], best, h);
    }
  }

  lemma LargestHint(bs: seq<Block>, hook: nat, req: nat, best: nat, n: int)
    requires HintFree(ScanList(bs, hook, req), best, n)
    requires forall j :: 0 <= j < |bs| ==> Free(bs[j]) <= n
    ensures HintLargest(bs, hook, req, best)
  {
  }

  // ----- the scan as a whole -----

  datatype Turn = Hop | Restart | Extended | NoMemory

  /** The four ways to leave block `i` of list `bs`. */
  ghost predicate TurnOk(bs: seq<Block>, bs': seq<Block>, hook: nat, req: nat, started: bool, started': bool, i: nat, i': nat, turn: Turn) {
    match turn
    case Hop => i + 1 < |bs| && bs' == bs && started' == started && i' == i + 1
    case Restart => i + 1 == |bs| && bs' == bs && started && !started' && i' == 0
    case Extended => i + 1 == |bs| && !started && !started' && hook != 0 && bs' == bs + [EmptyBlock(hook, req)] && i' == i + 1
    case NoMemory => i + 1 == |bs| && !started && !started' && hook == 0 && bs' == bs
  }

  /** Everything the loop of kmalloc knows when it looks at block `i` of the list `bs`; `vs` is the list at entry. */
  ghost predicate ScanState(vs: seq<Block>, bs: seq<Block>, best0: nat, hook: nat, req: nat, best: nat, n: int,
                            bet: bool, s: nat, extended: bool, started: bool, i: nat)
  {
    && IsStart(vs, best0, Need(req), s)
    && HintFree(bs, best, n)
    && if extended then
         && hook != 0 && bs == vs + [EmptyBlock(hook, req)] && i == |vs| && !started && !AnyGap(vs, Need(req))
         && (forall j :: 0 <= j < |vs| ==> Free(vs[j]) <= n)
       else
         && bs == vs && i < |vs| && Scanned(vs, s, Need(req), n, bet, started, i)
         && (hook != 0 ==> FreshRun(vs, hook, PagesFor(Padded(req))))
  }

  lemma BeginState(vs: seq<Block>, bs: seq<Block>, best0: nat, hook: nat, req: nat, n: int, extended: bool, bet: bool, i: nat)
    requires IsStart(vs, best0, Need(req), if extended then 0 else i) && HintFree(bs, best0, n)
    requires hook != 0 ==> FreshRun(vs, hook, PagesFor(Padded(req)))
    requires if extended then vs == [] && hook != 0 && bs == [EmptyBlock(hook, req)] && i == 0 && !bet
             else bs == vs && i < |vs| && (!bet ==> i == 0)
    ensures ScanState(vs, bs, best0, hook, req, best0, n, bet, i, extended, bet, i)
  {
  }

  lemma StateHint(vs: seq<Block>, bs: seq<Block>, best0: nat, hook: nat, req: nat, best: nat, n: int,
                  bet: bool, s: nat, extended: bool, started: bool, i: nat)
    requires ScanState(vs, bs, best0, hook, req, best, n, bet, s, extended, started, i)
    ensures HintFree(bs, best, n)
  {
  }

  lemma LookKeeps(vs: seq<Block>, bs: seq<Block>, best0: nat, hook: nat, req: nat, best: nat, n: int, best': nat, n': int,
                  bet: bool, s: nat, extended: bool, started: bool, i: nat)
    requires ScanState(vs, bs, best0, hook, req, best, n, bet, s, extended, started, i)
    requires n <= n' && HintFree(bs, best', n')
    ensures ScanState(vs, bs, best0, hook, req, best', n', bet, s, extended, started, i)
  {
  }

  lemma TooSmall(majors: map<nat, Major>, minors: map<nat, Minor>, info: map<nat, nat>, bs: seq<Block>, i: nat, need: nat)
    requires Stored(majors, minors, info, bs) && i < |bs| && Free(bs[i]) < need
    ensures !HasGap(bs[i], need)
  {
    assert WfBlock(bs[i]);
    SmallFreeMeansNoGap(bs[i], need);
  }

  /** A block without a usable gap is not the fresh one, so fresh pages are still to be had. */
  lemma NotFresh(vs: seq<Block>, bs: seq<Block>, best0: nat, hook: nat, req: nat, best: nat, n: int,
                 bet: bool, s: nat, extended: bool, started: bool, i: nat)
    requires ScanState(vs, bs, best0, hook, req, best, n, bet, s, extended, started, i) && req <= MAX_REQUEST
    requires i < |bs| && !HasGap(bs[i], Need(req))
    ensures !extended && (hook != 0 ==> FreshRun(bs, hook, PagesFor(Padded(req))))
  {
    if extended {
      FreshHasGap(hook, req);
    }
  }

  lemma FreshServes(vs: seq<Block>, bs: seq<Block>, best0: nat, hook: nat, req: nat, best: nat, n: int,
                    bet: bool, s: nat, started: bool, i: nat)
    requires ScanState(vs, bs, best0, hook, req, best, n, bet, s, true, started, i) && req <= MAX_REQUEST
    ensures i < |bs| && HasGap(bs[i], Need(req)) && Free(bs[i]) >= Need(req)
  {
    FreshHasGap(hook, req);
  }

  /** A block without a usable gap is left behind: the scan keeps what it knows. */
  lemma TurnKeeps(vs: seq<Block>, bs: seq<Block>, bs': seq<Block>, best0: nat, hook: nat, req: nat, best: nat, n: int,
                  bet: bool, s: nat, started: bool, started': bool, i: nat, i': nat, turn: Turn)
    requires ScanState(vs, bs, best0, hook, req, best, n, bet, s, false, started, i)
    requires TurnOk(bs, bs', hook, req, started, started', i, i', turn)
    requires i < |bs| && Free(bs[i]) <= n && !HasGap(bs[i], Need(req))
    ensures turn == Hop || turn == Restart ==> ScanState(vs, bs', best0, hook, req, best, n, bet, s, false, started', i')
    ensures turn == Extended ==> ScanState(vs, bs', best0, hook, req, best, n, bet, s, true, started', i')
    ensures turn == NoMemory ==>
              MallocStep(vs, best0, req, hook, bs', 0) && HintLargest(vs, hook, req, best) && !AnyGap(vs, Need(req))
  {
    ScanNext(vs, s, Need(req), n, n, bet, started, i);
    match turn
    case Hop =>
    case Restart =>
      ScanRestart(vs, s, Need(req), n);
    case Extended =>
      ScanEnd(vs, s, Need(req), n, bet);
      HintGrows(vs, EmptyBlock(hook, req), best, n);
    case NoMemory =>
      ScanEnd(vs, s, Need(req), n, bet);
      LargestHint(vs, hook, req, best, n);
  }

  lemma FreshHasGap(hook: nat, req: nat)
    requires hook != 0 && req <= MAX_REQUEST
    ensures HasGap(EmptyBlock(hook, req), Need(req)) && Free(EmptyBlock(hook, req)) >= Need(req)
  {
    FreshBlockFits(hook, req);
    assert Gap(EmptyBlock(hook, req), 0) >= Need(req);
  }

  /** A block with a usable gap ends the scan with exactly the step kmalloc promises. */
  lemma FoundKeeps(vs: seq<Block>, bs: seq<Block>, bs': seq<Block>, best0: nat, hook: nat, req: nat, best: nat, n: int,
                   bet: bool, s: nat, extended: bool, started: bool, i: nat, k: nat, p: nat)
    requires ScanState(vs, bs, best0, hook, req, best, n, bet, s, extended, started, i)
    requires i < |bs| && IsFirstGap(bs[i], Need(req), k)
    requires bs' == bs[i := InsertPiece(bs[i], k, req)] && p == Payload(GapStart(bs[i], k))
    ensures MallocStep(vs, best0, req, hook, bs', p)
    ensures AnyGap(vs, Need(req)) == !extended
    ensures extended ==> HintLargest(vs, hook, req, best)
  {
    if extended {
      FreshStep(vs, best0, req, hook, k, bs', p);
      LargestHint(vs, hook, req, best, n);
    } else {
      FirstGapIsGap(vs[i], Need(req), k);
      ScanFound(vs, s, Need(req), n, bet, started, i);
      FoundStep(vs, best0, req, hook, s, i, k, bs', p);
    }
  }

  /** The scan moves on: from the end of the hint's round to the root, or to the next block of the same round. */
  ghost predicate Later(n: nat, started: bool, i: nat, started': bool, i': nat) {
    (started && !started' && i + 1 == n && i' == 0) || (started == started' && i' == i + 1)
  }

  /** The outcome of a scan: the step kmalloc promises, and what is known of the hint if pages were asked for. */
  ghost predicate Finished(vs: seq<Block>, bs: seq<Block>, best0: nat, hook: nat, req: nat, best: nat, p: nat, asked: bool) {
    && MallocStep(vs, best0, req, hook, bs, p)
    && AnyGap(vs, Need(req)) == !asked
    && (asked ==> HintLargest(vs, hook, req, best))
  }

  lemma FinishedKeepsWf(vs: seq<Block>, bs: seq<Block>, best0: nat, hook: nat, req: nat, best: nat, p: nat, asked: bool)
    requires Finished(vs, bs, best0, hook, req, best, p, asked) && WfHeap(vs) && req <= MAX_REQUEST
    requires hook != 0 ==> FreshRun(vs, hook, PagesFor(Padded(req)))
    ensures WfHeap(bs)
  {
    MallocKeepsWf(vs, best0, req, hook, bs, p);
  }

  lemma NoBlocksNoHint(best: nat)
    requires best == 0 || exists j: nat :: IsBase([], best, j)
    ensures best == 0
  {
  }

  // ----- kfree -----

  predicate PartlyMagic(magic: nat) {
    || magic % 0x1000000 == MAGIC % 0x1000000
    || magic % 0x10000 == MAGIC % 0x10000
    || magic % 0x100 == MAGIC % 0x100
  }

  /** The three tests for an overrun of one to three bytes come to the last of them: the low byte is intact. */
  lemma PartlyIsLowByte(magic: nat)
    ensures PartlyMagic(magic) <==> magic % 0x100 == 0xDE
  {
    LowOfThree(magic);
    LowOfTwo(magic);
    assert MAGIC % 0x1000000 == 0x01c0de && MAGIC % 0x10000 == 0xc0de && MAGIC % 0x100 == 0xde;
  }

  lemma LowOfThree(x: nat)
    ensures x % 0x1000000 % 0x100 == x % 0x100
  {
  }

  lemma LowOfTwo(x: nat)
    ensures x % 0x10000 % 0x100 == x % 0x100
  {
  }

  /** Sizes are compared as C ints: the same modulo 2^32, from -2^31 up. */
  lemma AsIntIs(x: int)
    ensures -0x8000_0000 <= AsInt(x) < 0x8000_0000 && (AsInt(x) - x) % 0x1_0000_0000 == 0
  {
    var q, r := x / 0x1_0000_0000, x % 0x1_0000_0000;
    assert x == q * 0x1_0000_0000 + r;
    assert AsInt(x) - x == -q * 0x1_0000_0000 || AsInt(x) - x == (-q - 1) * 0x1_0000_0000;
  }

  ghost predicate Live(bs: seq<Block>, p: nat) { exists i: nat, k: nat :: IsPointer(bs, p, i, k) }

  /** The free bytes of the block at base `a`, 0 if there is none. */
  ghost function FreeOf(bs: seq<Block>, a: nat): int {
    if exists i: nat :: IsBase(bs, a, i) then
      var i: nat :| IsBase(bs, a, i);
      Free(bs[i])
    else 0
  }

  lemma FreeOfIs(bs: seq<Block>, a: nat, i: nat)
    requires DistinctBases(bs) && IsBase(bs, a, i)
    ensures FreeOf(bs, a) == Free(bs[i])
  {
    var j: nat :| IsBase(bs, a, j) && FreeOf(bs, a) == Free(bs[j]);
  }

  /** What kfree does to the hint, `bs` being the list afterwards and `base` the block freed from. */
  ghost predicate FreeHint(bs: seq<Block>, best: nat, base: nat, best': nat) {
    best' == if !(exists i: nat :: IsBase(bs, base, i)) then (if best == base then 0 else best)
             else if best != 0 && AsInt(FreeOf(bs, base)) > AsInt(FreeOf(bs, best)) then base
             else best
  }

  /** The base of the block a live pointer lies in. */
  ghost function BaseOf(bs: seq<Block>, p: nat): nat {
    if Live(bs, p) then
      var i: nat, k: nat :| IsPointer(bs, p, i, k);
      bs[i].base
    else 0
  }

  lemma BaseOfIs(majors: map<nat, Major>, minors: map<nat, Minor>, info: map<nat, nat>, bs: seq<Block>, p: nat, i: nat, k: nat)
    requires Stored(majors, minors, info, bs) && IsPointer(bs, p, i, k)
    ensures BaseOf(bs, p) == bs[i].base
  {
    var i': nat, k': nat :| IsPointer(bs, p, i', k') && BaseOf(bs, p) == bs[i'].base;
    PointerIsUnique(bs, p, i, k, i', k');
  }

  lemma DroppedBase(bs: seq<Block>, i: nat)
    requires DistinctBases(bs) && i < |bs|
    ensures !(exists j: nat :: IsBase(DropBlock(bs, i), bs[i].base, j))
  {
    var bs' := DropBlock(bs, i);
    forall j: nat | j < |bs'|
      ensures bs'[j].base != bs[i].base
    {
      assert bs'[j] == bs[if j < i then j else j + 1];
    }
  }

  lemma StoredDistinct(majors: map<nat, Major>, minors: map<nat, Minor>, info: map<nat, nat>, bs: seq<Block>)
    requires Stored(majors, minors, info, bs)
    ensures DistinctBases(bs)
  {
    WfIsDistinct(bs);
  }

  lemma StoredPieces(majors: map<nat, Major>, minors: map<nat, Minor>, info: map<nat, nat>, bs: seq<Block>, i: nat)
    requires Stored(majors, minors, info, bs) && i < |bs|
    ensures bs[i].base in majors
    ensures majors[bs[i].base].first == 0 <==> bs[i].pieces == []
    ensures bs[i].base != 0
  {
    assert MajorAt(majors, bs, i) && WfBlock(bs[i]);
  }

  lemma BlockImage(majors: map<nat, Major>, bs: seq<Block>, i: nat)
    requires i < |bs| && LiveMajor(majors, bs, i)
    ensures bs[i].base in majors && bs[i].base + majors[bs[i].base].size == bs[i].Limit()
    ensures majors[bs[i].base].next == NextMajor(bs, i)
    ensures majors[bs[i].base].prev != 0 ==> majors[bs[i].base].prev in majors
    ensures majors[bs[i].base].next != 0 ==> majors[bs[i].base].next in majors
  {
  }

  lemma RootIsFirst(majors: map<nat, Major>, minors: map<nat, Minor>, info: map<nat, nat>, bs: seq<Block>, i: nat)
    requires Stored(majors, minors, info, bs) && i < |bs|
    ensures FirstBase(bs) == bs[i].base <==> i == 0
  {
    WfIsDistinct(bs);
  }

  lemma ReleaseAll(majors: map<nat, Major>, minors: map<nat, Minor>, info: map<nat, nat>, bs: seq<Block>, i: nat, best: nat)
    requires Stored(majors, minors, info, bs) && BytesOk(info) && i < |bs| && bs[i].pieces == []
    requires best == 0 || exists j: nat :: IsBase(bs, best, j)
    ensures bs[i].base in majors
    ensures var m := majors[bs[i].base];
            var hi := bs[i].base + m.size;
            && (m.prev != 0 ==> m.prev in majors) && (m.next != 0 ==> m.next in majors)
            && Stored(DropMajor(majors, bs[i].base), ForgetMinors(minors, bs[i].base, hi), ForgetInfo(info, bs[i].base, hi), DropBlock(bs, i))
            && BytesOk(ForgetInfo(info, bs[i].base, hi))
            && Allocated(DropBlock(bs, i)) == Allocated(bs) - m.size
            && FirstBase(DropBlock(bs, i)) == if FirstBase(bs) == bs[i].base then m.next else FirstBase(bs)
    ensures InUse(DropBlock(bs, i)) == InUse(bs)
    ensures best != bs[i].base ==> best == 0 || exists j: nat :: IsBase(DropBlock(bs, i), best, j)
  {
    hide Stored, BytesOk, InUse, Allocated, ForgetMinors, ForgetInfo, DropMajor, LiveMajor, NextMajor, MajorAt, FirstBase;
    MajorIsLive(majors, minors, info, bs, i);
    BlockImage(majors, bs, i);
    ReleaseStored(majors, minors, info, bs, i);
    AlignKeepsBytes(info, bs[i].base, bs[i].Limit(), 0);
    HintAfterDrop(bs, i, best);
    RootIsFirst(majors, minors, info, bs, i);
  }

  lemma LiveBlock(majors: map<nat, Major>, minors: map<nat, Minor>, info: map<nat, nat>, bs: seq<Block>, i: nat, k: nat)
    requires Stored(majors, minors, info, bs) && i < |bs| && k < |bs[i].pieces|
    ensures bs[i].pieces[k].addr in minors && minors[bs[i].pieces[k].addr].block == bs[i].base
  {
    HeaderIsLive(majors, minors, info, bs, i, k);
  }

  lemma HintAfterDrop(bs: seq<Block>, i: nat, best: nat)
    requires i < |bs| && (best == 0 || exists j: nat :: IsBase(bs, best, j))
    ensures best != bs[i].base ==> best == 0 || exists j: nat :: IsBase(DropBlock(bs, i), best, j)
  {
    if best != 0 && best != bs[i].base {
      var j: nat :| IsBase(bs, best, j);
      assert IsBase(DropBlock(bs, i), best, if j < i then j else j - 1);
    }
  }

  /** Is there a live allocation with its header at `h`? */
  ghost predicate HeaderLive(bs: seq<Block>, h: int) { h >= 0 && exists i: nat, k: nat :: IsHeader(bs, h, i, k) }

  /** A header carries the magic number exactly when it is a live one. */
  lemma MagicIffLive(majors: map<nat, Major>, minors: map<nat, Minor>, info: map<nat, nat>, bs: seq<Block>, h: int)
    requires Stored(majors, minors, info, bs)
    ensures HeaderLive(bs, h) <==> h >= 0 && h in minors && minors[h].magic == MAGIC
  {
    if HeaderLive(bs, h) {
      var i: nat, k: nat :| IsHeader(bs, h, i, k);
      HeaderIsLive(majors, minors, info, bs, i, k);
    }
  }

  /** A live pointer leads to its own header, and a recorded alignment byte leads to a live header only if the pointer
      is live. */
  lemma LiveMeansMagic(majors: map<nat, Major>, minors: map<nat, Minor>, info: map<nat, nat>, bs: seq<Block>, ptr: nat, byte: nat)
    requires Stored(majors, minors, info, bs) && BytesOk(info)
    ensures var h := HeaderOf(info, ptr, byte);
            && (Live(bs, ptr) ==> Recorded(info, ptr) && HeaderLive(bs, h) && Payload(h) == ptr)
            && (Recorded(info, ptr) ==> (HeaderLive(bs, h) <==> Live(bs, ptr)))
  {
    if Live(bs, ptr) {
      PointerBytes(majors, minors, info, bs, ptr, byte);
    }
    var h := HeaderOf(info, ptr, byte);
    if Recorded(info, ptr) && HeaderLive(bs, h) {
      UnalignFindsHeader(info, ptr, byte);
      var i: nat, k: nat :| IsHeader(bs, h, i, k);
      assert IsPointer(bs, ptr, i, k);
    }
  }

  lemma FreeIsStep(bs: seq<Block>, bs': seq<Block>, ptr: nat, i: nat, k: nat)
    requires WfHeap(bs) && IsPointer(bs, ptr, i, k)
    requires bs' == if RemovePiece(bs[i], k).pieces == [] then DropBlock(bs[i := RemovePiece(bs[i], k)], i)
                    else bs[i := RemovePiece(bs[i], k)]
    ensures FreeStep(bs, ptr, bs') && WfHeap(bs')
  {
    var cs := bs[i := RemovePiece(bs[i], k)];
    assert cs[..i] == bs[..i] && cs[i + 1..] == bs[i + 1..];
    assert bs' == RemoveAt(bs, i, k);
    FreeKeepsWf(bs, ptr, bs');
  }

  lemma MallocIsLive(bs: seq<Block>, best: nat, req: nat, hook: nat, bs': seq<Block>, p: nat)
    requires MallocStep(bs, best, req, hook, bs', p) && p != 0
    ensures Live(bs', p)
  {
    hide IsStart, AnyGap, HasGap;
    if AnyGap(bs, Need(req)) {
      var s: nat, i: nat, k: nat :| MallocAt(bs, best, req, s, i, k, bs', p);
      assert bs'[i].pieces[k].addr == GapStart(bs[i], k);
      assert IsPointer(bs', p, i, k);
    } else {
      assert IsPointer(bs', p, |bs|, 0);
    }
  }

  lemma NullMeansSame(bs: seq<Block>, best: nat, req: nat, hook: nat, bs': seq<Block>)
    requires MallocStep(bs, best, req, hook, bs', 0)
    ensures bs' == bs
  {
  }

  /** But a stray pointer, up to 31 bytes behind a live header and without a recorded byte, leads kfree to that header
      when what is read in front of it happens to count back so far. */
  lemma StrayPointerFrees(majors: map<nat, Major>, minors: map<nat, Minor>, info: map<nat, nat>, bs: seq<Block>, i: nat, k: nat, d: nat)
    requires Stored(majors, minors, info, bs) && i < |bs| && k < |bs[i].pieces| && d < ALIGNMENT + ALIGN_INFO
    requires !Recorded(info, bs[i].pieces[k].addr + MINOR_SIZE + d)
    ensures var a := bs[i].pieces[k].addr;
            var ptr := a + MINOR_SIZE + d;
            !Live(bs, ptr) && HeaderOf(info, ptr, d) == a && HeaderLive(bs, a)
  {
    hide Stored;
    var a := bs[i].pieces[k].addr;
    var ptr := a + MINOR_SIZE + d;
    assert IsHeader(bs, a, i, k);
    if Live(bs, ptr) {
      PointerBytes(majors, minors, info, bs, ptr, d);
    }
  }

  /** Every live pointer has its alignment byte, which leads to its header. */
  lemma PointerBytes(majors: map<nat, Major>, minors: map<nat, Minor>, info: map<nat, nat>, bs: seq<Block>, p: nat, byte: nat)
    requires Stored(majors, minors, info, bs) && Live(bs, p)
    ensures Recorded(info, p) && HeaderLive(bs, HeaderOf(info, p, byte)) && Payload(HeaderOf(info, p, byte)) == p
  {
    var i: nat, k: nat :| IsPointer(bs, p, i, k);
    StoredHeaders(majors, minors, info, bs, i);
    var a := bs[i].pieces[k].addr;
    assert InfoAt(info, a);
    UnalignAlign(info, a, byte);
    assert IsHeader(bs, a, i, k);
  }
}
