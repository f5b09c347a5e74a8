/** The kernel heap of kernel/std/kheap.c as a value: page-backed blocks in list order, each
    with its address-ordered allocations.  This module says what the heap means and what one
    `kmalloc` or `kfree` may do to it; KernelHeap.dfy proves the pointer code against it. */
module HeapLayout {

  const MIN_PAGES: nat := 16
  const MAJOR_SIZE: nat := 40   // sizeof(struct liballoc_major) on x86-64
  const MINOR_SIZE: nat := 40   // sizeof(struct liballoc_minor) on x86-64
  const ALIGNMENT: nat := 16
  const ALIGN_INFO: nat := 16

  /** Sizes are 32-bit fields of the headers; up to here no size computed for a request wraps around. */
  const MAX_REQUEST: nat := 0x1_0000_0000 - 4096 - 112

  /** One live allocation: the address of its header, the bytes behind the header, the bytes asked for. */
  datatype Piece = Piece(addr: nat, size: nat, req: nat) {
    function End(): nat { addr + MINOR_SIZE + size }
  }

  /** One run of pages with its allocations in address order. */
  datatype Block = Block(base: nat, pages: nat, pieces: seq<Piece>) {
    function Limit(): nat { base + pages * 4096 }
  }

  // ----- sizes -----

  function Padded(req: nat): nat { req + ALIGNMENT + ALIGN_INFO }

  /** Header plus padded request: the contiguous bytes one allocation takes. */
  function Need(req: nat): nat { Padded(req) + MINOR_SIZE }

  /** The pages `allocate_new_page` asks for. */
  function PagesFor(size: nat): (n: nat)
    ensures n >= MIN_PAGES
    ensures n * 4096 >= MAJOR_SIZE + MINOR_SIZE + size
    ensures n > MIN_PAGES ==> (n - 1) * 4096 < MAJOR_SIZE + MINOR_SIZE + size
  {
    var st := size + MAJOR_SIZE + MINOR_SIZE;
    var pages := if st % 4096 == 0 then st / 4096 else st / 4096 + 1;
    if pages < MIN_PAGES then MIN_PAGES else pages
  }

  /** The size `allocate_new_page` writes into the header of a block for a request of `req` bytes, in the source's
      widths: 64 bits for the padded request, 32 for everything behind it. */
  function SizeField(req: nat): nat {
    var size := Padded(req) % 0x1_0000_0000_0000_0000 % 0x1_0000_0000;
    var st := (size + MAJOR_SIZE + MINOR_SIZE) % 0x1_0000_0000;
    var pages := if st % 4096 == 0 then st / 4096 else st / 4096 + 1;
    (if pages < MIN_PAGES then MIN_PAGES else pages) * 4096 % 0x1_0000_0000
  }

  /** A new block holds the request it was made for exactly up to MAX_REQUEST; beyond, some size wraps around. */
  lemma HoldsRequestIff(req: nat)
    requires req < 0x1_0000_0000_0000_0000
    ensures SizeField(req) >= MAJOR_SIZE + MINOR_SIZE + Padded(req) <==> req <= MAX_REQUEST
    ensures req <= MAX_REQUEST ==> SizeField(req) == PagesFor(Padded(req)) * 4096
  {
    if req <= MAX_REQUEST {
      NothingWraps(req);
    } else if req <= 0x1_0000_0000 - 112 {
      SizeWraps(req);
    }
  }

  lemma NothingWraps(req: nat)
    requires req <= MAX_REQUEST
    ensures SizeField(req) == PagesFor(Padded(req)) * 4096
  {
    var pages := PagesFor(Padded(req));
    Narrow(Padded(req));
    Narrow(Padded(req) + MAJOR_SIZE + MINOR_SIZE);
    PagesNarrow(req);
    Narrow(pages * 4096);
  }

  lemma Narrow(x: nat)
    requires x < 0x1_0000_0000
    ensures x % 0x1_0000_0000_0000_0000 % 0x1_0000_0000 == x % 0x1_0000_0000 == x
  {
  }

  lemma PagesNarrow(req: nat)
    requires req <= MAX_REQUEST
    ensures PagesFor(Padded(req)) * 4096 < 0x1_0000_0000
  {
  }

  /** The page count is 2^20 or the request wraps as a whole: the size field reads 0 or the minimum. */
  lemma SizeWraps(req: nat)
    requires MAX_REQUEST < req <= 0x1_0000_0000 - 112
    ensures SizeField(req) <= MIN_PAGES * 4096
  {
    var st := req + 112;
    Narrow(Padded(req));
    if st < 0x1_0000_0000 {
      Narrow(st);
      assert st % 4096 != 0 && st / 4096 + 1 == 0x10_0000;
    }
  }

  /** The pointer handed out for the allocation whose header is at `addr`. */
  function Payload(addr: nat): (p: nat)
    ensures p % 16 == 0
    ensures addr + MINOR_SIZE + ALIGN_INFO <= p < addr + MINOR_SIZE + ALIGN_INFO + ALIGNMENT
  {
    var p := addr + MINOR_SIZE + ALIGN_INFO;
    if p % 16 == 0 then p else p + (ALIGNMENT - p % 16)
  }

  function SumPieces(ps: seq<Piece>): nat {
    if ps == [] then 0 else SumPieces(ps[..|ps| - 1]) + MINOR_SIZE + ps[|ps| - 1].size
  }

  function SumSizes(ps: seq<Piece>): nat {
    if ps == [] then 0 else SumSizes(ps[..|ps| - 1]) + ps[|ps| - 1].size
  }

  /** Bytes of a block taken by its header and its allocations. */
  function Usage(b: Block): nat { MAJOR_SIZE + SumPieces(b.pieces) }

  function InUse(bs: seq<Block>): nat {
    if bs == [] then 0 else InUse(bs[..|bs| - 1]) + SumSizes(bs[|bs| - 1].pieces)
  }

  function Allocated(bs: seq<Block>): nat {
    if bs == [] then 0 else Allocated(bs[..|bs| - 1]) + bs[|bs| - 1].pages * 4096
  }

  // ----- well-formed heaps -----

  ghost predicate WfBlock(b: Block) {
    && b.base > 0
    && b.pages > 0
    && b.pages * 4096 < 0x1_0000_0000
    && (forall k :: 0 <= k < |b.pieces| ==>
          b.base + MAJOR_SIZE <= b.pieces[k].addr && b.pieces[k].End() <= b.Limit())
    && (forall k :: 0 <= k < |b.pieces| ==> b.pieces[k].size == Padded(b.pieces[k].req))
    && (forall j, k :: 0 <= j < k < |b.pieces| ==> b.pieces[j].End() <= b.pieces[k].addr)
  }

  ghost predicate Apart(b: Block, c: Block) {
    b.Limit() <= c.base || c.Limit() <= b.base
  }

  ghost predicate WfBlocks(bs: seq<Block>) {
    && (forall i :: 0 <= i < |bs| ==> WfBlock(bs[i]))
    && (forall i, j :: 0 <= i < j < |bs| ==> Apart(bs[i], bs[j]))
  }

  /** Between calls no block is empty. */
  ghost predicate WfHeap(bs: seq<Block>) {
    && WfBlocks(bs)
    && forall i :: 0 <= i < |bs| ==> bs[i].pieces != []
  }

  // ----- gaps -----

  function GapStart(b: Block, k: nat): nat
    requires k <= |b.pieces|
  {
    if k == 0 then b.base + MAJOR_SIZE else b.pieces[k - 1].End()
  }

  function GapEnd(b: Block, k: nat): nat
    requires k <= |b.pieces|
  {
    if k == |b.pieces| then b.Limit() else b.pieces[k].addr
  }

  function Gap(b: Block, k: nat): int
    requires k <= |b.pieces|
  {
    GapEnd(b, k) - GapStart(b, k)
  }

  ghost predicate HasGap(b: Block, need: nat) {
    exists k: nat :: k <= |b.pieces| && Gap(b, k) >= need
  }

  ghost predicate IsFirstGap(b: Block, need: nat, k: nat) {
    && k <= |b.pieces|
    && Gap(b, k) >= need
    && forall j: nat :: j < k ==> Gap(b, j) < need
  }

  function Free(b: Block): int { b.pages * 4096 - Usage(b) }

  function SumGaps(b: Block, n: nat): int
    requires n <= |b.pieces| + 1
  {
    if n == 0 then 0 else SumGaps(b, n - 1) + Gap(b, n - 1)
  }

  /** Walking a block from its header: gaps and allocations tile the space passed so far. */
  lemma {:induction false} GapsTile(b: Block, k: nat)
    requires k <= |b.pieces|
    ensures SumGaps(b, k) + SumPieces(b.pieces[..k]) == GapStart(b, k) - b.base - MAJOR_SIZE
  {
    if k == 0 {
      assert b.pieces[..0] == [];
    } else {
      GapsTile(b, k - 1);
      assert b.pieces[..k][..k - 1] == b.pieces[..k - 1];
    }
  }

  /** Conservation: the free bytes computed from `usage` are exactly the sum of all gaps. */
  lemma FreeIsSumOfGaps(b: Block)
    ensures Free(b) == SumGaps(b, |b.pieces| + 1)
  {
    GapsTile(b, |b.pieces|);
    assert b.pieces[..|b.pieces|] == b.pieces;
  }

  lemma {:induction false} GapsNonNegative(b: Block, n: nat, k: nat)
    requires WfBlock(b) && k < n <= |b.pieces| + 1
    ensures 0 <= Gap(b, k) <= SumGaps(b, n)
    decreases n
  {
    hide WfBlock, Gap;
    GapNonNegative(b, n - 1);
    if n == k + 1 {
      if n > 1 { GapsNonNegative(b, n - 1, 0); }
    } else {
      GapsNonNegative(b, n - 1, k);
    }
  }

  lemma GapNonNegative(b: Block, k: nat)
    requires WfBlock(b) && k <= |b.pieces|
    ensures 0 <= Gap(b, k)
  {
  }

  /** CASE 1 is sound: a block whose free bytes do not cover the need has no usable gap. */
  lemma SmallFreeMeansNoGap(b: Block, need: nat)
    requires WfBlock(b) && Free(b) < need
    ensures !HasGap(b, need)
  {
    forall k: nat | k <= |b.pieces|
      ensures Gap(b, k) < need
    {
      FreeIsSumOfGaps(b);
      GapsNonNegative(b, |b.pieces| + 1, k);
    }
  }

  // ----- edits -----

  function InsertPiece(b: Block, k: nat, req: nat): Block
    requires k <= |b.pieces|
  {
    b.(pieces := b.pieces[..k] + [Piece(GapStart(b, k), Padded(req), req)] + b.pieces[k..])
  }

  function RemovePiece(b: Block, k: nat): Block
    requires k < |b.pieces|
  {
    b.(pieces := b.pieces[..k] + b.pieces[k + 1..])
  }

  function NewBlock(base: nat, req: nat): Block {
    Block(base, PagesFor(Padded(req)), [Piece(base + MAJOR_SIZE, Padded(req), req)])
  }

  function DropBlock(bs: seq<Block>, i: nat): seq<Block>
    requires i < |bs|
  {
    bs[..i] + bs[i + 1..]
  }

  /** Freeing allocation `k` of block `i`; a block left empty goes back to the system. */
  function RemoveAt(bs: seq<Block>, i: nat, k: nat): seq<Block>
    requires i < |bs| && k < |bs[i].pieces|
  {
    if |bs[i].pieces| == 1 then DropBlock(bs, i) else bs[i := RemovePiece(bs[i], k)]
  }

  /** The pieces after an insertion, by position. */
  lemma InsertAt(b: Block, k: nat, req: nat, j: nat)
    requires k <= |b.pieces| && j <= |b.pieces|
    ensures var c := InsertPiece(b, k, req);
            |c.pieces| == |b.pieces| + 1
            && c.pieces[j] == if j < k then b.pieces[j] else if j == k then Piece(GapStart(b, k), Padded(req), req) else b.pieces[j - 1]
  {
  }

  /** The new piece lies in its gap, behind what is before it and in front of what comes after. */
  lemma InsertFits(b: Block, k: nat, req: nat)
    requires WfBlock(b) && k <= |b.pieces| && Gap(b, k) >= Need(req)
    ensures var q := Piece(GapStart(b, k), Padded(req), req);
            && b.base + MAJOR_SIZE <= q.addr && q.End() <= b.Limit()
            && (forall j :: 0 <= j < k ==> b.pieces[j].End() <= q.addr)
            && (forall j :: k <= j < |b.pieces| ==> q.End() <= b.pieces[j].addr)
  {
  }

  lemma InsertKeepsWf(b: Block, k: nat, req: nat)
    requires WfBlock(b) && k <= |b.pieces| && Gap(b, k) >= Need(req)
    ensures WfBlock(InsertPiece(b, k, req))
  {
    InsertFits(b, k, req);
    hide InsertPiece, GapStart, Gap;
    var c := InsertPiece(b, k, req);
    InsertBase(b, k, req);
    forall j | 0 <= j < |c.pieces|
      ensures b.base + MAJOR_SIZE <= c.pieces[j].addr && c.pieces[j].End() <= b.Limit()
      ensures c.pieces[j].size == Padded(c.pieces[j].req)
    {
      InsertAt(b, k, req, j);
    }
    forall i, j | 0 <= i < j < |c.pieces|
      ensures c.pieces[i].End() <= c.pieces[j].addr
    {
      InsertAt(b, k, req, i);
      InsertAt(b, k, req, j);
    }
  }

  lemma InsertBase(b: Block, k: nat, req: nat)
    requires k <= |b.pieces|
    ensures var c := InsertPiece(b, k, req); c.base == b.base && c.pages == b.pages && |c.pieces| == |b.pieces| + 1
  {
  }

  lemma {:induction false} SumSplit(ps: seq<Piece>, k: nat)
    requires k <= |ps|
    ensures SumPieces(ps) == SumPieces(ps[..k]) + SumPieces(ps[k..])
    ensures SumSizes(ps) == SumSizes(ps[..k]) + SumSizes(ps[k..])
    decreases |ps|
  {
    if k == |ps| {
      assert ps[..k] == ps;
    } else {
      var front := ps[..|ps| - 1];
      SumSplit(front, k);
      assert front[..k] == ps[..k];
      assert front[k..] == ps[k..][..|ps[k..]| - 1];
    }
  }

  lemma SumOne(p: Piece)
    ensures SumPieces([p]) == MINOR_SIZE + p.size && SumSizes([p]) == p.size
  {
    assert [p][..0] == [];
  }

  lemma SumInsert(ps: seq<Piece>, k: nat, p: Piece)
    requires k <= |ps|
    ensures SumPieces(ps[..k] + [p] + ps[k..]) == SumPieces(ps) + MINOR_SIZE + p.size
    ensures SumSizes(ps[..k] + [p] + ps[k..]) == SumSizes(ps) + p.size
  {
    var qs := ps[..k] + [p] + ps[k..];
    SumSplit(ps, k);
    SumSplit(qs, k);
    SumSplit(qs[k..], 1);
    assert qs[..k] == ps[..k] && qs[k..][..1] == [p] && qs[k..][1..] == ps[k..];
    SumOne(p);
  }

  lemma {:induction false} TotalsSplit(bs: seq<Block>, i: nat)
    requires i <= |bs|
    ensures InUse(bs) == InUse(bs[..i]) + InUse(bs[i..])
    ensures Allocated(bs) == Allocated(bs[..i]) + Allocated(bs[i..])
    decreases |bs|
  {
    if i == |bs| {
      assert bs[..i] == bs;
    } else {
      var front := bs[..|bs| - 1];
      TotalsSplit(front, i);
      assert front[..i] == bs[..i];
      assert front[i..] == bs[i..][..|bs[i..]| - 1];
    }
  }

  lemma TotalsOne(b: Block)
    ensures InUse([b]) == SumSizes(b.pieces) && Allocated([b]) == b.pages * 4096
  {
    assert [b][..0] == [];
  }

  /** The two running totals in terms of one block and the rest. */
  lemma TotalsAt(bs: seq<Block>, i: nat)
    requires i < |bs|
    ensures InUse(bs) == InUse(bs[..i]) + SumSizes(bs[i].pieces) + InUse(bs[i + 1..])
    ensures Allocated(bs) == Allocated(bs[..i]) + bs[i].pages * 4096 + Allocated(bs[i + 1..])
  {
    TotalsSplit(bs, i);
    TotalsSplit(bs[i..], 1);
    assert bs[i..][..1] == [bs[i]] && bs[i..][1..] == bs[i + 1..];
    TotalsOne(bs[i]);
  }

  lemma TotalsReplace(bs: seq<Block>, i: nat, b: Block)
    requires i < |bs|
    ensures InUse(bs[i := b]) == InUse(bs) - SumSizes(bs[i].pieces) + SumSizes(b.pieces)
    ensures Allocated(bs[i := b]) == Allocated(bs) - bs[i].pages * 4096 + b.pages * 4096
  {
    var cs := bs[i := b];
    TotalsAt(bs, i);
    TotalsAt(cs, i);
    assert cs[..i] == bs[..i] && cs[i + 1..] == bs[i + 1..];
  }

  lemma TotalsAppend(bs: seq<Block>, b: Block)
    ensures InUse(bs + [b]) == InUse(bs) + SumSizes(b.pieces)
    ensures Allocated(bs + [b]) == Allocated(bs) + b.pages * 4096
  {
    assert (bs + [b])[..|bs|] == bs;
  }

  lemma TotalsDrop(bs: seq<Block>, i: nat)
    requires i < |bs|
    ensures InUse(bs[..i] + bs[i + 1..]) == InUse(bs) - SumSizes(bs[i].pieces)
    ensures Allocated(bs[..i] + bs[i + 1..]) == Allocated(bs) - bs[i].pages * 4096
  {
    var cs := bs[..i] + bs[i + 1..];
    TotalsAt(bs, i);
    TotalsSplit(cs, i);
    assert cs[..i] == bs[..i] && cs[i..] == bs[i + 1..];
  }

  /** Inserting and then removing at the same place is the identity. */
  lemma RemoveInsert(b: Block, k: nat, req: nat)
    requires k <= |b.pieces|
    ensures RemovePiece(InsertPiece(b, k, req), k) == b
  {
    var c := InsertPiece(b, k, req);
    assert c.pieces[..k] + c.pieces[k + 1..] == b.pieces;
  }

  lemma InsertRemove(b: Block, k: nat)
    requires k < |b.pieces|
    ensures b.pieces == RemovePiece(b, k).pieces[..k] + [b.pieces[k]] + RemovePiece(b, k).pieces[k..]
  {
  }

  // ----- the scan -----

  ghost predicate AnyGap(bs: seq<Block>, need: nat) {
    exists i :: 0 <= i < |bs| && HasGap(bs[i], need)
  }

  /** `kmalloc` starts at the hinted block when that block has more than `need` free bytes. */
  ghost predicate IsStart(bs: seq<Block>, best: nat, need: nat, s: nat) {
    if exists j :: 0 <= j < |bs| && bs[j].base == best && Free(bs[j]) > need
    then s < |bs| && bs[s].base == best
    else s == 0
  }

  /** Block `i` is the first with a usable gap when scanning from `s` to the end and then from the root. */
  ghost predicate FirstFit(bs: seq<Block>, s: nat, need: nat, i: nat) {
    && i < |bs|
    && HasGap(bs[i], need)
    && if i >= s then forall j :: s <= j < i ==> !HasGap(bs[j], need)
       else (forall j :: s <= j < |bs| ==> !HasGap(bs[j], need)) && (forall j :: 0 <= j < i ==> !HasGap(bs[j], need))
  }

  ghost predicate FreshRun(bs: seq<Block>, base: nat, pages: nat) {
    base > 0 && forall i :: 0 <= i < |bs| ==> Apart(bs[i], Block(base, pages, []))
  }

  /** The request goes into gap `k` of block `i`: the first usable gap of the first usable block in scan order. */
  ghost predicate MallocAt(bs: seq<Block>, best: nat, req: nat, s: nat, i: nat, k: nat, bs': seq<Block>, p: nat) {
    && IsStart(bs, best, Need(req), s)
    && FirstFit(bs, s, Need(req), i)
    && IsFirstGap(bs[i], Need(req), k)
    && bs' == bs[i := InsertPiece(bs[i], k, req)]
    && p == Payload(GapStart(bs[i], k))
  }

  /** Everything one `kmalloc(req)` may do, when the page hook would answer `hook` (0 is NULL). */
  ghost predicate MallocStep(bs: seq<Block>, best: nat, req: nat, hook: nat, bs': seq<Block>, p: nat) {
    if AnyGap(bs, Need(req)) then
      exists s: nat, i: nat, k: nat :: MallocAt(bs, best, req, s, i, k, bs', p)
    else if hook == 0 then bs' == bs && p == 0
    else bs' == bs + [NewBlock(hook, req)] && p == Payload(hook + MAJOR_SIZE)
  }

  ghost predicate IsPointer(bs: seq<Block>, p: nat, i: nat, k: nat) {
    i < |bs| && k < |bs[i].pieces| && p == Payload(bs[i].pieces[k].addr)
  }

  /** Everything one `kfree(p)` of a live pointer may do. */
  ghost predicate FreeStep(bs: seq<Block>, p: nat, bs': seq<Block>) {
    exists i: nat, k: nat :: IsPointer(bs, p, i, k) && bs' == RemoveAt(bs, i, k)
  }

  lemma FreshBlockFits(hook: nat, req: nat)
    requires hook > 0 && req <= MAX_REQUEST
    ensures WfBlock(Block(hook, PagesFor(Padded(req)), []))
    ensures WfBlock(NewBlock(hook, req))
    ensures InsertPiece(Block(hook, PagesFor(Padded(req)), []), 0, req) == NewBlock(hook, req)
    ensures Gap(Block(hook, PagesFor(Padded(req)), []), 0) >= Need(req)
    ensures Free(Block(hook, PagesFor(Padded(req)), [])) >= Need(req)
  {
  }

  lemma ReplaceKeepsWf(bs: seq<Block>, i: nat, c: Block)
    requires WfBlocks(bs) && i < |bs| && WfBlock(c) && c.base == bs[i].base && c.pages == bs[i].pages
    ensures WfBlocks(bs[i := c])
  {
    var cs := bs[i := c];
    forall j, k | 0 <= j < k < |cs|
      ensures Apart(cs[j], cs[k])
    {
      assert Apart(bs[j], bs[k]);
    }
  }

  lemma RemoveKeepsWf(b: Block, k: nat)
    requires WfBlock(b) && k < |b.pieces|
    ensures WfBlock(RemovePiece(b, k))
  {
    var c := RemovePiece(b, k);
    assert forall j :: 0 <= j < |c.pieces| ==> c.pieces[j] == b.pieces[if j < k then j else j + 1];
  }

  lemma DropKeepsWf(bs: seq<Block>, i: nat)
    requires WfBlocks(bs) && i < |bs|
    ensures WfBlocks(bs[..i] + bs[i + 1..])
  {
    var cs := bs[..i] + bs[i + 1..];
    assert forall j :: 0 <= j < |cs| ==> cs[j] == bs[if j < i then j else j + 1];
  }

  lemma GapOfFit(bs: seq<Block>, s: nat, need: nat, i: nat)
    requires FirstFit(bs, s, need, i)
    ensures i < |bs|
  {
  }

  /** A successful or failed `kmalloc` keeps the heap well formed. */
  lemma MallocKeepsWf(bs: seq<Block>, best: nat, req: nat, hook: nat, bs': seq<Block>, p: nat)
    requires WfHeap(bs) && MallocStep(bs, best, req, hook, bs', p)
    requires req <= MAX_REQUEST && (hook != 0 ==> FreshRun(bs, hook, PagesFor(Padded(req))))
    ensures WfHeap(bs')
  {
    hide IsStart, FirstFit, HasGap, PagesFor;
    if AnyGap(bs, Need(req)) {
      var s: nat, i: nat, k: nat :| MallocAt(bs, best, req, s, i, k, bs', p);
      GapOfFit(bs, s, Need(req), i);
      InsertKeepsWf(bs[i], k, req);
      ReplaceKeepsWf(bs, i, InsertPiece(bs[i], k, req));
      InsertBase(bs[i], k, req);
    } else if hook != 0 {
      FreshBlockFits(hook, req);
    }
  }

  lemma FreeKeepsWf(bs: seq<Block>, p: nat, bs': seq<Block>)
    requires WfHeap(bs) && FreeStep(bs, p, bs')
    ensures WfHeap(bs')
  {
    var i: nat, k: nat :| IsPointer(bs, p, i, k) && bs' == RemoveAt(bs, i, k);
    if |bs[i].pieces| == 1 {
      DropKeepsWf(bs, i);
    } else {
      RemoveKeepsWf(bs[i], k);
      ReplaceKeepsWf(bs, i, RemovePiece(bs[i], k));
    }
  }

  // ----- what the pointers mean -----

  ghost predicate Disjoint(lo: nat, hi: nat, lo': nat, hi': nat) { hi <= lo' || hi' <= lo }

  /** A live pointer is 16-byte aligned and its requested bytes lie inside its own allocation, behind the
      header and behind the recorded alignment byte. */
  lemma PayloadInside(b: Block, k: nat)
    requires WfBlock(b) && k < |b.pieces|
    ensures var q := b.pieces[k]; var p := Payload(q.addr);
            && p % 16 == 0
            && q.addr + MINOR_SIZE <= p - ALIGN_INFO
            && p + q.req <= q.End() <= b.Limit()
  {
  }

  /** Two different live allocations never share a byte, and none touches any block header. */
  lemma AllocationsDisjoint(bs: seq<Block>, i: nat, k: nat, i': nat, k': nat)
    requires WfBlocks(bs) && i < |bs| && k < |bs[i].pieces| && i' < |bs| && k' < |bs[i'].pieces|
    ensures (i, k) != (i', k') ==>
              Disjoint(bs[i].pieces[k].addr, bs[i].pieces[k].End(), bs[i'].pieces[k'].addr, bs[i'].pieces[k'].End())
    ensures Disjoint(bs[i].pieces[k].addr, bs[i].pieces[k].End(), bs[i'].base, bs[i'].base + MAJOR_SIZE)
  {
    if i < i' {
      assert Apart(bs[i], bs[i']);
    } else if i' < i {
      assert Apart(bs[i'], bs[i]);
    }
    assert WfBlock(bs[i]) && WfBlock(bs[i']);
  }

  ghost predicate Room(bs: seq<Block>, i: nat, k: nat, req: nat) {
    WfBlocks(bs) && i < |bs| && k <= |bs[i].pieces| && Gap(bs[i], k) >= Need(req)
  }

  /** No live allocation reaches into the gap that is about to be used. */
  lemma GapIsFree(bs: seq<Block>, i: nat, k: nat, req: nat, j: nat, m: nat)
    requires Room(bs, i, k, req) && j < |bs| && m < |bs[j].pieces|
    ensures var a := GapStart(bs[i], k); Disjoint(bs[j].pieces[m].addr, bs[j].pieces[m].End(), a, a + Need(req))
  {
    var c := InsertPiece(bs[i], k, req);
    InsertKeepsWf(bs[i], k, req);
    ReplaceKeepsWf(bs, i, c);
    var m' := if j == i && m >= k then m + 1 else m;
    AllocationsDisjoint(bs[i := c], i, k, j, m');
  }

  /** A pointer value names one allocation only. */
  lemma PointerIsUnique(bs: seq<Block>, p: nat, i: nat, k: nat, i': nat, k': nat)
    requires WfBlocks(bs) && IsPointer(bs, p, i, k) && IsPointer(bs, p, i', k')
    ensures i == i' && k == k'
  {
    AllocationsDisjoint(bs, i, k, i', k');
    assert WfBlock(bs[i]) && WfBlock(bs[i']);
    PayloadInside(bs[i], k);
    PayloadInside(bs[i'], k');
  }

  /** `kfree` is deterministic: it removes the allocation its pointer names. */
  lemma FreeStepIs(bs: seq<Block>, p: nat, bs': seq<Block>, i: nat, k: nat)
    requires WfBlocks(bs) && FreeStep(bs, p, bs') && IsPointer(bs, p, i, k)
    ensures bs' == RemoveAt(bs, i, k)
  {
    var i': nat, k': nat :| IsPointer(bs, p, i', k') && bs' == RemoveAt(bs, i', k');
    PointerIsUnique(bs, p, i, k, i', k');
  }

  lemma RemoveAtUndoesInsert(bs: seq<Block>, i: nat, k: nat, req: nat)
    requires i < |bs| && bs[i].pieces != [] && k <= |bs[i].pieces|
    ensures RemoveAt(bs[i := InsertPiece(bs[i], k, req)], i, k) == bs
  {
    RemoveInsert(bs[i], k, req);
  }

  lemma RemoveAtUndoesAppend(bs: seq<Block>, b: Block)
    requires |b.pieces| == 1
    ensures RemoveAt(bs + [b], |bs|, 0) == bs
  {
  }

  /** `kfree` right after a successful `kmalloc` restores every block and allocation. */
  lemma FreeUndoesMalloc(bs: seq<Block>, best: nat, req: nat, hook: nat, bs': seq<Block>, p: nat, bs'': seq<Block>)
    requires WfHeap(bs) && MallocStep(bs, best, req, hook, bs', p) && p != 0
    requires req <= MAX_REQUEST && (hook != 0 ==> FreshRun(bs, hook, PagesFor(Padded(req))))
    requires FreeStep(bs', p, bs'')
    ensures bs'' == bs
  {
    MallocKeepsWf(bs, best, req, hook, bs', p);
    if AnyGap(bs, Need(req)) {
      var s: nat, i: nat, k: nat :| MallocAt(bs, best, req, s, i, k, bs', p);
      FreeStepIs(bs', p, bs'', i, k);
      RemoveAtUndoesInsert(bs, i, k, req);
    } else {
      FreeStepIs(bs', p, bs'', |bs|, 0);
      RemoveAtUndoesAppend(bs, NewBlock(hook, req));
    }
  }
}
