/** How a heap of kernel/std/kheap.c lies in memory: major and minor headers and alignment bytes, each
    keyed by its address; address 0 is NULL.  Every pointer edit of the allocator is shown to turn the
    image of one heap value into the image of the next. */
module HeapMemory {
  import opened HeapLayout

  const MAGIC: nat := 0xc001c0de
  const DEAD: nat := 0xdeaddead

  datatype Major = Major(prev: nat, next: nat, pages: nat, size: nat, usage: nat, first: nat)
  datatype Minor = Minor(prev: nat, next: nat, block: nat, magic: nat, size: nat, req: nat)

  // ----- the image of a heap value in memory -----

  function MajorImage(bs: seq<Block>, i: nat): Major
    requires i < |bs|
  {
    Major(if i == 0 then 0 else bs[i - 1].base,
          if i + 1 == |bs| then 0 else bs[i + 1].base,
          bs[i].pages,
          bs[i].pages * 4096,
          Usage(bs[i]),
          if bs[i].pieces == [] then 0 else bs[i].pieces[0].addr)
  }

  function MinorImage(b: Block, k: nat): Minor
    requires k < |b.pieces|
  {
    Minor(if k == 0 then 0 else b.pieces[k - 1].addr,
          if k + 1 == |b.pieces| then 0 else b.pieces[k + 1].addr,
          b.base,
          MAGIC,
          b.pieces[k].size,
          b.pieces[k].req)
  }

  ghost predicate MajorAt(majors: map<nat, Major>, bs: seq<Block>, i: nat)
    requires i < |bs|
  {
    bs[i].base in majors && majors[bs[i].base] == MajorImage(bs, i)
  }

  ghost predicate MajorsOk(majors: map<nat, Major>, bs: seq<Block>) {
    forall i :: 0 <= i < |bs| ==> MajorAt(majors, bs, i)
  }

  ghost predicate HeaderAt(minors: map<nat, Minor>, b: Block, k: nat)
    requires k < |b.pieces|
  {
    b.pieces[k].addr in minors && minors[b.pieces[k].addr] == MinorImage(b, k)
  }

  ghost predicate HeadersOk(minors: map<nat, Minor>, b: Block) {
    forall k :: 0 <= k < |b.pieces| ==> HeaderAt(minors, b, k)
  }

  ghost predicate InfosOk(info: map<nat, nat>, b: Block) {
    forall k :: 0 <= k < |b.pieces| ==> InfoAt(info, b.pieces[k].addr)
  }

  ghost predicate BlockOk(minors: map<nat, Minor>, info: map<nat, nat>, b: Block) {
    HeadersOk(minors, b) && InfosOk(info, b)
  }

  /** The byte `ALIGN` leaves in front of the pointer leads back to the header's end. */
  ghost predicate InfoAt(info: map<nat, nat>, addr: nat) {
    Payload(addr) - ALIGN_INFO in info && info[Payload(addr) - ALIGN_INFO] == Payload(addr) - addr - MINOR_SIZE
  }

  /** This alignment byte was left by `ALIGN`: it counts back to the end of the header it belongs to. */
  ghost predicate ByteAt(info: map<nat, nat>, x: nat)
    requires x in info
  {
    info[x] + MINOR_SIZE <= x + ALIGN_INFO && info[x] < ALIGNMENT + ALIGN_INFO
    && Payload(x + ALIGN_INFO - info[x] - MINOR_SIZE) == x + ALIGN_INFO
  }

  ghost predicate BytesOk(info: map<nat, nat>) {
    forall x {:trigger ByteAt(info, x)} :: x in info ==> ByteAt(info, x)
  }

  lemma AlignKeepsBytes(info: map<nat, nat>, lo: nat, hi: nat, a: nat)
    requires BytesOk(info)
    ensures BytesOk(ForgetInfo(info, lo, hi)) && BytesOk(AlignInfo(ForgetInfo(info, lo, hi), a))
  {
    var info0 := ForgetInfo(info, lo, hi);
    forall x | x in info0
      ensures ByteAt(info0, x)
    {
      assert ByteAt(info, x);
    }
    forall x | x in AlignInfo(info0, a)
      ensures ByteAt(AlignInfo(info0, a), x)
    {
      assert x != Payload(a) - ALIGN_INFO ==> ByteAt(info0, x);
    }
  }

  /** `UNALIGN`: where the header of a pointer ends, given the byte in front of the pointer. */
  function Unalign(ptr: nat, diff: nat): int { if diff < ALIGNMENT + ALIGN_INFO then ptr - diff else ptr }

  /** Has the allocator written the alignment byte of this pointer?  If not, anything may be read there. */
  predicate Recorded(info: map<nat, nat>, ptr: nat) { ptr >= ALIGN_INFO && ptr - ALIGN_INFO in info }

  /** Where `kfree` looks for the header of a pointer; `byte` is read in front of pointers without a recorded byte. */
  function HeaderOf(info: map<nat, nat>, ptr: nat, byte: nat): int {
    Unalign(ptr, if Recorded(info, ptr) then info[ptr - ALIGN_INFO] else byte) - MINOR_SIZE
  }

  /** UNALIGN undoes ALIGN: a recorded byte leads to the one header whose pointer this is, and conversely. */
  lemma UnalignFindsHeader(info: map<nat, nat>, ptr: nat, byte: nat)
    requires BytesOk(info) && Recorded(info, ptr)
    ensures HeaderOf(info, ptr, byte) >= 0 && Payload(HeaderOf(info, ptr, byte)) == ptr
  {
    assert ByteAt(info, ptr - ALIGN_INFO);
  }

  lemma UnalignAlign(info: map<nat, nat>, addr: nat, byte: nat)
    requires InfoAt(info, addr)
    ensures Recorded(info, Payload(addr)) && HeaderOf(info, Payload(addr), byte) == addr
  {
  }

  ghost predicate MinorsOk(minors: map<nat, Minor>, info: map<nat, nat>, bs: seq<Block>) {
    forall i :: 0 <= i < |bs| ==> BlockOk(minors, info, bs[i])
  }

  ghost predicate IsHeader(bs: seq<Block>, a: nat, i: nat, k: nat) {
    i < |bs| && k < |bs[i].pieces| && a == bs[i].pieces[k].addr
  }

  /** Only live headers carry the magic number. */
  ghost predicate MagicOk(minors: map<nat, Minor>, bs: seq<Block>) {
    forall a :: a in minors && minors[a].magic == MAGIC ==> exists i: nat, k: nat :: IsHeader(bs, a, i, k)
  }

  /** Headers no longer known once the bytes [lo, hi) belong to somebody else. */
  function ForgetMinors(m: map<nat, Minor>, lo: nat, hi: nat): map<nat, Minor> {
    map a | a in m && (a + MINOR_SIZE <= lo || hi <= a) :: m[a]
  }

  function ForgetInfo(m: map<nat, nat>, lo: nat, hi: nat): map<nat, nat> {
    map a | a in m && (a < lo || hi <= a) :: m[a]
  }

  function FirstBase(bs: seq<Block>): nat { if bs == [] then 0 else bs[0].base }

  /** C's conversion of an `unsigned int` to `int`. */
  function AsInt(x: int): int {
    if x % 0x1_0000_0000 < 0x8000_0000 then x % 0x1_0000_0000 else x % 0x1_0000_0000 - 0x1_0000_0000
  }

  // ----- linking one header in, as all four placing cases of kmalloc do -----

  ghost function LinkMinors(minors: map<nat, Minor>, b: Block, k: nat, req: nat): map<nat, Minor>
    requires k <= |b.pieces| && HeadersOk(minors, b)
  {
    assert k > 0 ==> HeaderAt(minors, b, k - 1);
    assert k < |b.pieces| ==> HeaderAt(minors, b, k);
    var a := GapStart(b, k);
    var m0 := minors;
    var m1 := if k > 0 then m0[b.pieces[k - 1].addr := m0[b.pieces[k - 1].addr].(next := a)] else m0;
    var m2 := if k < |b.pieces| then m1[b.pieces[k].addr := m1[b.pieces[k].addr].(prev := a)] else m1;
    m2[a := MinorImage(InsertPiece(b, k, req), k)]
  }

  lemma BlockFrame(minors: map<nat, Minor>, info: map<nat, nat>, minors': map<nat, Minor>, info': map<nat, nat>, b: Block)
    requires BlockOk(minors, info, b)
    requires forall k :: 0 <= k < |b.pieces| ==> b.pieces[k].addr in minors && b.pieces[k].addr in minors'
    requires forall k :: 0 <= k < |b.pieces| ==>
               minors'[b.pieces[k].addr] == minors[b.pieces[k].addr] && InfoAt(info', b.pieces[k].addr)
    ensures BlockOk(minors', info', b)
  {
    forall k | 0 <= k < |b.pieces|
      ensures HeaderAt(minors', b, k)
    {
      assert HeaderAt(minors, b, k);
    }
  }

  /** A live allocation outside [lo, hi) is still known after the range is forgotten. */
  lemma ForgetFrame(minors: map<nat, Minor>, info: map<nat, nat>, b: Block, k: nat, lo: nat, hi: nat)
    requires WfBlock(b) && BlockOk(minors, info, b) && k < |b.pieces|
    requires Disjoint(b.pieces[k].addr, b.pieces[k].End(), lo, hi)
    ensures b.pieces[k].addr in ForgetMinors(minors, lo, hi)
    ensures ForgetMinors(minors, lo, hi)[b.pieces[k].addr] == minors[b.pieces[k].addr]
    ensures InfoAt(ForgetInfo(info, lo, hi), b.pieces[k].addr)
  {
    PayloadInside(b, k);
    assert HeaderAt(minors, b, k) && InfoAt(info, b.pieces[k].addr);
  }

  lemma HeadersDiffer(bs: seq<Block>, i: nat, k: nat, i': nat, k': nat)
    requires WfBlocks(bs) && i < |bs| && k < |bs[i].pieces| && i' < |bs| && k' < |bs[i'].pieces|
    requires (i, k) != (i', k')
    ensures bs[i].pieces[k].addr != bs[i'].pieces[k'].addr
  {
    AllocationsDisjoint(bs, i, k, i', k');
  }

  /** Handing a free range to a new owner leaves every live header and alignment byte in place. */
  lemma ForgetKeeps(minors: map<nat, Minor>, info: map<nat, nat>, bs: seq<Block>, lo: nat, hi: nat)
    requires WfBlocks(bs) && MinorsOk(minors, info, bs) && MagicOk(minors, bs)
    requires forall j, m :: 0 <= j < |bs| && 0 <= m < |bs[j].pieces| ==>
               Disjoint(bs[j].pieces[m].addr, bs[j].pieces[m].End(), lo, hi)
    ensures MinorsOk(ForgetMinors(minors, lo, hi), ForgetInfo(info, lo, hi), bs)
    ensures MagicOk(ForgetMinors(minors, lo, hi), bs)
  {
    forall j | 0 <= j < |bs|
      ensures BlockOk(ForgetMinors(minors, lo, hi), ForgetInfo(info, lo, hi), bs[j])
    {
      assert WfBlock(bs[j]) && BlockOk(minors, info, bs[j]);
      forall m | 0 <= m < |bs[j].pieces|
        ensures bs[j].pieces[m].addr in ForgetMinors(minors, lo, hi)
        ensures ForgetMinors(minors, lo, hi)[bs[j].pieces[m].addr] == minors[bs[j].pieces[m].addr]
        ensures InfoAt(ForgetInfo(info, lo, hi), bs[j].pieces[m].addr)
      {
        ForgetFrame(minors, info, bs[j], m, lo, hi);
      }
      BlockFrame(minors, info, ForgetMinors(minors, lo, hi), ForgetInfo(info, lo, hi), bs[j]);
    }
  }

  function AlignInfo(info: map<nat, nat>, a: nat): map<nat, nat> {
    info[Payload(a) - ALIGN_INFO := Payload(a) - a - MINOR_SIZE]
  }

  lemma LinkOther(minors: map<nat, Minor>, info: map<nat, nat>, bs: seq<Block>, i: nat, k: nat, req: nat, j: nat)
    requires Room(bs, i, k, req) && BlockOk(minors, info, bs[i]) && j < |bs| && j != i && BlockOk(minors, info, bs[j])
    ensures BlockOk(LinkMinors(minors, bs[i], k, req), AlignInfo(info, GapStart(bs[i], k)), bs[j])
  {
    forall m | 0 <= m < |bs[j].pieces|
      ensures HeaderAt(LinkMinors(minors, bs[i], k, req), bs[j], m)
      ensures InfoAt(AlignInfo(info, GapStart(bs[i], k)), bs[j].pieces[m].addr)
    {
      assert WfBlock(bs[j]);
      hide WfBlocks, WfBlock, LinkMinors, HeadersOk, InfosOk;
      GapIsFree(bs, i, k, req, j, m);
      PayloadInside(bs[j], m);
      LinkOtherInfo(info, bs[j], m, GapStart(bs[i], k), req);
      if k > 0 { HeadersDiffer(bs, i, k - 1, j, m); }
      if k < |bs[i].pieces| { HeadersDiffer(bs, i, k, j, m); }
      LinkOtherHeader(minors, bs[i], k, req, bs[j], m);
    }
  }

  lemma LinkOtherInfo(info: map<nat, nat>, c: Block, m: nat, a: nat, req: nat)
    requires InfosOk(info, c) && m < |c.pieces| && c.pieces[m].size >= 32
    requires Disjoint(c.pieces[m].addr, c.pieces[m].End(), a, a + Need(req))
    ensures InfoAt(AlignInfo(info, a), c.pieces[m].addr)
  {
    assert InfoAt(info, c.pieces[m].addr);
  }

  lemma LinkOtherHeader(minors: map<nat, Minor>, b: Block, k: nat, req: nat, c: Block, m: nat)
    requires k <= |b.pieces| && HeadersOk(minors, b) && HeadersOk(minors, c) && m < |c.pieces|
    requires c.pieces[m].addr != GapStart(b, k)
    requires k > 0 ==> b.pieces[k - 1].addr != c.pieces[m].addr
    requires k < |b.pieces| ==> b.pieces[k].addr != c.pieces[m].addr
    ensures HeaderAt(LinkMinors(minors, b, k, req), c, m)
  {
    hide MinorImage;
    assert HeaderAt(minors, c, m);
  }

  ghost predicate Ordered(b: Block) {
    forall j, k :: 0 <= j < k < |b.pieces| ==> b.pieces[j].addr < b.pieces[k].addr
  }

  lemma WfIsOrdered(b: Block)
    requires WfBlock(b)
    ensures Ordered(b)
  {
  }

  lemma LinkHeaderBefore(minors: map<nat, Minor>, b: Block, k: nat, req: nat, m: nat)
    requires m < k <= |b.pieces| && HeadersOk(minors, b) && Ordered(InsertPiece(b, k, req))
    ensures b.pieces[m].addr in LinkMinors(minors, b, k, req)
    ensures LinkMinors(minors, b, k, req)[b.pieces[m].addr] == MinorImage(InsertPiece(b, k, req), m)
  {
    var c := InsertPiece(b, k, req);
    assert HeaderAt(minors, b, m) && HeaderAt(minors, b, k - 1);
    assert c.pieces[m] == b.pieces[m] && c.pieces[k].addr == GapStart(b, k) && c.pieces[k - 1] == b.pieces[k - 1];
    if k < |b.pieces| { assert c.pieces[k + 1] == b.pieces[k]; }
    if m + 1 < k { assert c.pieces[m + 1] == b.pieces[m + 1]; }
    if m > 0 { assert c.pieces[m - 1] == b.pieces[m - 1]; }
  }

  lemma LinkHeaderAfter(minors: map<nat, Minor>, b: Block, k: nat, req: nat, m: nat)
    requires k <= m < |b.pieces| && HeadersOk(minors, b) && Ordered(InsertPiece(b, k, req))
    ensures b.pieces[m].addr in LinkMinors(minors, b, k, req)
    ensures LinkMinors(minors, b, k, req)[b.pieces[m].addr] == MinorImage(InsertPiece(b, k, req), m + 1)
  {
    var c := InsertPiece(b, k, req);
    assert HeaderAt(minors, b, m) && HeaderAt(minors, b, k);
    assert c.pieces[m + 1] == b.pieces[m] && c.pieces[k].addr == GapStart(b, k) && c.pieces[k + 1] == b.pieces[k];
    if k > 0 { assert c.pieces[k - 1] == b.pieces[k - 1]; }
    if m > k { assert c.pieces[m] == b.pieces[m - 1]; }
    if m + 1 < |b.pieces| { assert c.pieces[m + 2] == b.pieces[m + 1]; }
  }

  lemma LinkHeaders(minors: map<nat, Minor>, b: Block, k: nat, req: nat)
    requires k <= |b.pieces| && Ordered(InsertPiece(b, k, req)) && HeadersOk(minors, b)
    ensures HeadersOk(LinkMinors(minors, b, k, req), InsertPiece(b, k, req))
  {
    var c := InsertPiece(b, k, req);
    forall m | 0 <= m < |c.pieces|
      ensures HeaderAt(LinkMinors(minors, b, k, req), c, m)
    {
      if m < k {
        assert c.pieces[m] == b.pieces[m];
        LinkHeaderBefore(minors, b, k, req, m);
      } else if m > k {
        assert c.pieces[m] == b.pieces[m - 1];
        LinkHeaderAfter(minors, b, k, req, m - 1);
      }
    }
  }

  lemma LinkInfos(info: map<nat, nat>, bs: seq<Block>, i: nat, k: nat, req: nat)
    requires Room(bs, i, k, req) && InfosOk(info, bs[i])
    ensures InfosOk(AlignInfo(info, GapStart(bs[i], k)), InsertPiece(bs[i], k, req))
  {
    var a := GapStart(bs[i], k);
    var c := InsertPiece(bs[i], k, req);
    forall m | 0 <= m < |c.pieces|
      ensures InfoAt(AlignInfo(info, a), c.pieces[m].addr)
    {
      if m != k {
        var m' := if m < k then m else m - 1;
        assert c.pieces[m] == bs[i].pieces[m'];
        assert InfoAt(info, bs[i].pieces[m'].addr);
        GapIsFree(bs, i, k, req, i, m');
        PayloadInside(bs[i], m');
      }
    }
  }

  lemma LinkMagic(minors: map<nat, Minor>, bs: seq<Block>, i: nat, k: nat, req: nat)
    requires i < |bs| && k <= |bs[i].pieces| && MagicOk(minors, bs) && HeadersOk(minors, bs[i])
    ensures MagicOk(LinkMinors(minors, bs[i], k, req), bs[i := InsertPiece(bs[i], k, req)])
  {
    var bs' := bs[i := InsertPiece(bs[i], k, req)];
    var minors' := LinkMinors(minors, bs[i], k, req);
    assert k > 0 ==> HeaderAt(minors, bs[i], k - 1);
    assert k < |bs[i].pieces| ==> HeaderAt(minors, bs[i], k);
    forall a | a in minors' && minors'[a].magic == MAGIC
      ensures exists j: nat, m: nat :: IsHeader(bs', a, j, m)
    {
      if a == GapStart(bs[i], k) {
        assert IsHeader(bs', a, i, k);
      } else {
        var j: nat, m: nat :| IsHeader(bs, a, j, m);
        assert IsHeader(bs', a, j, if j == i && m >= k then m + 1 else m);
      }
    }
  }

  /** The linking shared by cases 2, 3, 4.1 and 4.2 turns the image of the old heap into that of the new one. */
  lemma LinkKeeps(minors: map<nat, Minor>, info: map<nat, nat>, bs: seq<Block>, i: nat, k: nat, req: nat)
    requires Room(bs, i, k, req) && MinorsOk(minors, info, bs) && MagicOk(minors, bs)
    ensures HeadersOk(minors, bs[i])
    ensures var bs' := bs[i := InsertPiece(bs[i], k, req)];
            var minors' := LinkMinors(minors, bs[i], k, req);
            && MinorsOk(minors', AlignInfo(info, GapStart(bs[i], k)), bs')
            && MagicOk(minors', bs')
  {
    var c := InsertPiece(bs[i], k, req);
    assert BlockOk(minors, info, bs[i]);
    assert Ordered(c) by { InsertKeepsWf(bs[i], k, req); WfIsOrdered(c); }
    LinkHeaders(minors, bs[i], k, req);
    LinkInfos(info, bs, i, k, req);
    LinkMagic(minors, bs, i, k, req);
    var bs' := bs[i := c];
    forall j | 0 <= j < |bs'|
      ensures BlockOk(LinkMinors(minors, bs[i], k, req), AlignInfo(info, GapStart(bs[i], k)), bs'[j])
    {
      if j != i { assert BlockOk(minors, info, bs[j]); LinkOther(minors, info, bs, i, k, req, j); }
    }
  }

  // ----- unlinking one header, as kfree does -----

  ghost function UnlinkMinors(minors: map<nat, Minor>, b: Block, k: nat): map<nat, Minor>
    requires k < |b.pieces| && HeadersOk(minors, b)
  {
    assert HeaderAt(minors, b, k);
    assert k > 0 ==> HeaderAt(minors, b, k - 1);
    assert k + 1 < |b.pieces| ==> HeaderAt(minors, b, k + 1);
    var a := b.pieces[k].addr;
    var m0 := minors[a := minors[a].(magic := DEAD)];
    var m1 := if k + 1 < |b.pieces| then m0[b.pieces[k + 1].addr := m0[b.pieces[k + 1].addr].(prev := minors[a].prev)] else m0;
    if k > 0 then m1[b.pieces[k - 1].addr := m1[b.pieces[k - 1].addr].(next := minors[a].next)] else m1
  }

  lemma UnlinkOther(minors: map<nat, Minor>, b: Block, k: nat, c: Block)
    requires k < |b.pieces| && HeadersOk(minors, b) && HeadersOk(minors, c)
    requires forall m, n :: 0 <= m < |b.pieces| && 0 <= n < |c.pieces| ==> b.pieces[m].addr != c.pieces[n].addr
    ensures HeadersOk(UnlinkMinors(minors, b, k), c)
  {
    forall n | 0 <= n < |c.pieces|
      ensures HeaderAt(UnlinkMinors(minors, b, k), c, n)
    {
      assert HeaderAt(minors, c, n);
    }
  }

  lemma UnlinkBefore(minors: map<nat, Minor>, b: Block, k: nat, m: nat)
    requires m < k < |b.pieces| && Ordered(b) && HeadersOk(minors, b)
    ensures HeaderAt(UnlinkMinors(minors, b, k), RemovePiece(b, k), m)
  {
    var c := RemovePiece(b, k);
    assert HeaderAt(minors, b, k) && HeaderAt(minors, b, m);
    assert c.pieces[m] == b.pieces[m];
    if m > 0 { assert c.pieces[m - 1] == b.pieces[m - 1]; }
    if m + 1 < |c.pieces| { assert c.pieces[m + 1] == b.pieces[if m + 1 == k then m + 2 else m + 1]; }
  }

  lemma UnlinkAfter(minors: map<nat, Minor>, b: Block, k: nat, m: nat)
    requires k <= m && m + 1 < |b.pieces| && Ordered(b) && HeadersOk(minors, b)
    ensures HeaderAt(UnlinkMinors(minors, b, k), RemovePiece(b, k), m)
  {
    var c := RemovePiece(b, k);
    assert HeaderAt(minors, b, k) && HeaderAt(minors, b, m + 1);
    assert c.pieces[m] == b.pieces[m + 1];
    if m > 0 { assert c.pieces[m - 1] == b.pieces[if m == k then m - 1 else m]; }
    if m + 1 < |c.pieces| { assert c.pieces[m + 1] == b.pieces[m + 2]; }
  }

  lemma UnlinkSame(minors: map<nat, Minor>, b: Block, k: nat)
    requires k < |b.pieces| && Ordered(b) && HeadersOk(minors, b)
    ensures HeadersOk(UnlinkMinors(minors, b, k), RemovePiece(b, k))
  {
    hide UnlinkMinors;
    forall m | 0 <= m < |RemovePiece(b, k).pieces|
      ensures HeaderAt(UnlinkMinors(minors, b, k), RemovePiece(b, k), m)
    {
      if m < k { UnlinkBefore(minors, b, k, m); } else { UnlinkAfter(minors, b, k, m); }
    }
  }

  lemma UnlinkMagic(minors: map<nat, Minor>, bs: seq<Block>, i: nat, k: nat)
    requires i < |bs| && k < |bs[i].pieces| && MagicOk(minors, bs)
    requires HeadersOk(minors, bs[i])
    requires forall m :: 0 <= m < |bs[i].pieces| && m != k ==> bs[i].pieces[m].addr != bs[i].pieces[k].addr
    ensures MagicOk(UnlinkMinors(minors, bs[i], k), bs[i := RemovePiece(bs[i], k)])
  {
    var b := bs[i];
    var bs' := bs[i := RemovePiece(b, k)];
    var minors' := UnlinkMinors(minors, b, k);
    assert HeaderAt(minors, b, k);
    assert k > 0 ==> HeaderAt(minors, b, k - 1);
    assert k + 1 < |b.pieces| ==> HeaderAt(minors, b, k + 1);
    forall a | a in minors' && minors'[a].magic == MAGIC
      ensures exists j: nat, m: nat :: IsHeader(bs', a, j, m)
    {
      assert a in minors && minors[a].magic == MAGIC && a != b.pieces[k].addr;
      var j: nat, m: nat :| IsHeader(bs, a, j, m);
      if j == i {
        var m' := if m > k then m - 1 else m;
        assert bs'[i].pieces[m'] == b.pieces[m];
        assert IsHeader(bs', a, i, m');
      } else {
        assert IsHeader(bs', a, j, m);
      }
    }
  }

  lemma UnlinkInfos(info: map<nat, nat>, b: Block, k: nat)
    requires k < |b.pieces| && InfosOk(info, b)
    ensures InfosOk(info, RemovePiece(b, k))
  {
    var c := RemovePiece(b, k);
    assert forall m :: 0 <= m < |c.pieces| ==> c.pieces[m] == b.pieces[if m < k then m else m + 1];
  }

  lemma UnlinkKeeps(minors: map<nat, Minor>, info: map<nat, nat>, bs: seq<Block>, i: nat, k: nat)
    requires WfBlocks(bs) && MinorsOk(minors, info, bs) && MagicOk(minors, bs) && i < |bs| && k < |bs[i].pieces|
    ensures HeadersOk(minors, bs[i])
    ensures MinorsOk(UnlinkMinors(minors, bs[i], k), info, bs[i := RemovePiece(bs[i], k)])
    ensures MagicOk(UnlinkMinors(minors, bs[i], k), bs[i := RemovePiece(bs[i], k)])
  {
    var b := bs[i];
    assert BlockOk(minors, info, b);
    WfIsOrdered(b);
    UnlinkSame(minors, b, k);
    UnlinkInfos(info, b, k);
    UnlinkMagic(minors, bs, i, k);
    var bs' := bs[i := RemovePiece(b, k)];
    forall j | 0 <= j < |bs'|
      ensures BlockOk(UnlinkMinors(minors, b, k), info, bs'[j])
    {
      if j != i {
        assert BlockOk(minors, info, bs[j]);
        BlocksShareNoHeader(bs, i, j);
        UnlinkOther(minors, b, k, bs[j]);
      }
    }
  }

  lemma BlocksShareNoHeader(bs: seq<Block>, i: nat, j: nat)
    requires WfBlocks(bs) && i < |bs| && j < |bs| && i != j
    ensures forall m, n :: 0 <= m < |bs[i].pieces| && 0 <= n < |bs[j].pieces| ==> bs[i].pieces[m].addr != bs[j].pieces[n].addr
  {
    forall m, n | 0 <= m < |bs[i].pieces| && 0 <= n < |bs[j].pieces|
      ensures bs[i].pieces[m].addr != bs[j].pieces[n].addr
    {
      HeadersDiffer(bs, i, m, j, n);
    }
  }

  // ----- the list of majors -----

  ghost predicate DistinctBases(bs: seq<Block>) {
    forall i, j :: 0 <= i < j < |bs| ==> bs[i].base != bs[j].base
  }

  lemma WfIsDistinct(bs: seq<Block>)
    requires WfBlocks(bs)
    ensures DistinctBases(bs)
  {
    forall i, j | 0 <= i < j < |bs|
      ensures bs[i].base != bs[j].base
    {
      assert Apart(bs[i], bs[j]) && WfBlock(bs[i]) && WfBlock(bs[j]);
    }
  }

  /** An image depends on the block and the bases of its neighbours only. */
  lemma ImageFrame(bs: seq<Block>, i: nat, bs': seq<Block>, i': nat)
    requires i < |bs| && i' < |bs'| && bs[i] == bs'[i']
    requires (i == 0) == (i' == 0) && (i + 1 == |bs|) == (i' + 1 == |bs'|)
    requires i > 0 ==> bs[i - 1].base == bs'[i' - 1].base
    requires i + 1 < |bs| ==> bs[i + 1].base == bs'[i' + 1].base
    ensures MajorImage(bs, i) == MajorImage(bs', i')
  {
  }

  lemma MajorsReplace(majors: map<nat, Major>, bs: seq<Block>, i: nat, b: Block)
    requires DistinctBases(bs) && MajorsOk(majors, bs) && i < |bs| && b.base == bs[i].base
    ensures MajorsOk(majors[b.base := MajorImage(bs[i := b], i)], bs[i := b])
  {
    var bs' := bs[i := b];
    var image := MajorImage(bs', i);
    var majors' := majors[b.base := image];
    forall j | 0 <= j < |bs'|
      ensures MajorAt(majors', bs', j)
    {
      if j != i {
        assert MajorAt(majors, bs, j);
        ImageFrame(bs, j, bs', j);
      }
    }
  }

  /** Adding a block at the end of the list: the old last block points to it and it points back. */
  lemma MajorsAppend(majors: map<nat, Major>, bs: seq<Block>, b: Block)
    requires DistinctBases(bs + [b]) && bs != [] && MajorsOk(majors, bs)
    ensures bs[|bs| - 1].base in majors
    ensures MajorsOk(majors[b.base := MajorImage(bs + [b], |bs|)]
                           [bs[|bs| - 1].base := majors[bs[|bs| - 1].base].(next := b.base)], bs + [b])
  {
    var bs' := bs + [b];
    var n := |bs|;
    assert MajorAt(majors, bs, n - 1);
    var majors' := majors[b.base := MajorImage(bs', n)][bs[n - 1].base := majors[bs[n - 1].base].(next := b.base)];
    forall j | 0 <= j < |bs'|
      ensures MajorAt(majors', bs', j)
    {
      if j < n {
        assert MajorAt(majors, bs, j);
      }
    }
  }

  ghost function UnlinkMajor(majors: map<nat, Major>, bs: seq<Block>, i: nat): map<nat, Major>
    requires i < |bs|
    requires MajorsOk(majors, bs)
  {
    assert MajorAt(majors, bs, i);
    assert i > 0 ==> MajorAt(majors, bs, i - 1);
    assert i + 1 < |bs| ==> MajorAt(majors, bs, i + 1);
    var m0 := majors;
    var m1 := if i > 0 then m0[bs[i - 1].base := m0[bs[i - 1].base].(next := m0[bs[i].base].next)] else m0;
    var m2 := if i + 1 < |bs| then m1[bs[i + 1].base := m1[bs[i + 1].base].(prev := m0[bs[i].base].prev)] else m1;
    m2 - {bs[i].base}
  }

  lemma MajorsDrop(majors: map<nat, Major>, bs: seq<Block>, i: nat)
    requires DistinctBases(bs) && MajorsOk(majors, bs) && i < |bs|
    ensures MajorsOk(UnlinkMajor(majors, bs, i), bs[..i] + bs[i + 1..])
  {
    var bs' := bs[..i] + bs[i + 1..];
    var majors' := UnlinkMajor(majors, bs, i);
    assert MajorAt(majors, bs, i);
    forall j | 0 <= j < |bs'|
      ensures MajorAt(majors', bs', j)
    {
      var j' := if j < i then j else j + 1;
      assert bs'[j] == bs[j'] && MajorAt(majors, bs, j');
      if j > 0 { assert bs'[j - 1] == bs[if j - 1 < i then j - 1 else j]; }
      if j + 1 < |bs'| { assert bs'[j + 1] == bs[if j + 1 < i then j + 1 else j + 2]; }
    }
  }

  lemma DropMagic(minors: map<nat, Minor>, bs: seq<Block>, i: nat)
    requires MagicOk(minors, bs) && i < |bs| && bs[i].pieces == []
    ensures MagicOk(minors, bs[..i] + bs[i + 1..])
  {
    var bs' := bs[..i] + bs[i + 1..];
    forall a | a in minors && minors[a].magic == MAGIC
      ensures exists j: nat, m: nat :: IsHeader(bs', a, j, m)
    {
      var j: nat, m: nat :| IsHeader(bs, a, j, m);
      var j' := if j < i then j else j - 1;
      assert bs'[j'] == bs[j];
      assert IsHeader(bs', a, j', m);
    }
  }

  /** Dropping a whole block forgets its bytes and nothing else. */
  lemma DropKeeps(minors: map<nat, Minor>, info: map<nat, nat>, bs: seq<Block>, i: nat)
    requires WfBlocks(bs) && MinorsOk(minors, info, bs) && MagicOk(minors, bs) && i < |bs| && bs[i].pieces == []
    ensures MinorsOk(ForgetMinors(minors, bs[i].base, bs[i].Limit()), ForgetInfo(info, bs[i].base, bs[i].Limit()),
                     bs[..i] + bs[i + 1..])
    ensures MagicOk(ForgetMinors(minors, bs[i].base, bs[i].Limit()), bs[..i] + bs[i + 1..])
  {
    var bs' := bs[..i] + bs[i + 1..];
    assert forall j :: 0 <= j < |bs'| ==> bs'[j] == bs[if j < i then j else j + 1];
    DropMagic(minors, bs, i);
    DropKeepsWf(bs, i);
    forall j, m | 0 <= j < |bs'| && 0 <= m < |bs'[j].pieces|
      ensures Disjoint(bs'[j].pieces[m].addr, bs'[j].pieces[m].End(), bs[i].base, bs[i].Limit())
    {
      assert WfBlock(bs'[j]);
      if j < i { assert Apart(bs[j], bs[i]); } else { assert Apart(bs[i], bs[j + 1]); }
    }
    ForgetKeeps(minors, info, bs', bs[i].base, bs[i].Limit());
  }

  // ----- whole-memory steps -----

  /** Memory holds exactly the heap `bs`. */
  ghost predicate Stored(majors: map<nat, Major>, minors: map<nat, Minor>, info: map<nat, nat>, bs: seq<Block>) {
    WfBlocks(bs) && MajorsOk(majors, bs) && MinorsOk(minors, info, bs) && MagicOk(minors, bs)
  }

  ghost predicate IsBase(bs: seq<Block>, a: nat, i: nat) { i < |bs| && bs[i].base == a }

  /** The owner of [a, a + Need) changes hands: nothing live is lost. */
  lemma ForgetGap(majors: map<nat, Major>, minors: map<nat, Minor>, info: map<nat, nat>, bs: seq<Block>, i: nat, k: nat, req: nat)
    requires Stored(majors, minors, info, bs) && Room(bs, i, k, req)
    ensures var a := GapStart(bs[i], k);
            Stored(majors, ForgetMinors(minors, a, a + Need(req)), ForgetInfo(info, a, a + Need(req)), bs)
  {
    hide WfBlocks, WfBlock, MajorsOk, MinorsOk, MagicOk, ForgetMinors, ForgetInfo;
    var a := GapStart(bs[i], k);
    forall j, m | 0 <= j < |bs| && 0 <= m < |bs[j].pieces|
      ensures Disjoint(bs[j].pieces[m].addr, bs[j].pieces[m].End(), a, a + Need(req))
    {
      GapIsFree(bs, i, k, req, j, m);
    }
    ForgetKeeps(minors, info, bs, a, a + Need(req));
  }

  /** One placement, all of memory. */
  lemma PlaceKeeps(majors: map<nat, Major>, minors: map<nat, Minor>, info: map<nat, nat>, bs: seq<Block>, i: nat, k: nat, req: nat)
    requires Stored(majors, minors, info, bs) && Room(bs, i, k, req)
    ensures HeadersOk(minors, bs[i])
    ensures var bs' := bs[i := InsertPiece(bs[i], k, req)];
            && Stored(majors[bs[i].base := MajorImage(bs', i)], LinkMinors(minors, bs[i], k, req),
                      AlignInfo(info, GapStart(bs[i], k)), bs')
            && InUse(bs') == InUse(bs) + Padded(req)
            && Allocated(bs') == Allocated(bs)
            && Usage(bs'[i]) == Usage(bs[i]) + Need(req)
  {
    var c := InsertPiece(bs[i], k, req);
    LinkKeeps(minors, info, bs, i, k, req);
    WfIsDistinct(bs);
    MajorsReplace(majors, bs, i, c);
    InsertKeepsWf(bs[i], k, req);
    ReplaceKeepsWf(bs, i, c);
    TotalsReplace(bs, i, c);
    SumInsert(bs[i].pieces, k, Piece(GapStart(bs[i], k), Padded(req), req));
  }

  /** One removal that leaves the block in use, all of memory. */
  lemma RemoveKeeps(majors: map<nat, Major>, minors: map<nat, Minor>, info: map<nat, nat>, bs: seq<Block>, i: nat, k: nat)
    requires Stored(majors, minors, info, bs) && i < |bs| && k < |bs[i].pieces|
    ensures HeadersOk(minors, bs[i])
    ensures var bs' := bs[i := RemovePiece(bs[i], k)];
            && Stored(majors[bs[i].base := MajorImage(bs', i)], UnlinkMinors(minors, bs[i], k), info, bs')
            && InUse(bs') == InUse(bs) - bs[i].pieces[k].size
            && Allocated(bs') == Allocated(bs)
            && Usage(bs'[i]) == Usage(bs[i]) - MINOR_SIZE - bs[i].pieces[k].size
  {
    var c := RemovePiece(bs[i], k);
    UnlinkKeeps(minors, info, bs, i, k);
    WfIsDistinct(bs);
    MajorsReplace(majors, bs, i, c);
    RemoveKeepsWf(bs[i], k);
    ReplaceKeepsWf(bs, i, c);
    TotalsReplace(bs, i, c);
    InsertRemove(bs[i], k);
    SumInsert(c.pieces, k, bs[i].pieces[k]);
  }

  /** Releasing an empty block, all of memory. */
  lemma ReleaseKeeps(majors: map<nat, Major>, minors: map<nat, Minor>, info: map<nat, nat>, bs: seq<Block>, i: nat)
    requires Stored(majors, minors, info, bs) && i < |bs| && bs[i].pieces == []
    ensures var bs' := bs[..i] + bs[i + 1..];
            && Stored(UnlinkMajor(majors, bs, i), ForgetMinors(minors, bs[i].base, bs[i].Limit()),
                      ForgetInfo(info, bs[i].base, bs[i].Limit()), bs')
            && InUse(bs') == InUse(bs)
            && Allocated(bs') == Allocated(bs) - bs[i].pages * 4096
  {
    WfIsDistinct(bs);
    MajorsDrop(majors, bs, i);
    DropKeeps(minors, info, bs, i);
    DropKeepsWf(bs, i);
    TotalsDrop(bs, i);
  }

  /** Linking a fresh, empty block behind the last one, all of memory. */
  lemma AppendKeeps(majors: map<nat, Major>, minors: map<nat, Minor>, info: map<nat, nat>, bs: seq<Block>, b: Block)
    requires Stored(majors, minors, info, bs) && bs != [] && WfBlock(b) && b.pieces == []
    requires FreshRun(bs, b.base, b.pages)
    ensures bs[|bs| - 1].base in majors
    ensures Stored(majors[b.base := MajorImage(bs + [b], |bs|)]
                         [bs[|bs| - 1].base := majors[bs[|bs| - 1].base].(next := b.base)], minors, info, bs + [b])
    ensures InUse(bs + [b]) == InUse(bs)
    ensures Allocated(bs + [b]) == Allocated(bs) + b.pages * 4096
  {
    AppendWf(bs, b);
    WfIsDistinct(bs + [b]);
    MajorsAppend(majors, bs, b);
    TotalsAppend(bs, b);
    AppendMinors(minors, info, bs, b);
  }

  lemma AppendWf(bs: seq<Block>, b: Block)
    requires WfBlocks(bs) && WfBlock(b) && FreshRun(bs, b.base, b.pages)
    ensures WfBlocks(bs + [b])
  {
    var bs' := bs + [b];
    forall i, j | 0 <= i < j < |bs'|
      ensures Apart(bs'[i], bs'[j])
    {
      if j == |bs| { assert Apart(bs[i], Block(b.base, b.pages, [])); }
    }
  }

  lemma AppendMinors(minors: map<nat, Minor>, info: map<nat, nat>, bs: seq<Block>, b: Block)
    requires MinorsOk(minors, info, bs) && MagicOk(minors, bs) && b.pieces == []
    ensures MinorsOk(minors, info, bs + [b]) && MagicOk(minors, bs + [b])
  {
    forall a | a in minors && minors[a].magic == MAGIC
      ensures exists j: nat, m: nat :: IsHeader(bs + [b], a, j, m)
    {
      var j: nat, m: nat :| IsHeader(bs, a, j, m);
      assert IsHeader(bs + [b], a, j, m);
    }
  }

  // ----- one placement, in the terms the code uses -----

  function PrevAddr(b: Block, k: nat): nat
    requires k <= |b.pieces|
  {
    if k == 0 then 0 else b.pieces[k - 1].addr
  }

  function NextAddr(b: Block, k: nat): nat
    requires k <= |b.pieces|
  {
    if k == |b.pieces| then 0 else b.pieces[k].addr
  }

  /** Write header `m` at `a` and make its neighbours point to it. */
  function LinkIn(minors: map<nat, Minor>, a: nat, m: Minor): map<nat, Minor>
    requires m.prev != 0 ==> m.prev in ForgetMinors(minors, a, a + MINOR_SIZE + m.size)
    requires m.next != 0 ==> m.next in ForgetMinors(minors, a, a + MINOR_SIZE + m.size)
  {
    var m0 := ForgetMinors(minors, a, a + MINOR_SIZE + m.size)[a := m];
    var m1 := if m.next != 0 then m0[m.next := m0[m.next].(prev := a)] else m0;
    if m.prev != 0 then m1[m.prev := m1[m.prev].(next := a)] else m1
  }

  lemma NeighboursAround(b: Block, k: nat, req: nat)
    requires WfBlock(b) && k <= |b.pieces| && Gap(b, k) >= Need(req)
    ensures k > 0 ==> 0 < b.pieces[k - 1].addr < GapStart(b, k)
    ensures k < |b.pieces| ==> GapStart(b, k) < b.pieces[k].addr
  {
  }

  function PlacedMajors(majors: map<nat, Major>, maj: nat, a: nat, atFront: bool, need: nat): map<nat, Major>
    requires maj in majors
  {
    majors[maj := majors[maj].(usage := majors[maj].usage + need, first := if atFront then a else majors[maj].first)]
  }

  function NewHeader(b: Block, k: nat, req: nat): Minor
    requires k <= |b.pieces|
  {
    Minor(PrevAddr(b, k), NextAddr(b, k), b.base, MAGIC, Padded(req), req)
  }

  /** What is known of the bytes around gap `k` once the gap itself is handed over. */
  ghost predicate AroundGap(minors: map<nat, Minor>, b: Block, k: nat, req: nat)
    requires k <= |b.pieces|
  {
    var m0 := ForgetMinors(minors, GapStart(b, k), GapStart(b, k) + Need(req));
    && HeadersOk(m0, b)
    && (k > 0 ==> 0 < PrevAddr(b, k) < GapStart(b, k) && PrevAddr(b, k) in m0)
    && (k < |b.pieces| ==> GapStart(b, k) < NextAddr(b, k) && NextAddr(b, k) in m0)
  }

  lemma StoredAt(majors: map<nat, Major>, minors: map<nat, Minor>, info: map<nat, nat>, bs: seq<Block>, i: nat)
    requires Stored(majors, minors, info, bs) && i < |bs|
    ensures WfBlock(bs[i])
  {
  }

  lemma NeighboursKnown(majors: map<nat, Major>, minors: map<nat, Minor>, info: map<nat, nat>, bs: seq<Block>, i: nat, k: nat, req: nat)
    requires Stored(majors, minors, info, bs) && Room(bs, i, k, req)
    ensures AroundGap(minors, bs[i], k, req)
  {
    hide Stored, WfBlocks, WfBlock, HeadersOk, ForgetMinors, ForgetInfo, AroundGap, InfosOk, Ordered;
    StoredAt(majors, minors, info, bs, i);
    var a := GapStart(bs[i], k);
    NeighboursAround(bs[i], k, req);
    ForgetGap(majors, minors, info, bs, i, k, req);
    StoredHeaders(majors, ForgetMinors(minors, a, a + Need(req)), ForgetInfo(info, a, a + Need(req)), bs, i);
    HeadersAround(minors, bs[i], k, req);
  }

  lemma HeadersAround(minors: map<nat, Minor>, b: Block, k: nat, req: nat)
    requires k <= |b.pieces|
    requires k > 0 ==> 0 < b.pieces[k - 1].addr < GapStart(b, k)
    requires k < |b.pieces| ==> GapStart(b, k) < b.pieces[k].addr
    requires HeadersOk(ForgetMinors(minors, GapStart(b, k), GapStart(b, k) + Need(req)), b)
    ensures AroundGap(minors, b, k, req)
  {
    hide ForgetMinors, MinorImage;
    var m0 := ForgetMinors(minors, GapStart(b, k), GapStart(b, k) + Need(req));
    assert k > 0 ==> HeaderAt(m0, b, k - 1);
    assert k < |b.pieces| ==> HeaderAt(m0, b, k);
  }

  lemma WfAt(bs: seq<Block>, i: nat)
    requires WfBlocks(bs) && i < |bs|
    ensures WfBlock(bs[i])
  {
  }

  lemma LinkInIsLink(minors: map<nat, Minor>, b: Block, k: nat, req: nat)
    requires k <= |b.pieces| && AroundGap(minors, b, k, req)
    ensures LinkIn(minors, GapStart(b, k), NewHeader(b, k, req)) ==
            LinkMinors(ForgetMinors(minors, GapStart(b, k), GapStart(b, k) + Need(req)), b, k, req)
  {
    hide ForgetMinors, HeadersOk;
    var c := InsertPiece(b, k, req);
    if k > 0 { assert c.pieces[k - 1] == b.pieces[k - 1]; }
    if k < |b.pieces| { assert c.pieces[k + 1] == b.pieces[k]; }
  }

  lemma StoredHeaders(majors: map<nat, Major>, minors: map<nat, Minor>, info: map<nat, nat>, bs: seq<Block>, i: nat)
    requires Stored(majors, minors, info, bs) && i < |bs|
    ensures MajorAt(majors, bs, i) && HeadersOk(minors, bs[i]) && InfosOk(info, bs[i])
  {
    assert BlockOk(minors, info, bs[i]);
  }

  /** After the writes of a placing case, memory holds the heap with the request in gap `k` of block `i`. */
  lemma PlaceStored(majors: map<nat, Major>, minors: map<nat, Minor>, info: map<nat, nat>, bs: seq<Block>, i: nat, k: nat, req: nat)
    requires Stored(majors, minors, info, bs) && Room(bs, i, k, req) && bs[i].base in majors
    requires AroundGap(minors, bs[i], k, req)
    ensures Stored(PlacedMajors(majors, bs[i].base, GapStart(bs[i], k), PrevAddr(bs[i], k) == 0, Need(req)),
                   LinkIn(minors, GapStart(bs[i], k), NewHeader(bs[i], k, req)),
                   AlignInfo(ForgetInfo(info, GapStart(bs[i], k), GapStart(bs[i], k) + Need(req)), GapStart(bs[i], k)),
                   bs[i := InsertPiece(bs[i], k, req)])
    ensures InUse(bs[i := InsertPiece(bs[i], k, req)]) == InUse(bs) + Padded(req)
    ensures Allocated(bs[i := InsertPiece(bs[i], k, req)]) == Allocated(bs)
  {
    hide WfBlocks, MajorsOk, MinorsOk, MagicOk, HeadersOk, ForgetMinors, ForgetInfo, InUse, Allocated, SumPieces;
    hide LinkIn, LinkMinors;
    var a := GapStart(bs[i], k);
    StoredHeaders(majors, minors, info, bs, i);
    LinkInIsLink(minors, bs[i], k, req);
    ForgetGap(majors, minors, info, bs, i, k, req);
    PlaceKeeps(majors, ForgetMinors(minors, a, a + Need(req)), ForgetInfo(info, a, a + Need(req)), bs, i, k, req);
    ImageAfterInsert(bs, i, k, req);
  }

  lemma ImageAfterInsert(bs: seq<Block>, i: nat, k: nat, req: nat)
    requires i < |bs| && k <= |bs[i].pieces|
    requires Usage(InsertPiece(bs[i], k, req)) == Usage(bs[i]) + Need(req)
    ensures MajorImage(bs[i := InsertPiece(bs[i], k, req)], i) ==
            MajorImage(bs, i).(usage := MajorImage(bs, i).usage + Need(req),
                               first := if k == 0 then GapStart(bs[i], k) else MajorImage(bs, i).first)
  {
    var c := InsertPiece(bs[i], k, req);
    assert c.pieces[k].addr == GapStart(bs[i], k);
    if k > 0 { assert c.pieces[0] == bs[i].pieces[0]; }
  }

  // ----- one removal, in the terms the code uses -----

  /** Kill header `a` and make its neighbours point past it. */
  function LinkOut(minors: map<nat, Minor>, a: nat): map<nat, Minor>
    requires a in minors
    requires minors[a].next != 0 ==> minors[a].next in minors
    requires minors[a].prev != 0 ==> minors[a].prev in minors
  {
    var m := minors[a];
    var m0 := minors[a := m.(magic := DEAD)];
    var m1 := if m.next != 0 then m0[m.next := m0[m.next].(prev := m.prev)] else m0;
    if m.prev != 0 then m1[m.prev := m1[m.prev].(next := m.next)] else m1
  }

  function RemovedMajors(majors: map<nat, Major>, m: Minor): map<nat, Major>
    requires m.block in majors && majors[m.block].usage >= m.size + MINOR_SIZE
  {
    majors[m.block := majors[m.block].(usage := majors[m.block].usage - (m.size + MINOR_SIZE),
                                       first := if m.prev == 0 then m.next else majors[m.block].first)]
  }

  /** What a live header says, and that everything it points to is there. */
  ghost predicate LiveHeader(majors: map<nat, Major>, minors: map<nat, Minor>, bs: seq<Block>, i: nat, k: nat)
    requires i < |bs| && k < |bs[i].pieces|
  {
    var a := bs[i].pieces[k].addr;
    && a in minors && minors[a] == MinorImage(bs[i], k) && a > 0
    && (minors[a].next != 0 ==> minors[a].next in minors && minors[a].next != a)
    && (minors[a].prev != 0 ==> minors[a].prev in minors && minors[a].prev != a)
    && (minors[a].next != 0 <==> k + 1 < |bs[i].pieces|)
    && (minors[a].prev != 0 <==> k > 0)
    && MajorAt(majors, bs, i) && Usage(bs[i]) >= minors[a].size + MINOR_SIZE
  }

  lemma UsageCovers(b: Block, k: nat)
    requires k < |b.pieces|
    ensures Usage(b) >= b.pieces[k].size + MINOR_SIZE
  {
    InsertRemove(b, k);
    SumInsert(RemovePiece(b, k).pieces, k, b.pieces[k]);
  }

  lemma HeaderIsLive(majors: map<nat, Major>, minors: map<nat, Minor>, info: map<nat, nat>, bs: seq<Block>, i: nat, k: nat)
    requires Stored(majors, minors, info, bs) && i < |bs| && k < |bs[i].pieces|
    ensures LiveHeader(majors, minors, bs, i, k)
  {
    hide Stored, WfBlocks, MajorsOk, MinorsOk, MagicOk, SumPieces, MajorImage, Usage;
    StoredHeaders(majors, minors, info, bs, i);
    StoredAt(majors, minors, info, bs, i);
    assert HeaderAt(minors, bs[i], k);
    if k > 0 { assert HeaderAt(minors, bs[i], k - 1); }
    if k + 1 < |bs[i].pieces| { assert HeaderAt(minors, bs[i], k + 1); }
    UsageCovers(bs[i], k);
  }

  lemma ImageAfterRemove(bs: seq<Block>, i: nat, k: nat)
    requires i < |bs| && k < |bs[i].pieces|
    requires Usage(RemovePiece(bs[i], k)) == Usage(bs[i]) - MINOR_SIZE - bs[i].pieces[k].size
    ensures MajorImage(bs[i := RemovePiece(bs[i], k)], i) ==
            MajorImage(bs, i).(usage := Usage(bs[i]) - MINOR_SIZE - bs[i].pieces[k].size,
                               first := if k == 0 then MinorImage(bs[i], 0).next else MajorImage(bs, i).first)
  {
    var c := RemovePiece(bs[i], k);
    if k > 0 { assert c.pieces[0] == bs[i].pieces[0]; } else if |c.pieces| > 0 { assert c.pieces[0] == bs[i].pieces[1]; }
  }

  /** After the writes of kfree up to the block clean-up, memory holds the heap without the allocation. */
  lemma RemoveStored(majors: map<nat, Major>, minors: map<nat, Minor>, info: map<nat, nat>, bs: seq<Block>, i: nat, k: nat)
    requires Stored(majors, minors, info, bs) && i < |bs| && k < |bs[i].pieces| && LiveHeader(majors, minors, bs, i, k)
    ensures var a := bs[i].pieces[k].addr;
            Stored(RemovedMajors(majors, minors[a]), LinkOut(minors, a), info, bs[i := RemovePiece(bs[i], k)])
    ensures InUse(bs[i := RemovePiece(bs[i], k)]) == InUse(bs) - bs[i].pieces[k].size
    ensures Allocated(bs[i := RemovePiece(bs[i], k)]) == Allocated(bs)
  {
    hide WfBlocks, MajorsOk, MinorsOk, MagicOk, HeadersOk, InUse, Allocated, SumPieces;
    RemoveKeeps(majors, minors, info, bs, i, k);
    ImageAfterRemove(bs, i, k);
    LinkOutIsUnlink(majors, minors, bs, i, k);
  }

  lemma LinkOutIsUnlink(majors: map<nat, Major>, minors: map<nat, Minor>, bs: seq<Block>, i: nat, k: nat)
    requires i < |bs| && k < |bs[i].pieces| && LiveHeader(majors, minors, bs, i, k) && HeadersOk(minors, bs[i])
    ensures LinkOut(minors, bs[i].pieces[k].addr) == UnlinkMinors(minors, bs[i], k)
  {
    if k > 0 { assert HeaderAt(minors, bs[i], k - 1); }
    if k + 1 < |bs[i].pieces| { assert HeaderAt(minors, bs[i], k + 1); }
  }

  /** Take block header `a` out of the list of majors. */
  function DropMajor(majors: map<nat, Major>, a: nat): map<nat, Major>
    requires a in majors
    requires majors[a].prev != 0 ==> majors[a].prev in majors
    requires majors[a].next != 0 ==> majors[a].next in majors
  {
    var m := majors[a];
    var m1 := if m.prev != 0 then majors[m.prev := majors[m.prev].(next := m.next)] else majors;
    var m2 := if m.next != 0 then m1[m.next := m1[m.next].(prev := m.prev)] else m1;
    m2 - {a}
  }

  ghost predicate LiveMajor(majors: map<nat, Major>, bs: seq<Block>, i: nat)
    requires i < |bs|
  {
    && MajorAt(majors, bs, i)
    && (majors[bs[i].base].prev != 0 <==> i > 0)
    && (majors[bs[i].base].next != 0 <==> i + 1 < |bs|)
    && (i > 0 ==> MajorAt(majors, bs, i - 1) && bs[i - 1].base != bs[i].base)
    && (i + 1 < |bs| ==> MajorAt(majors, bs, i + 1) && bs[i + 1].base != bs[i].base)
  }

  lemma MajorIsLive(majors: map<nat, Major>, minors: map<nat, Minor>, info: map<nat, nat>, bs: seq<Block>, i: nat)
    requires Stored(majors, minors, info, bs) && i < |bs|
    ensures LiveMajor(majors, bs, i)
  {
    assert MajorAt(majors, bs, i);
    if i > 0 { assert MajorAt(majors, bs, i - 1) && Apart(bs[i - 1], bs[i]) && WfBlock(bs[i - 1]) && WfBlock(bs[i]); }
    if i + 1 < |bs| { assert MajorAt(majors, bs, i + 1) && Apart(bs[i], bs[i + 1]) && WfBlock(bs[i + 1]) && WfBlock(bs[i]); }
  }

  lemma ReleaseStored(majors: map<nat, Major>, minors: map<nat, Minor>, info: map<nat, nat>, bs: seq<Block>, i: nat)
    requires Stored(majors, minors, info, bs) && i < |bs| && bs[i].pieces == [] && LiveMajor(majors, bs, i)
    ensures var bs' := bs[..i] + bs[i + 1..];
            && Stored(DropMajor(majors, bs[i].base), ForgetMinors(minors, bs[i].base, bs[i].Limit()),
                      ForgetInfo(info, bs[i].base, bs[i].Limit()), bs')
            && InUse(bs') == InUse(bs)
            && Allocated(bs') == Allocated(bs) - bs[i].pages * 4096
            && FirstBase(bs') == if i == 0 then NextMajor(bs, i) else FirstBase(bs)
  {
    hide WfBlocks, MinorsOk, MagicOk, InUse, Allocated, SumPieces, ForgetMinors, ForgetInfo;
    ReleaseKeeps(majors, minors, info, bs, i);
    assert DropMajor(majors, bs[i].base) == UnlinkMajor(majors, bs, i);
  }

  function NextMajor(bs: seq<Block>, i: nat): nat
    requires i < |bs|
  {
    if i + 1 == |bs| then 0 else bs[i + 1].base
  }
}
