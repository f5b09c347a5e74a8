/** The four-level page tables built by bootloader/paging.c (section 5.3 of the AMD64 Architecture Programmer's
    Manual, Volume 2).  Physical memory is the table frames, keyed by frame number; a walk follows present entries. */
module PageTables {
  import opened Options

  /** The bits of a page-table entry that the boot loader writes, at every level. */
  datatype Entry = Entry(present: bool, writable: bool, userMode: bool, cacheDisabled: bool, base: nat)

  const ZERO_ENTRY := Entry(false, false, false, false, 0)

  type Memory = map<nat, seq<Entry>>

  // ----- addresses -----

  // The VMA_*_IDX macros: nine bits from bit 39, 30, 21 and 12.
  function Pml4Index(addr: nat): nat { addr / 0x80_0000_0000 % 512 }
  function PdptIndex(addr: nat): nat { addr / 0x4000_0000 % 512 }
  function DirectoryIndex(addr: nat): nat { addr / 0x20_0000 % 512 }
  function TableIndex(addr: nat): nat { addr / 0x1000 % 512 }

  /** The four indices a walk uses for an address. */
  function Path(addr: nat): seq<nat> {
    [Pml4Index(addr), PdptIndex(addr), DirectoryIndex(addr), TableIndex(addr)]
  }

  /** The 36-bit virtual page number. */
  function PageNumber(addr: nat): nat { addr / 0x1000 % 0x10_0000_0000 }

  lemma IndexOfPage(addr: nat)
    ensures Pml4Index(addr) == PageNumber(addr) / 0x800_0000
    ensures PdptIndex(addr) == PageNumber(addr) / 0x4_0000 % 512
    ensures DirectoryIndex(addr) == PageNumber(addr) / 512 % 512
    ensures TableIndex(addr) == PageNumber(addr) % 512
  {
    var v := addr / 0x1000;
    assert addr / 0x20_0000 == v / 512;
    assert addr / 0x4000_0000 == v / 0x4_0000;
    assert addr / 0x80_0000_0000 == v / 0x800_0000;
    PageBits27(v);
    PageBits18(v);
    PageBits9(v);
    PageBits0(v);
  }

  // The four nine-bit fields of a page number survive cutting it to 36 bits.
  lemma PageBits27(v: nat)
    ensures v % 0x10_0000_0000 / 0x800_0000 == v / 0x800_0000 % 512
  {
  }

  lemma PageBits18(v: nat)
    ensures v % 0x10_0000_0000 / 0x4_0000 % 512 == v / 0x4_0000 % 512
  {
    var q, r := v / 0x10_0000_0000, v % 0x10_0000_0000;
    Divided18(v, q, r);
    AddMultiple(r / 0x4_0000, q * 512);
  }

  lemma PageBits9(v: nat)
    ensures v % 0x10_0000_0000 / 512 % 512 == v / 512 % 512
  {
    var q, r := v / 0x10_0000_0000, v % 0x10_0000_0000;
    Divided9(v, q, r);
    AddMultiple(r / 512, q * 0x4_0000);
  }

  lemma Divided18(v: nat, q: nat, r: nat)
    requires v == q * 0x10_0000_0000 + r
    ensures v / 0x4_0000 == q * 512 * 512 + r / 0x4_0000
  {
  }

  lemma Divided9(v: nat, q: nat, r: nat)
    requires v == q * 0x10_0000_0000 + r
    ensures v / 512 == q * 0x4_0000 * 512 + r / 512
  {
  }

  lemma AddMultiple(x: nat, m: nat)
    ensures (m * 512 + x) % 512 == x % 512
  {
  }

  lemma PageBits0(v: nat)
    ensures v % 0x10_0000_0000 % 512 == v % 512
  {
  }

  /** The indices along a path are the digits of the page number to base 512, the most significant first. */
  lemma PathIsDigits(addr: nat)
    ensures var p := Path(addr);
            && |p| == 4 && (forall i :: 0 <= i < 4 ==> p[i] < 512)
            && ((p[0] * 512 + p[1]) * 512 + p[2]) * 512 + p[3] == PageNumber(addr)
  {
    IndexOfPage(addr);
    PageFromIndices(PageNumber(addr));
  }

  /** Two addresses take the same path exactly when they lie in the same virtual page. */
  lemma PathIsPage(a: nat, b: nat)
    ensures Path(a) == Path(b) <==> PageNumber(a) == PageNumber(b)
  {
    IndexOfPage(a);
    IndexOfPage(b);
    PageFromIndices(PageNumber(a));
    PageFromIndices(PageNumber(b));
  }

  lemma PageFromIndices(v: nat)
    ensures v == v / 0x800_0000 * 0x800_0000 + v / 0x4_0000 % 512 * 0x4_0000 + v / 512 % 512 * 512 + v % 512
  {
    assert v / 0x4_0000 == v / 512 / 512;
    assert v / 0x800_0000 == v / 512 / 512 / 512;
  }

  /** The `j`-th page behind a start address; the address counter is 64 bits wide. */
  function PageAt(start: nat, j: nat): nat { (start + j * 0x1000) % 0x1_0000_0000_0000_0000 }

  lemma PageAtNumber(start: nat, j: nat)
    ensures PageNumber(PageAt(start, j)) == (start / 0x1000 + j) % 0x10_0000_0000
  {
    var x := start + j * 0x1000;
    assert x / 0x1000 == start / 0x1000 + j;
    assert x % 0x1_0000_0000_0000_0000 / 0x1000 == x / 0x1000 % 0x10_0000_0000_0000;
    ModMod(x / 0x1000);
  }

  lemma ModMod(x: nat)
    ensures x % 0x10_0000_0000_0000 % 0x10_0000_0000 == x % 0x10_0000_0000
  {
  }

  lemma PageAtNext(start: nat, j: nat)
    ensures (PageAt(start, j) + 0x1000) % 0x1_0000_0000_0000_0000 == PageAt(start, j + 1)
  {
    assert start + (j + 1) * 0x1000 == start + j * 0x1000 + 0x1000;
    AddMod(start + j * 0x1000);
  }

  lemma AddMod(x: nat)
    ensures (x % 0x1_0000_0000_0000_0000 + 0x1000) % 0x1_0000_0000_0000_0000 == (x + 0x1000) % 0x1_0000_0000_0000_0000
  {
  }

  /** The pages of a region of at most 2^48 bytes are different virtual pages. */
  lemma PagesDiffer(start: nat, i: nat, j: nat)
    requires i < j < i + 0x10_0000_0000
    ensures Path(PageAt(start, i)) != Path(PageAt(start, j))
  {
    hide Path, PageAt, PageNumber;
    PathIsPage(PageAt(start, i), PageAt(start, j));
    PageAtNumber(start, i);
    PageAtNumber(start, j);
    CloseNumbersDiffer(start / 0x1000 + i, start / 0x1000 + j);
  }

  lemma CloseNumbersDiffer(x: nat, y: nat)
    requires x < y < x + 0x10_0000_0000
    ensures x % 0x10_0000_0000 != y % 0x10_0000_0000
  {
  }

  // ----- walks -----

  /** The entry that stands for "the top-level table is in this frame". */
  function RootEntry(root: nat): Entry { Entry(true, true, false, false, root) }

  /** Follow entry `i` of the table that entry `t` points to. */
  function Down(mem: Memory, t: Option<Entry>, i: nat): Option<Entry> {
    if t.Some? && t.value.base in mem && i < |mem[t.value.base]| && mem[t.value.base][i].present
    then Some(mem[t.value.base][i]) else None
  }

  /** The entry a path of up to four indices ends at: three or fewer lead to a table, four to a page frame. */
  function Walk(mem: Memory, root: nat, path: seq<nat>): Option<Entry> {
    if path == [] then Some(RootEntry(root)) else Down(mem, Walk(mem, root, path[..|path| - 1]), path[|path| - 1])
  }

  /** The bytes one entry of a table covers: a page at the lowest level, 512 times as much at each higher one. */
  function Span(level: nat): (n: nat)
    ensures n > 0
  {
    if level == 0 then 0x1000 else 512 * Span(level - 1)
  }

  /** What the processor makes of an address, from the table in frame `t` at some level on: the entry of the page, with
      the access that every level on the way grants. */
  function Descend(mem: Memory, t: nat, addr: nat, level: nat): Option<Entry>
    decreases level
  {
    var i := addr / Span(level) % 512;
    if t !in mem || i >= |mem[t]| || !mem[t][i].present then None
    else if level == 0 then Some(mem[t][i])
    else match Descend(mem, mem[t][i].base, addr, level - 1)
      case None => None
      case Some(e) => Some(e.(writable := e.writable && mem[t][i].writable, userMode := e.userMode && mem[t][i].userMode))
  }

  /** The translation of a virtual address by four levels of tables. */
  function Translate(mem: Memory, root: nat, addr: nat): Option<Entry> { Descend(mem, root, addr, 3) }

  /** Tables are whole, for the kernel to write through, and each is reached by exactly one path. */
  ghost predicate WfTree(mem: Memory, root: nat) {
    && (forall p :: |p| <= 3 && Walk(mem, root, p).Some? ==> IsTable(mem, Walk(mem, root, p).value.base) && KernelWrites(Walk(mem, root, p).value))
    && (forall p, q :: |p| <= 3 && |q| <= 3 && SameTable(Walk(mem, root, p), Walk(mem, root, q)) ==> p == q)
  }

  predicate KernelWrites(e: Entry) { e.writable && !e.userMode }

  /** Every table is reached: no frame is lost. */
  ghost predicate AllReached(mem: Memory, root: nat) {
    forall t :: t in mem ==> exists p: seq<nat> :: |p| <= 3 && Reaches(mem, root, p, t)
  }

  ghost predicate Reaches(mem: Memory, root: nat, p: seq<nat>, t: nat) { Walk(mem, root, p).Some? && Walk(mem, root, p).value.base == t }

  ghost predicate SameTable(e: Option<Entry>, e': Option<Entry>) { e.Some? && e'.Some? && e.value.base == e'.value.base }

  ghost predicate IsTable(mem: Memory, t: nat) { t in mem && |mem[t]| == 512 && t < 0x100_0000_0000 }

  /** `mem'` is `mem` with entry `i` of table `t` replaced, and perhaps frames that `mem` did not have. */
  ghost predicate Edited(mem: Memory, mem': Memory, t: nat, i: nat, e: Entry) {
    && t in mem && i < |mem[t]|
    && (forall u :: u in mem ==> u in mem')
    && (forall u :: u in mem && u != t ==> mem'[u] == mem[u])
    && mem'[t] == mem[t][i := e]
  }

  /** Editing one entry changes no walk but those through that entry. */
  lemma {:induction false} EditFrame(mem: Memory, mem': Memory, root: nat, p: seq<nat>, i: nat, e: Entry, q: seq<nat>)
    requires WfTree(mem, root) && |p| <= 3 && |q| <= 4 && Walk(mem, root, p).Some?
    requires Edited(mem, mem', Walk(mem, root, p).value.base, i, e)
    requires !(p + [i] <= q)
    ensures Walk(mem', root, q) == Walk(mem, root, q)
    decreases |q|
  {
    hide WfTree;
    if q != [] {
      var q' := q[..|q| - 1];
      EditFrame(mem, mem', root, p, i, e, q');
      if Walk(mem, root, q').Some? {
        TableIsWhole(mem, root, q');
        OnePath(mem, root, p, q');
        assert q == q' + [q[|q| - 1]];
      }
    }
  }

  lemma TableIsWhole(mem: Memory, root: nat, p: seq<nat>)
    requires WfTree(mem, root) && |p| <= 3 && Walk(mem, root, p).Some?
    ensures IsTable(mem, Walk(mem, root, p).value.base) && KernelWrites(Walk(mem, root, p).value)
  {
  }

  lemma OnePath(mem: Memory, root: nat, p: seq<nat>, q: seq<nat>)
    requires WfTree(mem, root) && |p| <= 3 && |q| <= 3
    ensures SameTable(Walk(mem, root, p), Walk(mem, root, q)) ==> p == q
  {
  }

  /** The edited entry itself. */
  lemma EditHere(mem: Memory, mem': Memory, root: nat, p: seq<nat>, i: nat, e: Entry)
    requires WfTree(mem, root) && |p| <= 3 && Walk(mem, root, p).Some?
    requires Edited(mem, mem', Walk(mem, root, p).value.base, i, e)
    ensures Walk(mem', root, p + [i]) == if e.present then Some(e) else None
  {
    assert !(p + [i] <= p);
    EditFrame(mem, mem', root, p, i, e, p);
    assert (p + [i])[..|p|] == p;
  }

  lemma {:induction false} NoneBelow(mem: Memory, root: nat, p: seq<nat>, q: seq<nat>)
    requires Walk(mem, root, p) == None && p <= q
    ensures Walk(mem, root, q) == None
    decreases |q|
  {
    if |q| > |p| {
      NoneBelow(mem, root, p, q[..|q| - 1]);
    } else {
      assert p == q;
    }
  }

  // ----- adding a table -----

  function NewTable(): (t: seq<Entry>)
    ensures |t| == 512 && forall j :: 0 <= j < 512 ==> t[j] == ZERO_ENTRY
  {
    seq(512, j => ZERO_ENTRY)
  }

  /** What the loader leaves in an entry that points to a new table; the base field is 40 bits wide. */
  function TableEntry(was: Entry, f: nat): Entry {
    was.(present := true, writable := true, userMode := false, base := f % 0x100_0000_0000)
  }

  /** `mem'` is `mem` with a new empty table in frame `f`, hung into entry `i` of the table at path `p`. */
  ghost predicate Grown(mem: Memory, mem': Memory, root: nat, p: seq<nat>, i: nat, f: nat) {
    && |p| <= 2 && Walk(mem, root, p).Some? && i < 512 && f < 0x100_0000_0000 && f !in mem
    && Walk(mem, root, p + [i]) == None
    && var t := Walk(mem, root, p).value.base;
       t in mem && |mem[t]| == 512 && mem' == mem[f := NewTable()][t := mem[t][i := TableEntry(mem[t][i], f)]]
  }

  /** After growing, the one new walk ends at the new table, and all others are as before. */
  lemma {:induction false} GrowWalk(mem: Memory, mem': Memory, root: nat, p: seq<nat>, i: nat, f: nat, q: seq<nat>)
    requires WfTree(mem, root) && Grown(mem, mem', root, p, i, f) && |q| <= 4
    ensures q == p + [i] ==> Reaches(mem', root, q, f) && KernelWrites(Walk(mem', root, q).value)
    ensures q != p + [i] ==> Walk(mem', root, q) == Walk(mem, root, q)
    decreases |q|
  {
    var t := Walk(mem, root, p).value.base;
    var e := TableEntry(mem[t][i], f);
    assert Edited(mem, mem', t, i, e);
    if q == p + [i] {
      EditHere(mem, mem', root, p, i, e);
    } else if p + [i] <= q {
      NoneBelow(mem, root, p + [i], q);
      var q' := q[..|q| - 1];
      GrowWalk(mem, mem', root, p, i, f, q');
      if q' != p + [i] {
        NoneBelow(mem, root, p + [i], q');
      }
    } else {
      EditFrame(mem, mem', root, p, i, e, q);
    }
  }

  /** A new table keeps the tree well formed and changes no walk but the one to it. */
  lemma GrowKeeps(mem: Memory, mem': Memory, root: nat, p: seq<nat>, i: nat, f: nat)
    requires WfTree(mem, root) && Grown(mem, mem', root, p, i, f)
    ensures WfTree(mem', root) && Reaches(mem', root, p + [i], f)
    ensures forall q :: |q| <= 4 && q != p + [i] ==> Walk(mem', root, q) == Walk(mem, root, q)
  {
    forall q | |q| <= 4
      ensures q == p + [i] ==> Reaches(mem', root, q, f) && KernelWrites(Walk(mem', root, q).value)
      ensures q != p + [i] ==> Walk(mem', root, q) == Walk(mem, root, q)
    {
      GrowWalk(mem, mem', root, p, i, f, q);
    }
    assert forall u :: IsTable(mem, u) ==> IsTable(mem', u) && u != f;
    assert IsTable(mem', f);
  }

  lemma GrowSupply(mem: Memory, mem': Memory, root: nat, p: seq<nat>, i: nat, f: nat, supply: seq<nat>)
    requires Grown(mem, mem', root, p, i, f) && SupplyOk(mem, supply) && supply != [] && f == supply[0]
    ensures SupplyOk(mem', supply[1..])
  {
    hide Walk;
  }

  lemma IsGrown(mem: Memory, mem': Memory, root: nat, p: seq<nat>, i: nat, f: nat)
    requires |p| <= 2 && Walk(mem, root, p).Some? && i < 512 && f < 0x100_0000_0000 && f !in mem && Walk(mem, root, p + [i]) == None
    requires IsTable(mem, Walk(mem, root, p).value.base)
    requires var t := Walk(mem, root, p).value.base; mem' == mem[f := NewTable()][t := mem[t][i := TableEntry(mem[t][i], f)]]
    ensures Grown(mem, mem', root, p, i, f) && mem'.Keys == mem.Keys + {f}
  {
    hide Walk;
  }

  lemma SupplyHead(mem: Memory, supply: seq<nat>)
    requires SupplyOk(mem, supply) && supply != []
    ensures supply[0] < 0x100_0000_0000 && supply[0] !in mem
  {
  }

  lemma EntryHere(mem: Memory, root: nat, p: seq<nat>, i: nat)
    requires WfTree(mem, root) && |p| <= 3 && i < 512 && Walk(mem, root, p).Some?
    ensures var t := Walk(mem, root, p).value.base;
            IsTable(mem, t) && Walk(mem, root, p + [i]) == if mem[t][i].present then Some(mem[t][i]) else None
  {
    TableIsWhole(mem, root, p);
    assert (p + [i])[..|p|] == p;
  }

  lemma GrowReaches(mem: Memory, mem': Memory, root: nat, p: seq<nat>, i: nat, f: nat)
    requires Grown(mem, mem', root, p, i, f) && AllReached(mem, root) && Reaches(mem', root, p + [i], f)
    requires forall q :: |q| <= 4 && q != p + [i] ==> Walk(mem', root, q) == Walk(mem, root, q)
    ensures AllReached(mem', root)
  {
    hide Walk;
    forall t | t in mem'
      ensures exists q: seq<nat> :: |q| <= 3 && Reaches(mem', root, q, t)
    {
      if t != f {
        var q: seq<nat> :| |q| <= 3 && Reaches(mem, root, q, t);
        assert Reaches(mem', root, q, t);
      }
    }
  }

  // ----- mapping a page -----

  /** What the loader leaves in the entry of a mapped page. */
  function LeafEntry(was: Entry, f: nat): Entry {
    was.(present := true, writable := true, userMode := false, base := f % 0x100_0000_0000, cacheDisabled := true)
  }

  /** The entry of a page mapped to frame `f`: kernel-only, writable, uncached. */
  function Mapping(f: nat): Entry { Entry(true, true, false, true, f) }

  /** Writing a page's entry maps that page and no other. */
  lemma LeafKeeps(mem: Memory, mem': Memory, root: nat, p: seq<nat>, i: nat, f: nat)
    requires WfTree(mem, root) && |p| == 3 && Walk(mem, root, p).Some? && i < 512 && f < 0x100_0000_0000
    requires var t := Walk(mem, root, p).value.base;
             t in mem && |mem[t]| == 512 && mem' == mem[t := mem[t][i := LeafEntry(mem[t][i], f)]]
    ensures WfTree(mem', root)
    ensures forall q :: |q| <= 4 ==> Walk(mem', root, q) == if q == p + [i] then Some(Mapping(f)) else Walk(mem, root, q)
  {
    var t := Walk(mem, root, p).value.base;
    var e := LeafEntry(mem[t][i], f);
    assert Edited(mem, mem', t, i, e);
    forall q | |q| <= 4
      ensures Walk(mem', root, q) == if q == p + [i] then Some(Mapping(f)) else Walk(mem, root, q)
    {
      if q == p + [i] {
        EditHere(mem, mem', root, p, i, e);
      } else {
        assert p + [i] <= q ==> q == p + [i];
        EditFrame(mem, mem', root, p, i, e, q);
      }
    }
    assert forall u :: IsTable(mem, u) ==> IsTable(mem', u);
  }

  /** What AllocatePages would still hand out: frames that are not tables, each once. */
  ghost predicate SupplyOk(mem: Memory, supply: seq<nat>) {
    && (forall j :: 0 <= j < |supply| ==> supply[j] < 0x100_0000_0000 && supply[j] !in mem)
    && (forall j, k :: 0 <= j < k < |supply| ==> supply[j] != supply[k])
  }

  /** The entry at the end of the walk for an address. */
  function Leaf(mem: Memory, root: nat, addr: nat): Option<Entry> { Walk(mem, root, Path(addr)) }

  /** An entry as the processor sees it below tables that only the kernel may use. */
  function ForKernel(e: Option<Entry>): Option<Entry> { if e.Some? then Some(e.value.(userMode := false)) else None }

  /** The processor's walk by nine bits at a time is the walk along the four indices. */
  lemma TranslateIsLeaf(mem: Memory, root: nat, addr: nat)
    requires WfTree(mem, root)
    ensures Translate(mem, root, addr) == ForKernel(Leaf(mem, root, addr))
  {
    hide WfTree, Walk;
    SpansAre();
    var p := Path(addr);
    RootWalk(mem, root);
    DescendStep(mem, root, addr, 3, []);
    if Walk(mem, root, p[..1]).Some? {
      DescendStep(mem, root, addr, 2, p[..1]);
      if Walk(mem, root, p[..2]).Some? {
        DescendStep(mem, root, addr, 1, p[..2]);
        if Walk(mem, root, p[..3]).Some? {
          DescendStep(mem, root, addr, 0, p[..3]);
        }
      }
    }
  }

  /** One level of the processor's walk, from the table that the first indices of the path lead to. */
  lemma DescendStep(mem: Memory, root: nat, addr: nat, level: nat, p: seq<nat>)
    requires WfTree(mem, root) && level <= 3 && p == Path(addr)[..3 - level] && Walk(mem, root, p).Some?
    ensures var t, e := Walk(mem, root, p).value.base, Walk(mem, root, Path(addr)[..4 - level]);
            && (e == None ==> Descend(mem, t, addr, level) == None && Leaf(mem, root, addr) == None)
            && (e.Some? && level == 0 ==> Descend(mem, t, addr, level) == e == Leaf(mem, root, addr))
            && (e.Some? && level > 0 ==> Descend(mem, t, addr, level) == ForKernel(Descend(mem, e.value.base, addr, level - 1)))
  {
    hide WfTree;
    SpansAre();
    var q := Path(addr)[..4 - level];
    assert q[..3 - level] == p && q[3 - level] == addr / Span(level) % 512;
    TableIsWhole(mem, root, p);
    if Walk(mem, root, q) == None {
      NoneBelow(mem, root, q, Path(addr));
    } else if level > 0 {
      TableIsWhole(mem, root, q);
    } else {
      assert q == Path(addr);
    }
  }

  lemma FourIndices(addr: nat)
    ensures |Path(addr)| == 4
  {
  }

  lemma SpansAre()
    ensures Span(0) == 0x1000 && Span(1) == 0x20_0000 && Span(2) == 0x4000_0000 && Span(3) == 0x80_0000_0000
  {
  }

  /** The first `k` pages from `vmem` on translate to the frames from `phys` on, for the kernel to write and uncached,
      and every other address as in `was`. */
  ghost predicate RegionMapped(was: Memory, mem: Memory, root: nat, vmem: nat, phys: nat, k: nat) {
    forall a: nat :: Translate(mem, root, a) == MappedAt(was, root, vmem, phys, k, a)
  }

  ghost function MappedAt(was: Memory, root: nat, vmem: nat, phys: nat, k: nat, a: nat): Option<Entry> {
    var j := (a / 0x1000 - vmem / 0x1000) % 0x10_0000_0000;
    if j < k then Some(Mapping(phys / 0x1000 + j)) else Translate(was, root, a)
  }

  lemma PrefixIsRegion(was: Memory, mem: Memory, root: nat, vmem: nat, phys: nat, k: nat)
    requires WfTree(was, root) && WfTree(mem, root) && k <= 0x10_0000_0000 && MappedPrefix(was, mem, root, vmem, phys, k)
    ensures RegionMapped(was, mem, root, vmem, phys, k)
  {
    hide WfTree, Walk, Translate, PageAt, Path, MappedPrefix;
    forall a: nat
      ensures Translate(mem, root, a) == MappedAt(was, root, vmem, phys, k, a)
    {
      TranslateIsLeaf(mem, root, a);
      TranslateIsLeaf(was, root, a);
      PageOfAddress(vmem, a);
      PrefixAt(was, mem, root, vmem, phys, k, a);
    }
  }

  lemma PrefixAt(was: Memory, mem: Memory, root: nat, vmem: nat, phys: nat, k: nat, a: nat)
    requires k <= 0x10_0000_0000 && MappedPrefix(was, mem, root, vmem, phys, k)
    ensures var j := (a / 0x1000 - vmem / 0x1000) % 0x10_0000_0000;
            Leaf(mem, root, a) == if j < k then Some(Mapping(phys / 0x1000 + j)) else Leaf(was, root, a)
  {
    hide Walk, PageAt, Path;
    PageOfAddress(vmem, a);
    var j := (a / 0x1000 - vmem / 0x1000) % 0x10_0000_0000;
    if j < k {
      assert Leaf(mem, root, PageAt(vmem, j)) == Some(Mapping(phys / 0x1000 + j));
    } else {
      FourIndices(a);
      if InRegion(Path(a), vmem, k) {
        var i: nat :| i < k && Path(a) == Path(PageAt(vmem, i));
        PagesDiffer(vmem, i, j);
        assert false;
      }
    }
  }

  /** The page of an address, counted from `vmem` on around the 48 bits that are translated. */
  lemma PageOfAddress(vmem: nat, a: nat)
    ensures Path(a) == Path(PageAt(vmem, (a / 0x1000 - vmem / 0x1000) % 0x10_0000_0000))
  {
    hide Path, PageAt;
    var j := (a / 0x1000 - vmem / 0x1000) % 0x10_0000_0000;
    PageAtNumber(vmem, j);
    SumMod(vmem / 0x1000, a / 0x1000);
    PathIsPage(a, PageAt(vmem, j));
  }

  lemma SumMod(v: nat, a: nat)
    ensures (v + (a - v) % 0x10_0000_0000) % 0x10_0000_0000 == a % 0x10_0000_0000
  {
  }

  ghost predicate InRegion(q: seq<nat>, vmem: nat, k: nat) { exists j: nat :: j < k && q == Path(PageAt(vmem, j)) }

  /** The first `k` pages of the region are mapped in order and every other translation is as in `was`. */
  ghost predicate MappedPrefix(was: Memory, mem: Memory, root: nat, vmem: nat, phys: nat, k: nat) {
    && (forall j: nat :: j < k ==> Leaf(mem, root, PageAt(vmem, j)) == Some(Mapping(phys / 0x1000 + j)))
    && (forall q :: |q| == 4 && !InRegion(q, vmem, k) ==> Walk(mem, root, q) == Walk(was, root, q))
  }

  /** One more page, different from all before it, extends the mapped prefix. */
  lemma PrefixGrows(was: Memory, mem: Memory, mem': Memory, root: nat, vmem: nat, phys: nat, k: nat)
    requires MappedPrefix(was, mem, root, vmem, phys, k) && k < 0x10_0000_0000
    requires forall q :: |q| == 4 ==>
               Walk(mem', root, q) == if q == Path(PageAt(vmem, k)) then Some(Mapping(phys / 0x1000 + k)) else Walk(mem, root, q)
    ensures MappedPrefix(was, mem', root, vmem, phys, k + 1)
  {
    forall j: nat | j < k + 1
      ensures Leaf(mem', root, PageAt(vmem, j)) == Some(Mapping(phys / 0x1000 + j))
    {
      if j < k {
        PagesDiffer(vmem, j, k);
        assert Leaf(mem, root, PageAt(vmem, j)) == Some(Mapping(phys / 0x1000 + j));
      }
    }
    forall q | |q| == 4 && !InRegion(q, vmem, k + 1)
      ensures Walk(mem', root, q) == Walk(was, root, q)
    {
      assert !InRegion(q, vmem, k);
    }
  }

  lemma EmptyWalk(mem: Memory, root: nat, q: seq<nat>)
    requires mem == map[root := NewTable()] && q != []
    ensures Walk(mem, root, q) == None
  {
    if |q| > 1 {
      EmptyWalk(mem, root, q[..|q| - 1]);
    } else {
      assert q[..0] == [];
    }
  }

  lemma RootReaches(mem: Memory, root: nat)
    requires mem.Keys == {root}
    ensures AllReached(mem, root)
  {
    assert Reaches(mem, root, [], root);
  }

  lemma IndicesInRange(addr: nat)
    ensures Pml4Index(addr) < 512 && PdptIndex(addr) < 512 && DirectoryIndex(addr) < 512 && TableIndex(addr) < 512
  {
  }

  lemma RootWalk(mem: Memory, root: nat)
    ensures Walk(mem, root, []) == Some(RootEntry(root))
  {
  }

  lemma LeafKeepsSupply(mem: Memory, mem': Memory, t: nat, supply: seq<nat>)
    requires SupplyOk(mem, supply) && t in mem && t in mem' && mem' == mem[t := mem'[t]]
    ensures SupplyOk(mem', supply)
  {
  }

  /** Frames are taken from the front of the supply, and each becomes a table. */
  ghost predicate Took(was: Memory, frames: seq<nat>, mem: Memory, rest: seq<nat>) {
    exists n: nat :: TookFrames(was, frames, mem, rest, n)
  }

  ghost predicate TookFrames(was: Memory, frames: seq<nat>, mem: Memory, rest: seq<nat>, n: nat) {
    n <= |frames| && rest == frames[n..] && mem.Keys == was.Keys + Front(frames, n)
  }

  ghost function Front(frames: seq<nat>, n: nat): set<nat>
    requires n <= |frames|
  {
    set j | 0 <= j < n :: frames[j]
  }

  lemma TookMore(was: Memory, frames: seq<nat>, mem: Memory, rest: seq<nat>, mem': Memory, rest': seq<nat>)
    requires Took(was, frames, mem, rest) && Took(mem, rest, mem', rest')
    ensures Took(was, frames, mem', rest')
  {
    hide Front;
    var n: nat :| TookFrames(was, frames, mem, rest, n);
    var m: nat :| TookFrames(mem, rest, mem', rest', m);
    FrontSplit(frames, n, m);
    assert TookFrames(was, frames, mem', rest', n + m);
  }

  lemma FrontSplit(frames: seq<nat>, n: nat, m: nat)
    requires n + m <= |frames|
    ensures Front(frames, n + m) == Front(frames, n) + Front(frames[n..], m)
  {
    forall x | x in Front(frames, n + m)
      ensures x in Front(frames, n) + Front(frames[n..], m)
    {
      var j :| 0 <= j < n + m && frames[j] == x;
      assert j >= n ==> frames[n..][j - n] == x;
    }
  }

  lemma TookFromNone(was: Memory, frames: seq<nat>, mem: Memory, rest: seq<nat>)
    requires Took(was, frames, mem, rest)
    ensures frames == [] ==> rest == []
  {
  }

  lemma TookSame(was: Memory, frames: seq<nat>, mem: Memory, rest: seq<nat>, mem': Memory)
    requires Took(was, frames, mem, rest) && mem'.Keys == mem.Keys
    ensures Took(was, frames, mem', rest)
  {
    var n: nat :| TookFrames(was, frames, mem, rest, n);
    assert TookFrames(was, frames, mem', rest, n);
  }

  lemma SameReached(mem: Memory, mem': Memory, root: nat)
    requires AllReached(mem, root) && mem'.Keys == mem.Keys && forall q :: |q| <= 3 ==> Walk(mem', root, q) == Walk(mem, root, q)
    ensures AllReached(mem', root)
  {
    hide Walk;
    forall t | t in mem'
      ensures exists p: seq<nat> :: |p| <= 3 && Reaches(mem', root, p, t)
    {
      var p: seq<nat> :| |p| <= 3 && Reaches(mem, root, p, t);
      assert Reaches(mem', root, p, t);
    }
  }

  lemma NothingKept(mem: Memory, root: nat, path: seq<nat>)
    ensures WalksKept(mem, mem, root, path)
  {
  }

  /** A region of one page, or of none. */
  lemma OnePage(was: Memory, mem: Memory, root: nat, page: nat, frame: nat, ok: bool)
    requires WfTree(was, root) && WfTree(mem, root)
    requires forall q :: |q| == 4 ==>
               Walk(mem, root, q) == if ok && q == Path(page) then Some(Mapping(frame / 0x1000)) else Walk(was, root, q)
    ensures RegionMapped(was, mem, root, page, frame, if ok then 1 else 0)
  {
    hide WfTree, Walk, RegionMapped, MappedPrefix, PageAt, Path;
    PageOfItself(page);
    PrefixEmpty(was, root, page, frame);
    if ok {
      PrefixGrows(was, was, mem, root, page, frame, 0);
    } else {
      PrefixSame(was, was, mem, root, page, frame, 0);
    }
    PrefixIsRegion(was, mem, root, page, frame, if ok then 1 else 0);
  }

  lemma PageOfItself(page: nat)
    ensures Path(PageAt(page, 0)) == Path(page)
  {
    PageOfAddress(page, page);
  }

  lemma TookNone(mem: Memory, frames: seq<nat>)
    ensures Took(mem, frames, mem, frames)
  {
    assert TookFrames(mem, frames, mem, frames, 0);
  }

  lemma TookOne(was: Memory, frames: seq<nat>, mem: Memory)
    requires frames != [] && mem.Keys == was.Keys + {frames[0]}
    ensures Took(was, frames, mem, frames[1..])
  {
    assert Front(frames, 1) == {frames[0]};
    assert TookFrames(was, frames, mem, frames[1..], 1);
  }

  /** Tables are there only where they were before or on the paths of the first `k` pages. */
  ghost predicate TablesNeeded(was: Memory, mem: Memory, root: nat, vmem: nat, k: nat) {
    forall p :: |p| <= 3 && Walk(mem, root, p).Some? ==> Walk(was, root, p).Some? || OnPath(p, vmem, k)
  }

  /** Only walks to tables on the path differ. */
  ghost predicate WalksKept(was: Memory, mem: Memory, root: nat, path: seq<nat>) {
    forall q :: |q| <= 4 && !(|q| <= 3 && q <= path) ==> Walk(mem, root, q) == Walk(was, root, q)
  }

  lemma KeptMore(was: Memory, mem: Memory, mem': Memory, root: nat, path: seq<nat>, p: seq<nat>)
    requires WalksKept(was, mem, root, path) && p <= path && |p| <= 3
    requires forall q :: |q| <= 4 && q != p ==> Walk(mem', root, q) == Walk(mem, root, q)
    ensures WalksKept(was, mem', root, path)
  {
    hide Walk;
  }

  ghost predicate OnPath(p: seq<nat>, vmem: nat, k: nat) { exists j: nat :: j < k && p <= Path(PageAt(vmem, j)) }

  lemma NeededGrows(was: Memory, mem: Memory, mem': Memory, root: nat, vmem: nat, k: nat)
    requires TablesNeeded(was, mem, root, vmem, k)
    requires forall p :: |p| <= 3 && Walk(mem', root, p).Some? ==> Walk(mem, root, p).Some? || p <= Path(PageAt(vmem, k))
    ensures TablesNeeded(was, mem', root, vmem, k + 1)
  {
    hide Walk, Path, PageAt;
    forall p: seq<nat> | |p| <= 3 && Walk(mem', root, p).Some?
      ensures Walk(was, root, p).Some? || OnPath(p, vmem, k + 1)
    {
      assert Walk(mem, root, p).Some? ==> Walk(was, root, p).Some? || OnPath(p, vmem, k);
    }
  }

  class BootTables {
    var mem: Memory
    const root: nat
    var supply: seq<nat>   // the frames AllocatePages would still return, in order; empty means the next call fails

    ghost predicate Valid()
      reads this
    {
      WfTree(mem, root) && SupplyOk(mem, supply) && AllReached(mem, root)
    }

    /** An empty top-level table in a frame from the firmware, as map2 makes it. */
    constructor (frame: nat, frames: seq<nat>)
      requires frame < 0x100_0000_0000 && SupplyOk(map[frame := NewTable()], frames)
      ensures Valid() && root == frame && supply == frames
      ensures forall q :: q != [] ==> Walk(mem, root, q) == None
    {
      root := frame;
      mem := map[frame := NewTable()];
      supply := frames;
      new;
      forall q: seq<nat>
        ensures q != [] ==> Walk(mem, root, q) == None
      {
        if q != [] {
          EmptyWalk(mem, root, q);
        }
      }
      RootReaches(mem, root);
    }

    /** "Get the table": reuse the present one or hang in a new one. */
    method EnsureTable(t: nat, i: nat, ghost p: seq<nat>) returns (ok: bool, next: nat)
      requires Valid() && |p| <= 2 && i < 512 && Walk(mem, root, p).Some? && Walk(mem, root, p).value.base == t
      modifies this
      ensures Valid()
      ensures ok ==> Reaches(mem, root, p + [i], next)
      ensures forall q :: |q| <= 4 && q != p + [i] ==> Walk(mem, root, q) == Walk(old(mem), root, q)
      ensures Took(old(mem), old(supply), mem, supply)
      ensures !ok ==> mem == old(mem) && supply == []
    {
      EntryHere(mem, root, p, i);
      hide WfTree, SupplyOk, AllReached, Walk, Took;
      TookNone(mem, supply);
      if mem[t][i].present {
        return true, mem[t][i].base;
      }
      if supply == [] {
        return false, 0;
      }
      SupplyHead(mem, supply);
      var f := supply[0];
      ghost var was := mem;
      supply := supply[1..];
      mem := mem[f := NewTable()];
      mem := mem[t := mem[t][i := TableEntry(mem[t][i], f)]];
      IsGrown(was, mem, root, p, i, f);
      hide Grown;
      GrowKeeps(was, mem, root, p, i, f);
      GrowReaches(was, mem, root, p, i, f);
      GrowSupply(was, mem, root, p, i, f, old(supply));
      TookOne(was, old(supply), mem);
      return true, f;
    }

    /** The tables on the way to a page, reused or new. */
    method OpenTables(page: nat) returns (ok: bool, table: nat)
      requires Valid()
      modifies this
      ensures Valid() && WalksKept(old(mem), mem, root, Path(page)) && Took(old(mem), old(supply), mem, supply)
      ensures if ok then Reaches(mem, root, Path(page)[..3], table) else supply == []
    {
      hide WfTree, SupplyOk, AllReached, Walk, Pml4Index, PdptIndex, DirectoryIndex, TableIndex, Took, WalksKept;
      IndicesInRange(page);
      RootWalk(mem, root);
      ghost var was, frames, path := mem, supply, Path(page);
      NothingKept(mem, root, path);
      table := 0;
      var pdpt, directory;
      ok, pdpt := EnsureTable(root, Pml4Index(page), []);
      assert [] + [Pml4Index(page)] == path[..1];
      KeptMore(was, was, mem, root, path, path[..1]);
      if !ok { return; }
      ghost var mem1, supply1 := mem, supply;
      ok, directory := EnsureTable(pdpt, PdptIndex(page), path[..1]);
      assert path[..1] + [PdptIndex(page)] == path[..2];
      KeptMore(was, mem1, mem, root, path, path[..2]);
      TookMore(was, frames, mem1, supply1, mem, supply);
      if !ok { return; }
      mem1, supply1 := mem, supply;
      ok, table := EnsureTable(directory, DirectoryIndex(page), path[..2]);
      assert path[..2] + [DirectoryIndex(page)] == path[..3];
      KeptMore(was, mem1, mem, root, path, path[..3]);
      TookMore(was, frames, mem1, supply1, mem, supply);
    }

    /** One pass of the loop: the page at `page` gets the frame at `frame`. */
    method MapPage(page: nat, frame: nat) returns (ok: bool)
      requires Valid() && frame / 0x1000 < 0x100_0000_0000
      modifies this
      ensures Valid() && Took(old(mem), old(supply), mem, supply) && (!ok ==> supply == [])
      ensures forall p :: |p| <= 3 && Walk(mem, root, p).Some? ==> Walk(old(mem), root, p).Some? || p <= Path(page)
      ensures forall q :: |q| == 4 ==>
                Walk(mem, root, q) == if ok && q == Path(page) then Some(Mapping(frame / 0x1000)) else Walk(old(mem), root, q)
      ensures RegionMapped(old(mem), mem, root, page, frame, if ok then 1 else 0)
    {
      hide WfTree, SupplyOk, Walk, Pml4Index, PdptIndex, DirectoryIndex, TableIndex, Took, AllReached, RegionMapped;
      IndicesInRange(page);
      ghost var was, p := mem, Path(page)[..3];
      var table;
      ok, table := OpenTables(page);
      if ok {
        ghost var ready := mem;
        var i := TableIndex(page);
        TableIsWhole(mem, root, p);
        mem := mem[table := mem[table][i := LeafEntry(mem[table][i], frame / 0x1000)]];
        LeafKeeps(ready, mem, root, p, i, frame / 0x1000);
        LeafKeepsSupply(ready, mem, table, supply);
        SameReached(ready, mem, root);
        assert Path(page) == p + [i];
        TookSame(was, old(supply), ready, supply, mem);
      }
      OnePage(was, mem, root, page, frame, ok);
    }

    /** `map_region_4k_pages`: `done` pages are mapped; all of them unless an allocation failed. */
    method MapRegion(vmem: nat, size: nat, phys: nat) returns (ok: bool, done: nat)
      requires Valid()
      requires vmem % 0x1000 == 0 && phys % 0x1000 == 0 && size % 0x1000 == 0
      requires 0 < size <= 0x1_0000_0000_0000 && phys + size <= 0x10_0000_0000_0000
      modifies this
      ensures Valid()
      ensures ok <==> done == size / 0x1000
      ensures !ok ==> done < size / 0x1000 && supply == []
      ensures RegionMapped(old(mem), mem, root, vmem, phys, done)
      ensures TablesNeeded(old(mem), mem, root, vmem, if ok then done else done + 1) && Took(old(mem), old(supply), mem, supply)
    {
      hide WfTree, SupplyOk, AllReached, Walk, MappedPrefix, PageAt, RegionMapped, TablesNeeded, Took, Path;
      PrefixEmpty(mem, root, vmem, phys);
      NothingNeeded(mem, root, vmem);
      TookNone(mem, supply);
      var remainingSize := size;
      var currentFrame := phys;
      var currentPage := PageAt(vmem, 0);
      done := 0;
      while true
        invariant Valid() && done < size / 0x1000
        invariant remainingSize == size - done * 0x1000
        invariant currentFrame == phys + done * 0x1000
        invariant currentPage == PageAt(vmem, done)
        invariant MappedPrefix(old(mem), mem, root, vmem, phys, done)
        invariant TablesNeeded(old(mem), mem, root, vmem, done) && Took(old(mem), old(supply), mem, supply)
        decreases remainingSize
      {
        ghost var was, frames := mem, supply;
        ok := MapPage(currentPage, currentFrame);
        NeededGrows(old(mem), was, mem, root, vmem, done);
        TookMore(old(mem), old(supply), was, frames, mem, supply);
        if !ok {
          PrefixSame(old(mem), was, mem, root, vmem, phys, done);
          PrefixIsRegion(old(mem), mem, root, vmem, phys, done);
          return;
        }
        PrefixGrows(old(mem), was, mem, root, vmem, phys, done);
        PageAtNext(vmem, done);
        remainingSize := remainingSize - 0x1000;
        currentFrame := currentFrame + 0x1000;
        currentPage := (currentPage + 0x1000) % 0x1_0000_0000_0000_0000;
        done := done + 1;
        if remainingSize == 0 {
          PrefixIsRegion(old(mem), mem, root, vmem, phys, done);
          return;
        }
      }
    }
  }

  lemma NothingNeeded(mem: Memory, root: nat, vmem: nat)
    ensures TablesNeeded(mem, mem, root, vmem, 0)
  {
  }

  lemma PrefixEmpty(mem: Memory, root: nat, vmem: nat, phys: nat)
    ensures MappedPrefix(mem, mem, root, vmem, phys, 0)
  {
  }

  lemma PrefixSame(was: Memory, mem: Memory, mem': Memory, root: nat, vmem: nat, phys: nat, k: nat)
    requires MappedPrefix(was, mem, root, vmem, phys, k)
    requires forall q :: |q| == 4 ==> Walk(mem', root, q) == Walk(mem, root, q)
    ensures MappedPrefix(was, mem', root, vmem, phys, k)
  {
    forall j: nat | j < k
      ensures Leaf(mem', root, PageAt(vmem, j)) == Some(Mapping(phys / 0x1000 + j))
    {
      assert Leaf(mem, root, PageAt(vmem, j)) == Some(Mapping(phys / 0x1000 + j));
    }
  }

  // ----- the boot mappings -----

  const RAM_SIZE: nat := 0x10_0000_0000            // 64 GiB
  const HIGH_BASE: nat := 0xFFFF_8000_0000_0000

  /** The identity map and the high map use different pages. */
  lemma LowIsNotHigh(x: nat)
    requires x < RAM_SIZE
    ensures (x / 0x1000 - HIGH_BASE / 0x1000) % 0x10_0000_0000 >= RAM_SIZE / 0x1000
  {
    var page := x / 0x1000;
    assert page - HIGH_BASE / 0x1000 == -0x1_0000 * 0x10_0000_0000 + (0x8_0000_0000 + page);
    assert 0 <= page < 0x100_0000;
  }

  /** All of RAM is visible at 0 and again at HIGH_BASE. */
  ghost predicate BootMapped(mem: Memory, root: nat) {
    forall x: nat :: x < RAM_SIZE ==>
      Translate(mem, root, x) == Some(Mapping(x / 0x1000)) && Translate(mem, root, HIGH_BASE + x) == Some(Mapping(x / 0x1000))
  }

  lemma BothMapped(mem0: Memory, mem1: Memory, mem2: Memory, root: nat)
    requires RegionMapped(mem0, mem1, root, 0, 0, RAM_SIZE / 0x1000)
    requires RegionMapped(mem1, mem2, root, HIGH_BASE, 0, RAM_SIZE / 0x1000)
    ensures BootMapped(mem2, root)
  {
    hide Translate;
    forall x: nat | x < RAM_SIZE
      ensures Translate(mem2, root, x) == Some(Mapping(x / 0x1000)) && Translate(mem2, root, HIGH_BASE + x) == Some(Mapping(x / 0x1000))
    {
      LowIsNotHigh(x);
      OffsetInRegion(0, x);
      OffsetInRegion(HIGH_BASE, x);
      assert Translate(mem1, root, x) == MappedAt(mem0, root, 0, 0, RAM_SIZE / 0x1000, x);
      assert Translate(mem2, root, x) == MappedAt(mem1, root, HIGH_BASE, 0, RAM_SIZE / 0x1000, x);
      assert Translate(mem2, root, HIGH_BASE + x) == MappedAt(mem1, root, HIGH_BASE, 0, RAM_SIZE / 0x1000, HIGH_BASE + x);
    }
  }

  lemma OffsetInRegion(base: nat, x: nat)
    requires base % 0x1000 == 0 && x < RAM_SIZE
    ensures ((base + x) / 0x1000 - base / 0x1000) % 0x10_0000_0000 == x / 0x1000 < RAM_SIZE / 0x1000
  {
    assert (base + x) / 0x1000 == base / 0x1000 + x / 0x1000;
  }

  /** `map2`: a top-level table and the two mappings of RAM; it does not look at what the mapping calls return. */
  method Map2(frames: seq<nat>) returns (tables: BootTables?, low: bool, high: bool)
    requires SupplyOk(map[], frames)
    ensures tables == null <==> frames == []
    ensures tables != null ==> tables.Valid() && (!(low && high) ==> tables.supply == [])
    ensures low && high ==> tables != null && BootMapped(tables.mem, tables.root)
    ensures low || high ==> tables != null
  {
    tables, low, high := null, false, false;
    if frames == [] {
      return;
    }
    assert SupplyOk(map[frames[0] := NewTable()], frames[1..]);
    tables := new BootTables(frames[0], frames[1..]);
    hide RegionMapped, BootMapped, WfTree, SupplyOk, AllReached, TablesNeeded, Took;
    ghost var mem0 := tables.mem;
    var done;
    low, done := tables.MapRegion(0, RAM_SIZE, 0);
    ghost var mem1 := tables.mem;
    ghost var frames1 := tables.supply;
    high, done := tables.MapRegion(HIGH_BASE, RAM_SIZE, 0);
    TookFromNone(mem1, frames1, tables.mem, tables.supply);
    if low && high {
      BothMapped(mem0, mem1, tables.mem, tables.root);
    }
  }
}
