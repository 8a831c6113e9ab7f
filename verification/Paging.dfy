/**
 The kernel's paging operations, `sys/pging.c` and `sys/kmalloc.c`: every access
 to a page table goes through a constructed virtual pointer that the hardware
 walk resolves in the current address space.
 */
module Paging {
  import opened Options
  import opened Bits
  import opened Machine
  import opened Pmap
  import opened Pointers
  import opened PageTable

  /** The machine state the paging code works on: its globals, the registers and physical memory. */
  datatype Vm = Vm(alloc: Alloc, mem: Memory, cr3: nat, initPml4: nat, tempAddr: nat, freeAddr: nat)

  /** What the tables are and what they map; `Ok` ties it to memory. */
  datatype Shape = Shape(role: Roles, maps: Maps)

  ghost predicate Counted(counts: map<nat, nat>, f: nat) {
    f in counts && counts[f] > 0
  }

  /** Every managed frame exists, and every table frame is an allocated one. */
  ghost predicate Frames(mem: Memory, role: Roles, counts: map<nat, nat>) {
    && (forall f: nat {:trigger FrameOk(mem, f)} :: f in counts ==> FrameOk(mem, f))
    && (forall f: nat {:trigger Counted(counts, f)} :: f in role ==> Counted(counts, f))
  }

  function Temp(s: Vm): Page {
    PageOf(s.tempAddr)
  }

  ghost predicate Ok(s: Vm, g: Shape) {
    && s.alloc.Valid()
    && Frames(s.mem, g.role, s.alloc.counts)
    && Tree(s.mem, g.role, s.initPml4)
    && Leaves(s.mem, g.role, s.initPml4, g.maps)
    && IsRoot(g.role, s.cr3)
    && s.tempAddr < U64 && Temp(s).i4 == 511 && PtFor(s.mem, s.initPml4, Temp(s)).Some?
  }

  ghost predicate FrameSame(mem: Memory, mem': Memory, f: nat) {
    f in mem && f in mem' && mem'[f] == mem[f]
  }

  /** Only table frames differ between the two memories. */
  ghost predicate DataSame(mem: Memory, mem': Memory, role: Roles) {
    && mem'.Keys == mem.Keys
    && (forall f: nat {:trigger FrameSame(mem, mem', f)} :: f in mem && f !in role ==> FrameSame(mem, mem', f))
  }

  /** The walk of page `p` from `r` passes through the same tables in both memories. */
  ghost predicate PtSame(mem: Memory, mem': Memory, r: nat, p: Page) {
    && WalkPdpt(mem', r, p.i4) == WalkPdpt(mem, r, p.i4)
    && WalkPd(mem', r, p.i4, p.i3) == WalkPd(mem, r, p.i4, p.i3)
    && PtFor(mem', r, p) == PtFor(mem, r, p)
  }

  /** No walk passes through different tables. */
  ghost predicate SameWalks(mem: Memory, mem': Memory, role: Roles) {
    forall r: nat, p: Page {:trigger PtSame(mem, mem', r, p)} :: IsRoot(role, r) && p.i4 != 510 ==> PtSame(mem, mem', r, p)
  }

  /** No user page outside address space `except` is reached through different tables. */
  ghost predicate SamePts(mem: Memory, mem': Memory, role: Roles, except: Option<nat>) {
    forall r: nat, p: Page {:trigger PtSame(mem, mem', r, p)} ::
      IsRoot(role, r) && p.i4 < 510 && except != Some(r) ==> PtSame(mem, mem', r, p)
  }

  lemma SameWalksTrans(m0: Memory, m1: Memory, m2: Memory, role: Roles)
    requires SameWalks(m0, m1, role) && SameWalks(m1, m2, role)
    ensures SameWalks(m0, m2, role)
  {
    forall r: nat, p: Page | IsRoot(role, r) && p.i4 != 510
      ensures PtSame(m0, m2, r, p)
    {
      assert PtSame(m0, m1, r, p) && PtSame(m1, m2, r, p);
    }
  }

  /** The leaf maps with kernel page `p` unmapped. */
  function Unmap(m: Maps, p: Page): Maps {
    m.(kern := m.kern - {p})
  }

  /** Flag combinations the kernel maps pages with: P|RW, P|RW|U and P|U|COW. */
  predicate LeafFlags(flags: nat) {
    flags == 3 || flags == 7 || flags == 517
  }

  /** paddr|flags, where paddr is a frame or a frame that already carries these flags. */
  method OrFlags(paddr: nat, flags: nat) returns (w: nat)
    requires LeafFlags(flags) && (paddr % PGSIZE == 0 || paddr % PGSIZE == flags)
    ensures w == Base(paddr) + flags && Base(w) == Base(paddr) && IsPresent(w)
  {
    OrFlagsValue(Base(paddr), paddr % PGSIZE, flags);
    BaseAdd(Base(paddr), flags);
    w := Or(paddr, flags);
  }

  lemma OrFlagsValue(base: nat, x: nat, flags: nat)
    requires base % PGSIZE == 0 && (flags == 3 || flags == 7 || flags == 517) && (x == 0 || x == flags)
    ensures Or(base + x, flags) == base + flags
  {
    OrOffset(base, x, flags);
    OrSelf(flags);
  }

  // --------------------------------------------------------- table accesses

  /**
   Follows the constructed pointer to the word that describes `va` in its
   level-n table, the way the hardware does, in the current address space.
   */
  method Deref(s: Vm, ghost g: Shape, va: nat, n: nat) returns (at: (nat, Index))
    requires Ok(s, g) && va < U64 && 1 <= n <= 4 && Location(s.mem, s.cr3, PageOf(va), n).Some?
    ensures Location(s.mem, s.cr3, PageOf(va), n) == Some(at)
  {
    KernelHalfShared(s.mem, g.role, s.initPml4, g.maps, s.cr3, s.cr3, PageOf(va));
    SelfMap(s.mem, s.cr3, va, n);
    at := Resolve(s.mem, s.cr3, Pointer(va, n)).value;
  }

  /** The leaf word of a page of the current address space, as the maps have it. */
  function Mapping(s: Vm, g: Shape, p: Page): Option<nat> {
    Lookup(g.maps, Own(s.initPml4, s.cr3, p.i4), p)
  }

  /** The entry of a page, read through the pointer getPhys builds. */
  method ReadPte(s: Vm, ghost g: Shape, va: nat) returns (w: nat)
    requires Ok(s, g) && va < U64 && PageOf(va).i4 != 510 && PtFor(s.mem, s.cr3, PageOf(va)).Some?
    ensures Mapping(s, g, PageOf(va)) == if IsPresent(w) then Some(w) else None
  {
    var at := Deref(s, g, va, 1);
    WalkIsLookup(s.mem, g.role, s.initPml4, g.maps, s.cr3, PageOf(va));
    w := Word(s.mem, at.0, at.1);
  }

  /** Overwrites the entry of a page through that pointer. */
  method WritePte(s: Vm, ghost g: Shape, va: nat, w: nat) returns (s': Vm, ghost g': Shape)
    requires Ok(s, g) && va < U64 && PageOf(va).i4 != 510 && PtFor(s.mem, s.cr3, PageOf(va)).Some?
    ensures Ok(s', g') && s' == s.(mem := s'.mem)
    ensures g' == Shape(g.role, SetLeaf(g.maps, Own(s.initPml4, s.cr3, PageOf(va).i4), PageOf(va), w))
    ensures DataSame(s.mem, s'.mem, g.role) && SameWalks(s.mem, s'.mem, g.role)
  {
    var at := Deref(s, g, va, 1);
    LeafStore(s.mem, g.role, s.initPml4, g.maps, s.alloc.counts, s.cr3, PageOf(va), w);
    LeafStorePts(s.mem, g.role, s.initPml4, s.cr3, PageOf(va), Temp(s), w);
    s' := s.(mem := Store(s.mem, at.0, at.1, w));
    g' := g.(maps := SetLeaf(g.maps, Own(s.initPml4, s.cr3, PageOf(va).i4), PageOf(va), w));
  }

  /** What writing the leaf word of page `p` of address space `r` keeps and changes. */
  lemma LeafStore(mem: Memory, role: Roles, k: nat, m: Maps, counts: map<nat, nat>, r: nat, p: Page, w: nat)
    requires Tree(mem, role, k) && Leaves(mem, role, k, m) && Frames(mem, role, counts)
    requires IsRoot(role, r) && p.i4 != 510 && PtFor(mem, r, p).Some?
    ensures var f := PtFor(mem, r, p).value;
            f in mem && |mem[f]| == 512 &&
            var mem' := Store(mem, f, p.i1, w);
            && Tree(mem', role, k) && Leaves(mem', role, k, SetLeaf(m, Own(k, r, p.i4), p, w)) && Frames(mem', role, counts)
            && DataSame(mem, mem', role)
  {
    ChainRoles(mem, role, k, r, p.i4, p.i3, p.i2);
    var f := PtFor(mem, r, p).value;
    assert FrameOk(mem, f);
    SetLeafTree(mem, role, k, f, p.i1, w);
    SetLeafLeaves(mem, role, k, m, f, p.i1, w);
    forall g: nat | g in counts
      ensures FrameOk(Store(mem, f, p.i1, w), g)
    {
      assert FrameOk(mem, g);
    }
  }

  lemma LeafStorePts(mem: Memory, role: Roles, k: nat, r: nat, p: Page, t: Page, w: nat)
    requires Tree(mem, role, k) && IsRoot(role, r) && p.i4 != 510 && PtFor(mem, r, p).Some? && t.i4 == 511
    ensures var f := PtFor(mem, r, p).value;
            f in mem && |mem[f]| == 512 &&
            var mem' := Store(mem, f, p.i1, w);
            SameWalks(mem, mem', role) && PtFor(mem', k, t) == PtFor(mem, k, t)
  {
    ChainRoles(mem, role, k, r, p.i4, p.i3, p.i2);
    var f := PtFor(mem, r, p).value;
    assert FrameOk(mem, f);
    forall s: nat, q: Page | IsRoot(role, s) && q.i4 != 510
      ensures PtSame(mem, Store(mem, f, p.i1, w), s, q)
    {
      LeafWalk(mem, role, k, f, p.i1, w, s, q.i4, q.i3, q.i2);
    }
    assert PtSame(mem, Store(mem, f, p.i1, w), k, t);
  }

  /** Replacing the contents of a frame that is no table changes no translation. */
  lemma DataStore(s: Vm, g: Shape, f: nat, frame: seq<nat>)
    requires Ok(s, g) && FrameOk(s.mem, f) && f !in g.role && |frame| == 512
    ensures Ok(s.(mem := s.mem[f := frame]), g)
    ensures SameWalks(s.mem, s.mem[f := frame], g.role)
  {
    var mem, mem', role, k := s.mem, s.mem[f := frame], g.role, s.initPml4;
    forall h: nat | h in role
      ensures h in mem && h in mem' && mem'[h] == mem[h]
    {
      assert FrameOk(mem, h);
    }
    SameTree(mem, mem', role, k);
    SameLeaves(mem, mem', role, k, g.maps);
    forall h: nat | h in s.alloc.counts
      ensures FrameOk(mem', h)
    {
      assert FrameOk(mem, h);
    }
    forall r: nat, p: Page | IsRoot(role, r) && p.i4 != 510
      ensures PtSame(mem, mem', r, p)
    {
      SameWalk(mem, mem', role, k, r, p.i4, p.i3, p.i2);
    }
    assert PtSame(mem, mem', k, Temp(s));
  }

  // ------------------------------------------------------ temporary window

  lemma TempTable(s: Vm, g: Shape)
    requires Ok(s, g)
    ensures PtFor(s.mem, s.cr3, Temp(s)).Some?
  {
    ChainRoles(s.mem, g.role, s.initPml4, s.cr3, 511, Temp(s).i3, Temp(s).i2);
  }

  /** free_temp: unmaps the temporary window. */
  method FreeTemp(s: Vm, ghost g: Shape) returns (s': Vm, ghost g': Shape)
    requires Ok(s, g)
    ensures Ok(s', g') && s' == s.(mem := s'.mem) && g' == Shape(g.role, Unmap(g.maps, Temp(s)))
    ensures DataSame(s.mem, s'.mem, g.role) && SameWalks(s.mem, s'.mem, g.role)
  {
    TempTable(s, g);
    s', g' := WritePte(s, g, s.tempAddr, 0);
  }

  /** The frame behind a mapped address. */
  method FrameAt(s: Vm, ghost g: Shape, va: nat) returns (f: nat)
    requires Ok(s, g) && PageOf(va).i4 != 510 && Mapping(s, g, PageOf(va)).Some?
    ensures f == Base(Mapping(s, g, PageOf(va)).value)
  {
    WalkIsLookup(s.mem, g.role, s.initPml4, g.maps, s.cr3, PageOf(va));
    f := Resolve(s.mem, s.cr3, va).value.0;
  }

  /** Mapping a kernel page and unmapping it again. */
  lemma MapThenUnmap(m: Maps, o: nat, p: Page, w: nat)
    requires p.i4 == 511 && IsPresent(w)
    ensures Unmap(SetLeaf(m, o, p, w), p) == Unmap(m, p)
  {
  }

  function ZeroFrame(): (s: seq<nat>)
    ensures |s| == 512 && forall i :: 0 <= i < 512 ==> s[i] == 0
  {
    seq(512, i => 0)
  }

  /** zero_page: clears a frame through the temporary window. */
  method ZeroPage(s: Vm, ghost g: Shape, paddr: nat) returns (s': Vm, ghost g': Shape)
    requires Ok(s, g) && paddr in s.alloc.counts && paddr !in g.role
    ensures Ok(s', g') && s' == s.(mem := s'.mem) && g' == Shape(g.role, Unmap(g.maps, Temp(s)))
    ensures paddr in s'.mem && s'.mem[paddr] == ZeroFrame()
    ensures DataSame(s.mem, s'.mem, g.role[paddr := Root]) && SameWalks(s.mem, s'.mem, g.role)
  {
    TempTable(s, g);
    assert FrameOk(s.mem, paddr);
    var w := OrFlags(paddr, PAGE_P + PAGE_RW);
    MapThenUnmap(g.maps, s.initPml4, Temp(s), w);
    var s1, g1 := WritePte(s, g, s.tempAddr, w);
    var f := FrameAt(s1, g1, s1.tempAddr);
    assert FrameOk(s1.mem, f);
    DataStore(s1, g1, f, ZeroFrame());
    var s2 := s1.(mem := s1.mem[f := ZeroFrame()]);
    s', g' := FreeTemp(s2, g1);
    assert FrameSame(s2.mem, s'.mem, paddr);
    SameWalksTrans(s.mem, s1.mem, s2.mem, g.role);
    SameWalksTrans(s.mem, s2.mem, s'.mem, g.role);
    DataSameExcept(s.mem, s1.mem, s2.mem, s'.mem, g.role, paddr);
  }

  lemma DataSameExcept(m0: Memory, m1: Memory, m2: Memory, m3: Memory, role: Roles, f: nat)
    requires DataSame(m0, m1, role) && f in m0 && f in m2 && m2 == m1[f := m2[f]] && DataSame(m2, m3, role)
    ensures DataSame(m0, m3, role[f := Root])
  {
    forall h: nat | h in m0 && h !in role[f := Root]
      ensures FrameSame(m0, m3, h)
    {
      assert FrameSame(m0, m1, h) && FrameSame(m2, m3, h);
    }
  }

  // --------------------------------------------------------------- map_page

  /** What adding tables did to frame `f`: nothing, or it was free and is now a table with count 1. */
  ghost predicate FrameGrown(role: Roles, counts: map<nat, nat>, role': Roles, counts': map<nat, nat>, f: nat) {
    if f in role then f in role' && role'[f] == role[f] && f in counts && f in counts' && counts'[f] == counts[f]
    else if f in role' then f in counts && f in counts' && counts[f] == 0 && counts'[f] == 1
    else f in counts ==> f in counts' && counts'[f] == counts[f]
  }

  ghost predicate Grown(role: Roles, counts: map<nat, nat>, role': Roles, counts': map<nat, nat>) {
    && counts'.Keys == counts.Keys
    && (forall f: nat {:trigger FrameGrown(role, counts, role', counts', f)} :: FrameGrown(role, counts, role', counts', f))
  }

  /**
   A step that may add page tables for pages of the current address space and
   may unmap the temporary window, and does nothing else.
   */
  ghost predicate Extends(s: Vm, g: Shape, s': Vm, g': Shape, except: Option<nat>) {
    && s' == s.(mem := s'.mem, alloc := s'.alloc)
    && (g'.maps == g.maps || g'.maps == Unmap(g.maps, Temp(s)))
    && Grown(g.role, s.alloc.counts, g'.role, s'.alloc.counts)
    && DataSame(s.mem, s'.mem, g'.role)
    && SamePts(s.mem, s'.mem, g.role, except)
  }

  lemma ExtendsRefl(s: Vm, g: Shape, except: Option<nat>)
    requires Ok(s, g)
    ensures Extends(s, g, s, g, except)
  {
    forall f: nat ensures FrameGrown(g.role, s.alloc.counts, g.role, s.alloc.counts, f) {
      assert f in g.role ==> Counted(s.alloc.counts, f);
    }
  }

  lemma ExtendsTrans(s: Vm, g: Shape, s1: Vm, g1: Shape, s2: Vm, g2: Shape, except: Option<nat>)
    requires Extends(s, g, s1, g1, except) && Extends(s1, g1, s2, g2, except)
    ensures Extends(s, g, s2, g2, except)
  {
    forall f: nat ensures FrameGrown(g.role, s.alloc.counts, g2.role, s2.alloc.counts, f) {
      assert FrameGrown(g.role, s.alloc.counts, g1.role, s1.alloc.counts, f);
      assert FrameGrown(g1.role, s1.alloc.counts, g2.role, s2.alloc.counts, f);
    }
    forall f: nat | f in s.mem && f !in g2.role
      ensures FrameSame(s.mem, s2.mem, f)
    {
      assert FrameGrown(g1.role, s1.alloc.counts, g2.role, s2.alloc.counts, f);
      assert FrameSame(s.mem, s1.mem, f) && FrameSame(s1.mem, s2.mem, f);
    }
    forall r: nat, p: Page | IsRoot(g.role, r) && p.i4 < 510 && except != Some(r)
      ensures PtSame(s.mem, s2.mem, r, p)
    {
      assert FrameGrown(g.role, s.alloc.counts, g1.role, s1.alloc.counts, r);
      assert PtSame(s.mem, s1.mem, r, p) && PtSame(s1.mem, s2.mem, r, p);
    }
  }

  /** The address space whose user tables mapping `p` may change: none for a kernel page. */
  function Edited(s: Vm, p: Page): Option<nat> {
    if p.i4 == 511 then None else Some(s.cr3)
  }

  /** COW pages hang under writable tables. */
  function HighFlags(flags: nat): (h: nat)
    ensures LeafFlags(flags) ==> IsPresent(h) && IsRw(h) && !IsCow(h) && IsUser(h) == IsUser(flags) && h < 8
  {
    if IsCow(flags) then 7 else flags
  }

  /** One level of map_page: where the table is missing, a free page is cleared and linked in. */
  method EnsureTable(s: Vm, ghost g: Shape, va: nat, n: nat, flags: nat) returns (ok: bool, s': Vm, ghost g': Shape)
    requires Ok(s, g) && va < U64 && PageOf(va).i4 != 510 && 2 <= n <= 4
    requires flags == 3 || flags == 7
    requires PageOf(va).i4 < 510 ==> flags == 7
    requires Location(s.mem, s.cr3, PageOf(va), n).Some?
    ensures Ok(s', g') && Extends(s, g, s', g', Edited(s, PageOf(va)))
    ensures ok ==> Location(s'.mem, s'.cr3, PageOf(va), n - 1).Some?
    ensures Location(s.mem, s.cr3, PageOf(va), n - 1).Some? ==> ok && s' == s && g' == g
    ensures ok && Location(s.mem, s.cr3, PageOf(va), n - 1).None? ==>
              var (f, i) := Location(s.mem, s.cr3, PageOf(va), n).value; Word(s'.mem, f, i) % PGSIZE == flags
    ensures var t := PathAt(Owner(s, PageOf(va)), PageOf(va), n);
            && (ok <==> t in g.role.Values || s.alloc.free != [])
            && (ok ==> TablesAdded(s, g, s', g', {t}, Lacks(g.role.Values, t)))
  {
    var p := PageOf(va);
    var at := Deref(s, g, va, n);
    LocationRole(s, g, p, n);
    WalkTables(s.mem, g.role, s.initPml4, s.cr3, p);
    s', g' := s, g;
    if IsPresent(Word(s.mem, at.0, at.1)) {
      ExtendsRefl(s, g, Edited(s, p));
      return true, s, g;
    }
    ok, s', g' := LinkTable(s, g, va, n, flags);
  }

  /** A cleared frame becomes the missing table. */
  method LinkTable(s: Vm, ghost g: Shape, va: nat, n: nat, flags: nat) returns (ok: bool, s': Vm, ghost g': Shape)
    requires Ok(s, g) && va < U64 && PageOf(va).i4 != 510 && 2 <= n <= 4 && (flags == 3 || flags == 7)
    requires (PageOf(va).i4 < 510 ==> flags == 7) && Location(s.mem, s.cr3, PageOf(va), n).Some?
    requires var (f, i) := Location(s.mem, s.cr3, PageOf(va), n).value; !IsPresent(Word(s.mem, f, i))
    ensures Ok(s', g') && Extends(s, g, s', g', Edited(s, PageOf(va))) && (ok <==> s.alloc.free != [])
    ensures ok ==> Location(s'.mem, s'.cr3, PageOf(va), n - 1).Some?
    ensures ok ==> var (f, i) := Location(s.mem, s.cr3, PageOf(va), n).value; Word(s'.mem, f, i) % PGSIZE == flags
    ensures ok ==> TablesAdded(s, g, s', g', {PathAt(Owner(s, PageOf(va)), PageOf(va), n)}, 1)
  {
    var p := PageOf(va);
    s', g' := s, g;
    var (alloc, r) := s.alloc.Take();
    if r.OutOfMemory? {
      ExtendsRefl(s, g, Edited(s, p));
      return false, s, g;
    }
    TookPage(s, g, r.base);
    var s2, g2 := ZeroPage(s.(alloc := alloc), g, r.base);
    assert PtSame(s.mem, s2.mem, s.cr3, p);
    var at2 := Deref(s2, g2, va, n);
    assert FrameOk(s.mem, r.base);
    var w := OrFlags(r.base, flags);
    LinkWord(s2, g2, p, n, r.base, w, flags);
    AddTableExtends(s, g, s2, g2, p, n, r.base, w);
    NextTable(s2, g2, p, n, r.base);
    s' := s2.(mem := Store(s2.mem, at2.0, at2.1, w));
    g' := g2.(role := g2.role[r.base := Child(at2.0, g2.role[at2.0], at2.1)]);
    return true, s', g';
  }

  /** The root whose tables describe page `p` in the current space. */
  function Owner(s: Vm, p: Page): nat {
    Own(s.initPml4, s.cr3, p.i4)
  }

  /** The tables in `ts` are there afterwards; `n` of them are new, each on a free frame. */
  ghost predicate TablesAdded(s: Vm, g: Shape, s': Vm, g': Shape, ts: set<Role>, n: nat) {
    g'.role.Values == g.role.Values + ts && |s'.alloc.free| == |s.alloc.free| - n
  }

  lemma NextTable(s: Vm, g: Shape, p: Page, n: nat, b: nat)
    requires Ok(s, g) && p.i4 != 510 && 2 <= n <= 4 && Location(s.mem, s.cr3, p, n).Some? && b !in g.role
    requires var (f, i) := Location(s.mem, s.cr3, p, n).value; !IsPresent(Word(s.mem, f, i))
    ensures var (f, i) := Location(s.mem, s.cr3, p, n).value;
            && f in g.role && !g.role[f].PtOf?
            && g.role[b := Child(f, g.role[f], i)].Values == g.role.Values + {PathAt(Owner(s, p), p, n)}
  {
    LocationRole(s, g, p, n);
    ChainRoles(s.mem, g.role, s.initPml4, s.cr3, p.i4, p.i3, p.i2);
    ValuesWith(g.role, b, PathAt(Owner(s, p), p, n));
  }

  /** Frame `b` is allocated and clear, and word `w` can make it the missing level-(n-1) table of page `p`. */
  ghost predicate Linkable(s: Vm, g: Shape, p: Page, n: nat, b: nat, w: nat) {
    && p.i4 != 510 && 2 <= n <= 4 && Location(s.mem, s.cr3, p, n).Some? && Location(s.mem, s.cr3, p, n - 1).None?
    && Counted(s.alloc.counts, b) && b !in g.role && b in s.mem && s.mem[b] == ZeroFrame()
    && IsPresent(w) && IsRw(w) && Base(w) == b && (p.i4 < 510 ==> w == b + RW_USER)
  }

  lemma LinkWord(s: Vm, g: Shape, p: Page, n: nat, b: nat, w: nat, flags: nat)
    requires p.i4 != 510 && 2 <= n <= 4 && Location(s.mem, s.cr3, p, n).Some?
    requires var (f, i) := Location(s.mem, s.cr3, p, n).value; !IsPresent(Word(s.mem, f, i))
    requires Counted(s.alloc.counts, b) && b !in g.role && b in s.mem && s.mem[b] == ZeroFrame() && b % PGSIZE == 0
    requires (flags == 3 || flags == 7) && w == b + flags && (p.i4 < 510 ==> flags == 7)
    ensures Linkable(s, g, p, n, b, w)
  {
    BaseAdd(b, flags);
    FlagsShow(b, flags);
  }

  lemma AddTable(s: Vm, g: Shape, p: Page, n: nat, b: nat, w: nat)
    requires Ok(s, g) && Linkable(s, g, p, n, b, w)
    ensures var (f, i) := Location(s.mem, s.cr3, p, n).value;
            && f in g.role && !g.role[f].PtOf? && FrameOk(s.mem, f) && CanAdd(s.mem, g.role, f, i, b)
            && Ok(s.(mem := Store(s.mem, f, i, w)), g.(role := g.role[b := Child(f, g.role[f], i)]))
            && Location(Store(s.mem, f, i, w), s.cr3, p, n - 1).Some?
  {
    LocationRole(s, g, p, n);
    var (f, i) := Location(s.mem, s.cr3, p, n).value;
    assert FrameOk(s.mem, b);
    AddTableTree(s.mem, g.role, s.initPml4, f, i, b, w);
    AddTableLeaves(s.mem, g.role, s.initPml4, g.maps, f, i, b, w);
    AddedWalk(s.mem, g.role, s.initPml4, f, i, b, w, s.cr3, p.i4, p.i3, p.i2);
    AddedWalk(s.mem, g.role, s.initPml4, f, i, b, w, s.initPml4, Temp(s).i4, Temp(s).i3, Temp(s).i2);
    forall h: nat | h in s.alloc.counts
      ensures FrameOk(Store(s.mem, f, i, w), h)
    {
      assert FrameOk(s.mem, h);
    }
    forall h: nat | h in g.role[b := Child(f, g.role[f], i)]
      ensures Counted(s.alloc.counts, h)
    {
      assert h in g.role ==> Counted(s.alloc.counts, h);
    }
  }

  /** Taking a page, clearing it and linking it in is one extension step. */
  lemma AddTableExtends(s: Vm, g: Shape, s2: Vm, g2: Shape, p: Page, n: nat, b: nat, w: nat)
    requires Ok(s, g) && Ok(s2, g2) && Linkable(s2, g2, p, n, b, w)
    requires g2 == Shape(g.role, Unmap(g.maps, Temp(s))) && s2 == s.(mem := s2.mem, alloc := s.alloc.Take().0)
    requires s.alloc.Take().1 == Got(b)
    requires DataSame(s.mem, s2.mem, g.role[b := Root]) && SameWalks(s.mem, s2.mem, g.role)
    requires Location(s2.mem, s.cr3, p, n).Some?
    ensures var (f, i) := Location(s2.mem, s.cr3, p, n).value;
            f in g.role && !g.role[f].PtOf? && FrameOk(s2.mem, f) && CanAdd(s2.mem, g.role, f, i, b) &&
            Ok(s2.(mem := Store(s2.mem, f, i, w)), g2.(role := g.role[b := Child(f, g.role[f], i)])) &&
            Location(Store(s2.mem, f, i, w), s.cr3, p, n - 1).Some? &&
            Extends(s, g, s2.(mem := Store(s2.mem, f, i, w)), g2.(role := g.role[b := Child(f, g.role[f], i)]), Edited(s, p))
  {
    AddTable(s2, g2, p, n, b, w);
    LocationRole(s2, g2, p, n);
    var (f, i) := Location(s2.mem, s.cr3, p, n).value;
    var role', mem' := g.role[b := Child(f, g.role[f], i)], Store(s2.mem, f, i, w);
    forall h: nat ensures FrameGrown(g.role, s.alloc.counts, role', s2.alloc.counts, h) {
      assert h in g.role ==> Counted(s.alloc.counts, h);
    }
    forall h: nat | h in s.mem && h !in role'
      ensures FrameSame(s.mem, mem', h)
    {
      assert FrameSame(s.mem, s2.mem, h);
    }
    forall r: nat, q: Page | IsRoot(g.role, r) && q.i4 < 510 && Edited(s, p) != Some(r)
      ensures PtSame(s.mem, mem', r, q)
    {
      assert PtSame(s.mem, s2.mem, r, q);
      AddedElsewhere(s2.mem, g.role, s.initPml4, f, i, b, w, r, q);
    }
  }

  /** A walk stops at a table of the role its level says, in the right half. */
  lemma LocationRole(s: Vm, g: Shape, p: Page, n: nat)
    requires Ok(s, g) && p.i4 != 510 && 2 <= n <= 4 && Location(s.mem, s.cr3, p, n).Some?
    ensures var (f, i) := Location(s.mem, s.cr3, p, n).value;
            && f in g.role && FrameOk(s.mem, f) && !g.role[f].PtOf? && Slot(g.role[f], i) == p.i4
            && Above(f, g.role[f]) == (if n == 4 then s.cr3 else Own(s.initPml4, s.cr3, p.i4))
            && (!IsPresent(Word(s.mem, f, i)) ==> Inner(g.role[f], i))
            && (n < 4 ==> !g.role[f].Root?)
  {
    ChainRoles(s.mem, g.role, s.initPml4, s.cr3, p.i4, p.i3, p.i2);
    assert RootOk(s.mem, s.initPml4, s.cr3);
    var (f, i) := Location(s.mem, s.cr3, p, n).value;
    assert FrameOk(s.mem, f);
  }

  /** Taking a free page leaves the tables alone; the page is no table. */
  lemma TookPage(s: Vm, g: Shape, n: nat)
    requires Ok(s, g) && s.alloc.Take().1 == Got(n)
    ensures Ok(s.(alloc := s.alloc.Take().0), g) && n !in g.role
  {
    assert n in g.role ==> Counted(s.alloc.counts, n);
    forall f: nat | f in g.role
      ensures Counted(s.alloc.Take().0.counts, f)
    {
      assert Counted(s.alloc.counts, f);
    }
  }

  /**
   The effect of mapping an unmapped page `p` of the current address space to
   word `w`: the missing tables on its path are added, each on a free frame, the
   temporary window may be unmapped, and no other translation, frame or count
   changes.
   */
  ghost predicate MapsTo(s: Vm, g: Shape, s': Vm, g': Shape, p: Page, w: nat) {
    var o := Own(s.initPml4, s.cr3, p.i4);
    && s' == s.(mem := s'.mem, alloc := s'.alloc)
    && (g'.maps == SetLeaf(g.maps, o, p, w) || g'.maps == SetLeaf(Unmap(g.maps, Temp(s)), o, p, w))
    && Grown(g.role, s.alloc.counts, g'.role, s'.alloc.counts)
    && DataSame(s.mem, s'.mem, g'.role)
    && SamePts(s.mem, s'.mem, g.role, Edited(s, p))
    && TablesAdded(s, g, s', g', Path(o, p), Missing(g.role.Values, o, p))
  }

  /** The two upper tables of a page's path. */
  method EnsureUpper(s: Vm, ghost g: Shape, va: nat, flags: nat) returns (ok: bool, s': Vm, ghost g': Shape)
    requires Ok(s, g) && va < U64 && PageOf(va).i4 != 510
    requires (flags == 3 || flags == 7) && (PageOf(va).i4 < 510 ==> flags == 7)
    ensures Ok(s', g') && Extends(s, g, s', g', Edited(s, PageOf(va)))
    ensures ok ==> Location(s'.mem, s'.cr3, PageOf(va), 2).Some?
    ensures Location(s.mem, s.cr3, PageOf(va), 2).Some? ==> ok && s' == s && g' == g
    ensures var p := PageOf(va); var o, tables := Owner(s, p), g.role.Values;
            var need := Lacks(tables, PathAt(o, p, 4)) + Lacks(tables, PathAt(o, p, 3));
            && (ok <==> need <= |s.alloc.free|)
            && (ok ==> TablesAdded(s, g, s', g', {PathAt(o, p, 4), PathAt(o, p, 3)}, need))
  {
    var p := PageOf(va);
    PathSteps(g.role.Values, Owner(s, p), p);
    var ok1, s1, g1 := EnsureTable(s, g, va, 4, flags);
    if !ok1 { return false, s1, g1; }
    var ok2, s2, g2 := EnsureTable(s1, g1, va, 3, flags);
    ExtendsTrans(s, g, s1, g1, s2, g2, Edited(s, p));
    return ok2, s2, g2;
  }

  method EnsureTables(s: Vm, ghost g: Shape, va: nat, flags: nat) returns (ok: bool, s': Vm, ghost g': Shape)
    requires Ok(s, g) && va < U64 && PageOf(va).i4 != 510
    requires flags == 3 || flags == 7
    requires PageOf(va).i4 < 510 ==> flags == 7
    ensures Ok(s', g') && Extends(s, g, s', g', Edited(s, PageOf(va)))
    ensures ok ==> PtFor(s'.mem, s'.cr3, PageOf(va)).Some?
    ensures PtFor(s.mem, s.cr3, PageOf(va)).Some? ==> ok && s' == s && g' == g
    ensures var p := PageOf(va); var o, tables := Owner(s, p), g.role.Values;
            && (ok <==> Missing(tables, o, p) <= |s.alloc.free|)
            && (ok ==> TablesAdded(s, g, s', g', Path(o, p), Missing(tables, o, p)))
  {
    var p := PageOf(va);
    PathSteps(g.role.Values, Owner(s, p), p);
    var ok1, s1, g1 := EnsureUpper(s, g, va, flags);
    if !ok1 { return false, s1, g1; }
    var ok2, s2, g2 := EnsureTable(s1, g1, va, 2, flags);
    ExtendsTrans(s, g, s1, g1, s2, g2, Edited(s, p));
    return ok2, s2, g2;
  }

  method MapPage(s: Vm, ghost g: Shape, paddr: nat, va: nat, flags: nat) returns (ok: bool, s': Vm, ghost g': Shape)
    requires Ok(s, g) && va < U64 && PageOf(va).i4 != 510
    requires LeafFlags(flags) && (PageOf(va).i4 < 510 ==> flags != 3)
    requires paddr !in g.role && (paddr % PGSIZE == 0 || paddr % PGSIZE == flags)
    ensures Ok(s', g')
    ensures Mapping(s, g, PageOf(va)).Some? ==> ok && g' == g && s' == s.(alloc := s.alloc.Release(paddr).0)
    ensures ok && Mapping(s, g, PageOf(va)).None? ==> MapsTo(s, g, s', g', PageOf(va), Base(paddr) + flags)
    ensures ok <==> Missing(g.role.Values, Owner(s, PageOf(va)), PageOf(va)) <= |s.alloc.free|
    ensures PtFor(s.mem, s.cr3, PageOf(va)).Some? ==> Missing(g.role.Values, Owner(s, PageOf(va)), PageOf(va)) == 0
  {
    var p := PageOf(va);
    WalkIsLookup(s.mem, g.role, s.initPml4, g.maps, s.cr3, p);
    WalkTables(s.mem, g.role, s.initPml4, s.cr3, p);
    var ok1, s1, g1 := EnsureTables(s, g, va, HighFlags(flags));
    if !ok1 {
      return false, s1, g1;
    }
    var pte := ReadPte(s1, g1, va);
    if !IsPresent(pte) {
      var w := OrFlags(paddr, flags);
      ok := true;
      s', g' := WritePte(s1, g1, va, w);
      MapsToIntro(s, g, s1, g1, s', g', p, w);
    } else {
      ReleaseOk(s1, g1, paddr);
      s', g' := s1.(alloc := s1.alloc.Release(paddr).0), g1;
      ok := true;
    }
  }

  lemma MapsToIntro(s: Vm, g: Shape, s1: Vm, g1: Shape, s2: Vm, g2: Shape, p: Page, w: nat)
    requires Ok(s, g) && Extends(s, g, s1, g1, Edited(s, p)) && s2 == s1.(mem := s2.mem)
    requires g2 == Shape(g1.role, SetLeaf(g1.maps, Own(s.initPml4, s.cr3, p.i4), p, w))
    requires DataSame(s1.mem, s2.mem, g1.role) && SameWalks(s1.mem, s2.mem, g1.role)
    requires TablesAdded(s, g, s1, g1, Path(Owner(s, p), p), Missing(g.role.Values, Owner(s, p), p))
    ensures MapsTo(s, g, s2, g2, p, w)
  {
    forall f: nat | f in s.mem && f !in g2.role
      ensures FrameSame(s.mem, s2.mem, f)
    {
      assert FrameSame(s.mem, s1.mem, f) && FrameSame(s1.mem, s2.mem, f);
    }
    forall r: nat, q: Page | IsRoot(g.role, r) && q.i4 < 510 && Edited(s, p) != Some(r)
      ensures PtSame(s.mem, s2.mem, r, q)
    {
      assert FrameGrown(g.role, s.alloc.counts, g1.role, s1.alloc.counts, r);
      assert PtSame(s.mem, s1.mem, r, q) && PtSame(s1.mem, s2.mem, r, q);
    }
  }

  /** Giving back a page that is no table keeps the tables allocated. */
  lemma ReleaseOk(s: Vm, g: Shape, ptr: nat)
    requires Ok(s, g) && ptr !in g.role
    ensures Ok(s.(alloc := s.alloc.Release(ptr).0), g)
  {
    forall f: nat | f in g.role
      ensures Counted(s.alloc.Release(ptr).0.counts, f)
    {
      assert Counted(s.alloc.counts, f);
    }
  }

  // ----------------------------------------- kernel window: kmalloc, alloc_pml4

  /** Address of a page of the kernel half. */
  function Addr(p: Page): nat {
    0xFFFF_0000_0000_0000 + p.i4 * 0x80_0000_0000 + p.i3 * 0x4000_0000 + p.i2 * 0x20_0000 + p.i1 * 0x1000
  }

  lemma KernelAddr(va: nat)
    requires KERN <= va < U64 && va % PGSIZE == 0
    ensures PageOf(va).i4 == 511 && Addr(PageOf(va)) == va
  {
    var high, off := Digits(va);
    assert high == 0xFFFF && off == 0;
  }

  /** Virtual address of the boot PML4 (init_pml4). */
  function InitPml4Addr(s: Vm): nat {
    KERN + s.initPml4
  }

  predicate Below(p: Page, bound: nat) {
    Addr(p) < bound
  }

  /** All mapped kernel pages lie below `bound` and are writable, and page `ip` maps frame `k`. */
  ghost predicate KernMaps(kern: map<Page, nat>, bound: nat, ip: Page, k: nat) {
    && (forall p: Page {:trigger Below(p, bound)} :: p in kern ==> Below(p, bound))
    && (forall p: Page {:trigger kern[p]} :: p in kern ==> IsRw(kern[p]))
    && ip in kern && Base(kern[ip]) == k
  }

  /** Kernel pages from freeAddr on are unmapped; the boot PML4 is mapped at its window address. */
  ghost predicate Window(s: Vm, g: Shape) {
    && KERN <= s.freeAddr && s.freeAddr % PGSIZE == 0
    && PageOf(InitPml4Addr(s)) != Temp(s) && Below(Temp(s), s.freeAddr)
    && KernMaps(g.maps.kern, s.freeAddr, PageOf(InitPml4Addr(s)), s.initPml4)
  }

  /** Frame `f`, if it was allocated and no table, still is, with the same count and contents. */
  ghost predicate Kept(a: map<nat, nat>, mem: Memory, role: Roles, a': map<nat, nat>, mem': Memory, role': Roles, f: nat) {
    Counted(a, f) && f !in role ==> f !in role' && f in a' && a'[f] == a[f] && FrameSame(mem, mem', f)
  }

  ghost predicate AllKept(a: map<nat, nat>, mem: Memory, role: Roles, a': map<nat, nat>, mem': Memory, role': Roles) {
    forall f: nat {:trigger Kept(a, mem, role, a', mem', role', f)} :: Kept(a, mem, role, a', mem', role', f)
  }

  /** Every kernel page but the temporary window `t` stays mapped as it was. */
  ghost predicate KernKept(kern: map<Page, nat>, kern': map<Page, nat>, t: Page) {
    forall p: Page {:trigger p in kern'} :: p in kern && p != t ==> p in kern' && kern'[p] == kern[p]
  }

  /** A table below slot 510. */
  predicate UserTable(t: Role) {
    !t.Root? && t.a < 510
  }

  /** No user table was added. */
  ghost predicate UserTablesSame(tables: set<Role>, tables': set<Role>) {
    forall t: Role {:trigger t in tables'} :: UserTable(t) && t in tables' ==> t in tables
  }

  /** A step that leaves every user mapping, every kernel mapping and every allocated data frame alone. */
  ghost predicate Preserves(s: Vm, g: Shape, s': Vm, g': Shape) {
    && g'.maps.user == g.maps.user && KernKept(g.maps.kern, g'.maps.kern, Temp(s))
    && s'.cr3 == s.cr3 && s'.initPml4 == s.initPml4 && s'.tempAddr == s.tempAddr
    && s'.alloc.counts.Keys == s.alloc.counts.Keys
    && g.role.Keys <= g'.role.Keys && (forall r: nat :: IsRoot(g.role, r) ==> IsRoot(g'.role, r))
    && AllKept(s.alloc.counts, s.mem, g.role, s'.alloc.counts, s'.mem, g'.role)
    && SamePts(s.mem, s'.mem, g.role, None)
    && UserTablesSame(g.role.Values, g'.role.Values)
  }

  lemma PreservesTrans(s: Vm, g: Shape, s1: Vm, g1: Shape, s2: Vm, g2: Shape)
    requires Preserves(s, g, s1, g1) && Preserves(s1, g1, s2, g2)
    ensures Preserves(s, g, s2, g2)
  {
    forall f: nat ensures Kept(s.alloc.counts, s.mem, g.role, s2.alloc.counts, s2.mem, g2.role, f) {
      assert Kept(s.alloc.counts, s.mem, g.role, s1.alloc.counts, s1.mem, g1.role, f) && Kept(s1.alloc.counts, s1.mem, g1.role, s2.alloc.counts, s2.mem, g2.role, f);
    }
    forall r: nat, p: Page | IsRoot(g.role, r) && p.i4 < 510
      ensures PtSame(s.mem, s2.mem, r, p)
    {
      assert PtSame(s.mem, s1.mem, r, p) && PtSame(s1.mem, s2.mem, r, p);
    }
  }

  /** Taking a page off the free list. */
  lemma TakePreserves(s: Vm, g: Shape)
    requires Ok(s, g) && s.alloc.Take().1.Got?
    ensures Preserves(s, g, s.(alloc := s.alloc.Take().0), g)
  {
    forall f: nat ensures Kept(s.alloc.counts, s.mem, g.role, s.alloc.Take().0.counts, s.mem, g.role, f) {
      assert Counted(s.alloc.counts, f) ==> f in s.alloc.counts;
      assert f in s.alloc.counts ==> FrameOk(s.mem, f);
    }
  }

  /** Mapping an unmapped kernel page. */
  lemma MapsToPreserves(s: Vm, g: Shape, s': Vm, g': Shape, p: Page, w: nat)
    requires Ok(s, g) && MapsTo(s, g, s', g', p, w) && p.i4 == 511 && p !in g.maps.kern
    ensures Preserves(s, g, s', g')
  {
    forall f: nat ensures Kept(s.alloc.counts, s.mem, g.role, s'.alloc.counts, s'.mem, g'.role, f) {
      assert FrameGrown(g.role, s.alloc.counts, g'.role, s'.alloc.counts, f);
      assert f in s.alloc.counts ==> FrameOk(s.mem, f);
      assert f in s.mem && f !in g'.role ==> FrameSame(s.mem, s'.mem, f);
    }
    forall f: nat | f in g.role ensures f in g'.role && g'.role[f] == g.role[f] {
      assert FrameGrown(g.role, s.alloc.counts, g'.role, s'.alloc.counts, f);
    }
  }

  /** The page at freeAddr is unmapped, so a new mapping there raises the bound. */
  lemma KernMapsGrow(kern: map<Page, nat>, bound: nat, ip: Page, k: nat, p: Page, w: nat, t: Page, next: nat)
    requires KernMaps(kern, bound, ip, k) && Addr(p) == bound < next && ip != t && IsRw(w)
    ensures p !in kern && KernMaps(kern[p := w], next, ip, k) && KernMaps((kern - {t})[p := w], next, ip, k)
  {
    assert p in kern ==> Below(p, bound);
    forall q: Page | q in kern[p := w]
      ensures Below(q, next)
    {
      assert q in kern ==> Below(q, bound);
    }
  }

  lemma FreePage(s: Vm, g: Shape)
    requires Window(s, g) && s.freeAddr < U64
    ensures PageOf(s.freeAddr).i4 == 511 && PageOf(s.freeAddr) !in g.maps.kern
  {
    KernelAddr(s.freeAddr);
    NotBelow(PageOf(s.freeAddr), s.freeAddr);
  }

  lemma NotBelow(p: Page, bound: nat)
    requires Addr(p) == bound
    ensures !Below(p, bound)
  {
  }

  lemma AlignedNext(x: nat)
    requires x % PGSIZE == 0
    ensures (x + PGSIZE) % PGSIZE == 0 && (x + 8 * PGSIZE) % PGSIZE == 0
  {
  }

  /** A frame address and leaf flags make a present word for that frame. */
  lemma FlagWord(b: nat, flags: nat)
    requires b % PGSIZE == 0 && LeafFlags(flags)
    ensures Base(b + flags) == b == Base(b) && IsPresent(b + flags) && IsRw(b + flags) == IsRw(flags)
  {
    BaseAdd(b, flags);
    FlagsShow(b, flags);
  }

  /** A kernel-side step after which the window ends at `next`. */
  ghost predicate WindowGrew(s: Vm, g: Shape, s': Vm, g': Shape, next: nat) {
    Ok(s', g') && Window(s', g') && Preserves(s, g, s', g') && s'.freeAddr == next
  }

  lemma GrewAfter(s: Vm, g: Shape, s1: Vm, g1: Shape, s': Vm, g': Shape, next: nat)
    requires Preserves(s, g, s1, g1) && WindowGrew(s1, g1, s', g', next)
    ensures WindowGrew(s, g, s', g', next)
  {
    PreservesTrans(s, g, s1, g1, s', g');
  }

  /** The allocated frames that are no tables. */
  ghost function Bare(s: Vm, g: Shape): set<nat> {
    set f | f in s.alloc.counts && s.alloc.counts[f] > 0 && f !in g.role
  }

  /** A step that adds tables takes free frames for them. */
  lemma BareGrown(s: Vm, g: Shape, s': Vm, g': Shape)
    requires Ok(s, g) && Grown(g.role, s.alloc.counts, g'.role, s'.alloc.counts)
    ensures Bare(s', g') == Bare(s, g)
  {
    forall f: nat ensures f in Bare(s', g') <==> f in Bare(s, g) {
      assert FrameGrown(g.role, s.alloc.counts, g'.role, s'.alloc.counts, f);
    }
  }

  lemma BareTaken(s: Vm, g: Shape, b: nat)
    requires Ok(s, g) && s.alloc.Take().1 == Got(b)
    ensures Bare(s.(alloc := s.alloc.Take().0), g) == Bare(s, g) + {b} && b !in Bare(s, g)
  {
    TookPage(s, g, b);
  }

  /** Tables the next page of the kernel window lacks. */
  function WindowTables(s: Vm, g: Shape): nat {
    Missing(g.role.Values, s.initPml4, PageOf(s.freeAddr))
  }

  /** map_page at kern_free_addr, followed by the bump of kern_free_addr to `next`. */
  method MapAtFree(s: Vm, ghost g: Shape, b: nat, flags: nat, next: nat) returns (ok: bool, s': Vm, ghost g': Shape)
    requires Ok(s, g) && Window(s, g) && s.freeAddr < next <= U64 && next % PGSIZE == 0
    requires LeafFlags(flags) && IsRw(flags) && Counted(s.alloc.counts, b) && b !in g.role
    ensures Ok(s', g') && (ok ==> WindowGrew(s, g, s', g', next))
    ensures ok ==> Mapping(s', g', PageOf(s.freeAddr)) == Some(b + flags) && PageOf(s.freeAddr).i4 == 511
    ensures ok ==> b !in g'.role && Counted(s'.alloc.counts, b) && FrameOk(s'.mem, b) && FrameSame(s.mem, s'.mem, b)
    ensures ok ==> s'.alloc.counts[b] == s.alloc.counts[b]
    ensures ok <==> WindowTables(s, g) <= |s.alloc.free|
    ensures ok ==> TablesAdded(s, g, s', g', Path(s.initPml4, PageOf(s.freeAddr)), WindowTables(s, g))
    ensures ok ==> Bare(s', g') == Bare(s, g)
  {
    FreePage(s, g);
    assert FrameOk(s.mem, b);
    FlagWord(b, flags);
    var ok2, s2, g2 := MapPage(s, g, b, s.freeAddr, flags);
    if !ok2 {
      return false, s2, g2;
    }
    MapsToPreserves(s, g, s2, g2, PageOf(s.freeAddr), b + flags);
    MapsToWindow(s, g, s2, g2, s.freeAddr, b + flags, next);
    BareGrown(s, g, s2, g2);
    assert Kept(s.alloc.counts, s.mem, g.role, s2.alloc.counts, s2.mem, g2.role, b);
    return true, s2.(freeAddr := next), g2;
  }

  lemma BelowMono(p: Page, bound: nat, next: nat)
    requires Below(p, bound) && bound <= next
    ensures Below(p, next)
  {
  }

  lemma MapsToWindow(s: Vm, g: Shape, s': Vm, g': Shape, va: nat, w: nat, next: nat)
    requires Window(s, g) && MapsTo(s, g, s', g', PageOf(va), w) && IsPresent(w) && IsRw(w)
    requires va == s.freeAddr < next <= U64 && next % PGSIZE == 0
    ensures Window(s'.(freeAddr := next), g')
  {
    KernelAddr(va);
    KernMapsGrow(g.maps.kern, s.freeAddr, PageOf(InitPml4Addr(s)), s.initPml4, PageOf(va), w, Temp(s), next);
    BelowMono(Temp(s), s.freeAddr, next);
  }

  /** The first half of kmalloc: a free page mapped in the kernel window. */
  method MapWindowPage(s: Vm, ghost g: Shape, next: nat) returns (ok: bool, b: nat, s': Vm, ghost g': Shape)
    requires Ok(s, g) && Window(s, g) && s.freeAddr < next <= U64 && next % PGSIZE == 0
    ensures Ok(s', g')
    ensures ok ==> Window(s', g') && Preserves(s, g, s', g') && s'.freeAddr == next
    ensures ok ==> Mapping(s', g', PageOf(s.freeAddr)) == Some(b + 3) && PageOf(s.freeAddr).i4 == 511 && b % PGSIZE == 0
    ensures ok ==> b in s.alloc.counts && s.alloc.counts[b] == 0 && b in s'.alloc.counts && s'.alloc.counts[b] == 1 && b !in g'.role && FrameOk(s'.mem, b)
    ensures ok <==> 1 + WindowTables(s, g) <= |s.alloc.free|
    ensures ok ==> TablesAdded(s, g, s', g', Path(s.initPml4, PageOf(s.freeAddr)), 1 + WindowTables(s, g))
    ensures ok ==> Bare(s', g') == Bare(s, g) + {b}
  {
    var (alloc, r) := s.alloc.Take();
    if r.OutOfMemory? {
      return false, 0, s, g;
    }
    b := r.base;
    var s1 := s.(alloc := alloc);
    TakenPage(s, g, b);
    ok, s', g' := MapAtFree(s1, g, b, PAGE_P + PAGE_RW, next);
    if ok {
      GrewAfter(s, g, s1, g, s', g', next);
    }
  }

  lemma TakenPage(s: Vm, g: Shape, b: nat)
    requires Ok(s, g) && s.alloc.Take().1 == Got(b)
    ensures var s1 := s.(alloc := s.alloc.Take().0);
            && Ok(s1, g) && Preserves(s, g, s1, g) && Bare(s1, g) == Bare(s, g) + {b}
            && b in s.alloc.counts && s.alloc.counts[b] == 0 && s1.alloc.counts == s.alloc.counts[b := 1] && b !in g.role && b % PGSIZE == 0
  {
    TookPage(s, g, b);
    BareTaken(s, g, b);
    TakePreserves(s, g);
    assert FrameOk(s.mem, b);
  }

  /** kmalloc: a cleared page at the next kernel window address. */
  method Kmalloc(s: Vm, ghost g: Shape) returns (ok: bool, va: nat, s': Vm, ghost g': Shape)
    requires Ok(s, g) && Window(s, g) && s.freeAddr + PGSIZE <= U64
    ensures Ok(s', g')
    ensures ok ==> Window(s', g') && Preserves(s, g, s', g')
    ensures ok ==> va == s.freeAddr && s'.freeAddr == va + PGSIZE
    ensures ok ==> Mapping(s, g, PageOf(va)).None? && Mapping(s', g', PageOf(va)).Some?
    ensures ok ==> var f := Base(Mapping(s', g', PageOf(va)).value);
                   && Mapping(s', g', PageOf(va)) == Some(f + PAGE_P + PAGE_RW)
                   && f in s.alloc.counts && s.alloc.counts[f] == 0 && f in s'.alloc.counts && s'.alloc.counts[f] == 1
                   && f !in g'.role && f in s'.mem && s'.mem[f] == ZeroFrame()
    ensures ok <==> 1 + WindowTables(s, g) <= |s.alloc.free|
    ensures ok ==> TablesAdded(s, g, s', g', Path(s.initPml4, PageOf(s.freeAddr)), 1 + WindowTables(s, g))
    ensures ok ==> Bare(s', g') == Bare(s, g) + {Base(Mapping(s', g', PageOf(va)).value)}
  {
    va := s.freeAddr;
    FreePage(s, g);
    AlignedNext(va);
    var ok1, b, s1, g1 := MapWindowPage(s, g, va + PGSIZE);
    if !ok1 {
      return false, va, s1, g1;
    }
    FlagWord(b, 3);
    var f := FrameAt(s1, g1, va);
    DataStore(s1, g1, f, ZeroFrame());
    FreshStorePreserves(s, g, s1, g1, f, ZeroFrame());
    return true, va, s1.(mem := s1.mem[f := ZeroFrame()]), g1;
  }

  /** get_free_page and zero_page */
  method TakeCleared(s: Vm, ghost g: Shape) returns (ok: bool, b: nat, s': Vm, ghost g': Shape)
    requires Ok(s, g) && Window(s, g)
    ensures ok ==> Ok(s', g') && Window(s', g') && Preserves(s, g, s', g') && s'.freeAddr == s.freeAddr
    ensures ok ==> b in s.alloc.counts && s.alloc.counts[b] == 0 && Counted(s'.alloc.counts, b) && b !in g.role && b !in g'.role
    ensures ok ==> b % PGSIZE == 0 && b in s'.mem && s'.mem[b] == ZeroFrame()
    ensures ok <==> s.alloc.free != []
    ensures ok ==> g'.role == g.role && |s'.alloc.free| == |s.alloc.free| - 1
    ensures ok ==> Bare(s', g') == Bare(s, g) + {b}
  {
    var (alloc, r) := s.alloc.Take();
    if r.OutOfMemory? {
      return false, 0, s, g;
    }
    b := r.base;
    TookPage(s, g, b);
    BareTaken(s, g, b);
    assert FrameOk(s.mem, b);
    ok := true;
    s', g' := ZeroPage(s.(alloc := alloc), g, b);
    ZeroPreserves(s, g, s', g', b);
  }

  /** The first half of alloc_pml4: a cleared page mapped in the kernel window. */
  method NewWindowPage(s: Vm, ghost g: Shape, next: nat) returns (ok: bool, b: nat, s': Vm, ghost g': Shape)
    requires Ok(s, g) && Window(s, g) && s.freeAddr < next <= U64 && next % PGSIZE == 0
    ensures ok ==> WindowGrew(s, g, s', g', next)
    ensures ok ==> Mapping(s', g', PageOf(s.freeAddr)) == Some(b + RW_USER) && PageOf(s.freeAddr).i4 == 511 && b % PGSIZE == 0
    ensures ok ==> b in s.alloc.counts && s.alloc.counts[b] == 0 && Counted(s'.alloc.counts, b) && b !in g.role && b !in g'.role
    ensures ok ==> b in s'.mem && s'.mem[b] == ZeroFrame()
    ensures ok <==> 1 + WindowTables(s, g) <= |s.alloc.free|
    ensures ok ==> TablesAdded(s, g, s', g', Path(s.initPml4, PageOf(s.freeAddr)), 1 + WindowTables(s, g))
    ensures ok ==> Bare(s', g') == Bare(s, g) + {b}
  {
    var ok1, b1, s1, g1 := TakeCleared(s, g);
    b := b1;
    if !ok1 {
      return false, b, s1, g1;
    }
    ok, s', g' := MapAtFree(s1, g1, b, RW_USER, next);
    if ok {
      GrewAfter(s, g, s1, g1, s', g', next);
    }
  }

  /**
   alloc_pml4: a new address space with an empty user half. kern_free_addr is a
   uint64_t pointer there, so adding PGSIZE to it skips eight pages.
   */
  method AllocPml4(s: Vm, ghost g: Shape) returns (ok: bool, pml4: nat, s': Vm, ghost g': Shape)
    requires Ok(s, g) && Window(s, g) && s.freeAddr + 8 * PGSIZE <= U64
    ensures ok ==> Ok(s', g') && Window(s', g') && Preserves(s, g, s', g') && s'.freeAddr == s.freeAddr + 8 * PGSIZE
    ensures ok ==> IsRoot(g'.role, pml4) && pml4 !in g.role
    ensures ok ==> forall p: Page :: (pml4, p) !in g'.maps.user
    ensures ok <==> 1 + WindowTables(s, g) <= |s.alloc.free|
    ensures ok ==> TablesAdded(s, g, s', g', Path(s.initPml4, PageOf(s.freeAddr)), 1 + WindowTables(s, g))
    ensures ok ==> Bare(s', g') == Bare(s, g)
  {
    AlignedNext(s.freeAddr);
    ok, pml4, s', g' := NewWindowPage(s, g, s.freeAddr + 8 * PGSIZE);
    if ok {
      FlagWord(pml4, RW_USER);
      var vir := FrameAt(s', g', s.freeAddr);
      var init := InitPml4Frame(s', g');
      NoUserHalf(s, g, pml4);
      var root := RootFrame(s'.mem[vir], Word(s'.mem, init, 511), pml4);
      NewRoot(s, g, s', g', pml4, root);
      s', g' := s'.(mem := s'.mem[vir := root]), g'.(role := g'.role[pml4 := Root]);
    }
  }

  /** A root's two words: the kernel's half and the recursive entry. */
  function RootFrame(frame: seq<nat>, kernel: nat, pml4: nat): seq<nat>
    requires |frame| == 512
  {
    frame[511 := kernel][510 := pml4 + PAGE_P + PAGE_RW]
  }

  /** The frame init_pml4 points at. */
  method InitPml4Frame(s: Vm, ghost g: Shape) returns (f: nat)
    requires Ok(s, g) && Window(s, g)
    ensures f == s.initPml4
  {
    assert PageOf(InitPml4Addr(s)).i4 == 511;
    f := FrameAt(s, g, InitPml4Addr(s));
  }

  /** Overwriting a frame that was free before disturbs nothing that was there. */
  lemma FreshStorePreserves(s: Vm, g: Shape, s2: Vm, g2: Shape, f: nat, frame: seq<nat>)
    requires Preserves(s, g, s2, g2) && !Counted(s.alloc.counts, f) && f in s2.mem
    requires SameWalks(s2.mem, s2.mem[f := frame], g2.role)
    ensures Preserves(s, g, s2.(mem := s2.mem[f := frame]), g2)
  {
    var s3 := s2.(mem := s2.mem[f := frame]);
    forall h: nat ensures Kept(s.alloc.counts, s.mem, g.role, s3.alloc.counts, s3.mem, g2.role, h) {
      assert Kept(s.alloc.counts, s.mem, g.role, s2.alloc.counts, s2.mem, g2.role, h);
    }
    forall r: nat, p: Page | IsRoot(g.role, r) && p.i4 < 510
      ensures PtSame(s.mem, s3.mem, r, p)
    {
      assert PtSame(s.mem, s2.mem, r, p) && PtSame(s2.mem, s3.mem, r, p);
    }
  }

  /** Taking and clearing a page. */
  lemma ZeroPreserves(s: Vm, g: Shape, s2: Vm, g2: Shape, b: nat)
    requires Ok(s, g) && Window(s, g) && s.alloc.Take().1 == Got(b)
    requires s2 == s.(alloc := s.alloc.Take().0, mem := s2.mem) && g2 == Shape(g.role, Unmap(g.maps, Temp(s)))
    requires DataSame(s.mem, s2.mem, g.role[b := Root]) && SameWalks(s.mem, s2.mem, g.role)
    ensures Preserves(s, g, s2, g2) && Window(s2, g2)
  {
    forall f: nat ensures Kept(s.alloc.counts, s.mem, g.role, s2.alloc.counts, s2.mem, g2.role, f) {
      assert f in s.alloc.counts ==> FrameOk(s.mem, f);
      assert f in s.mem && f !in g.role[b := Root] ==> FrameSame(s.mem, s2.mem, f);
    }
    forall p: Page | p in g2.maps.kern ensures Below(p, s2.freeAddr) {
      assert p in g.maps.kern;
    }
  }

  /** Writing slots 510 and 511 of a cleared, freshly allocated frame makes it a root. */
  lemma NewRoot(s: Vm, g: Shape, s3: Vm, g3: Shape, b: nat, root: seq<nat>)
    requires Ok(s, g) && Ok(s3, g3) && Preserves(s, g, s3, g3)
    requires b in s.alloc.counts && s.alloc.counts[b] == 0 && Counted(s3.alloc.counts, b) && b !in g3.role
    requires root == ZeroFrame()[511 := Word(s3.mem, s3.initPml4, 511)][510 := b + PAGE_P + PAGE_RW]
    ensures var s', g' := s3.(mem := s3.mem[b := root]), g3.(role := g3.role[b := Root]);
            Ok(s', g') && Preserves(s, g, s', g') && g'.role.Values == g3.role.Values && Bare(s', g') == Bare(s3, g3) - {b}
  {
    RootAgain(g3.role, b, s.cr3);
    var s4 := s3.(mem := s3.mem[b := root]);
    var role' := g3.role[b := Root];
    assert FrameOk(s3.mem, b);
    DataStore(s3, g3, b, root);
    assert FrameOk(s3.mem, s3.initPml4) && FrameOk(s4.mem, b);
    AddRoot(s4.mem, g3.role, s4.initPml4, g3.maps, b);
    forall f: nat | f in role' ensures Counted(s4.alloc.counts, f) {
      assert f in g3.role ==> Counted(s3.alloc.counts, f);
    }
    FreshStorePreserves(s, g, s3, g3, b, root);
    forall f: nat ensures Kept(s.alloc.counts, s.mem, g.role, s4.alloc.counts, s4.mem, role', f) {
      assert Kept(s.alloc.counts, s.mem, g.role, s4.alloc.counts, s4.mem, g3.role, f);
    }
  }

  lemma RootAgain(role: Roles, b: nat, r: nat)
    requires b !in role && IsRoot(role, r)
    ensures role[b := Root].Values == role.Values
  {
    ValuesWith(role, b, Root);
    assert role[r] == Root;
    assert Root in role.Values;
  }

  lemma NoUserHalf(s: Vm, g: Shape, b: nat)
    requires Ok(s, g) && b !in g.role
    ensures forall p: Page :: (b, p) !in g.maps.user
  {
    forall p: Page ensures (b, p) !in g.maps.user {
      assert Lookup(g.maps, b, p).Some? ==> Backed(s.mem, g.role, s.initPml4, b, p);
    }
  }
}
