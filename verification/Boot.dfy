/** The first page tables: `init_pging` in `sys/pging.c`. */
module Boot {
  import opened Options
  import opened Bits
  import opened Machine
  import opened Pmap
  import opened Pointers
  import opened PageTable
  import opened Paging

  const VIDEO := 0xFFFF_FFFF_800B_8000
  const KERNEL_PHYS := 0x20_0000

  /** The four boot tables end at physfree, the kernel image with them fits the one page table for 2M-4M. */
  ghost predicate BootRange(physfree: nat) {
    physfree % PGSIZE == 0 && KERNEL_PHYS + 4 * PGSIZE <= physfree && physfree + 2 * PGSIZE <= 2 * KERNEL_PHYS
  }

  ghost predicate ClearFrame(alloc: Alloc, mem: Memory, f: nat) {
    Counted(alloc.counts, f) && f in mem && mem[f] == ZeroFrame()
  }

  /** The four frames from `k` on, for the boot tables, are cleared and allocated. */
  ghost predicate BootFrames(alloc: Alloc, mem: Memory, k: nat) {
    && alloc.Valid()
    && (forall f: nat {:trigger FrameOk(mem, f)} :: f in alloc.counts ==> FrameOk(mem, f))
    && ClearFrame(alloc, mem, k) && ClearFrame(alloc, mem, k + 0x1000)
    && ClearFrame(alloc, mem, k + 0x2000) && ClearFrame(alloc, mem, k + 0x3000)
  }

  function KernelPages(physfree: nat): int {
    (physfree - KERNEL_PHYS) / PGSIZE
  }

  /** The boot page table maps the kernel image, page after page, writable for the kernel only. */
  method FillKernelTable(n: nat) returns (pt: seq<nat>)
    requires n <= 512
    ensures |pt| == 512
    ensures forall i :: 0 <= i < 512 ==> pt[i] == if i < n then KERNEL_PHYS + i * PGSIZE + 3 else 0
  {
    pt := ZeroFrame();
    var kern := KERNEL_PHYS;
    for i := 0 to n
      invariant |pt| == 512 && kern == KERNEL_PHYS + i * PGSIZE
      invariant forall j :: 0 <= j < 512 ==> pt[j] == if j < i then KERNEL_PHYS + j * PGSIZE + 3 else 0
    {
      pt := pt[i := kern + PAGE_P + PAGE_RW];
      kern := kern + PGSIZE;
    }
  }

  /** The leaf words of the kernel image. */
  ghost function KernelLeaves(n: nat): map<Page, nat>
    requires n <= 512
  {
    map i: int | 0 <= i < n :: Page(511, 510, 1, i) := KERNEL_PHYS + i * PGSIZE + 3
  }

  /** The boot tables as written: self reference, one path to one page table, and its leaves. */
  ghost predicate BootTables(mem: Memory, k: nat, n: nat) {
    && FrameOk(mem, k) && FrameOk(mem, k + 0x1000) && FrameOk(mem, k + 0x2000) && FrameOk(mem, k + 0x3000)
    && mem[k] == ZeroFrame()[510 := k + 3][511 := k + 0x1000 + 3]
    && mem[k + 0x1000] == ZeroFrame()[510 := k + 0x2000 + 3]
    && mem[k + 0x2000] == ZeroFrame()[1 := k + 0x3000 + 3]
    && (forall i :: 0 <= i < 512 ==> mem[k + 0x3000][i] == if i < n then KERNEL_PHYS + i * PGSIZE + 3 else 0)
  }

  ghost function BootRoles(k: nat): Roles {
    map[k := Root, k + 0x1000 := PdptOf(k, 511), k + 0x2000 := PdOf(k, 511, 510), k + 0x3000 := PtOf(k, 511, 510, 1)]
  }

  lemma BootWalks(mem: Memory, k: nat, n: nat)
    requires BootTables(mem, k, n)
    ensures WalkPdpt(mem, k, 511) == Some(k + 0x1000)
    ensures WalkPd(mem, k, 511, 510) == Some(k + 0x2000)
    ensures WalkPt(mem, k, 511, 510, 1) == Some(k + 0x3000)
  {
    BaseAdd(k + 0x1000, 3);
    BaseAdd(k + 0x2000, 3);
    BaseAdd(k + 0x3000, 3);
  }

  lemma BootInner(mem: Memory, k: nat, n: nat, f: nat, i: Index)
    requires BootTables(mem, k, n) && f in BootRoles(k)
    ensures InnerOk(mem, BootRoles(k), f, i)
  {
    BaseAdd(k + 0x2000, 3);
    BaseAdd(k + 0x3000, 3);
  }

  lemma BootTree(mem: Memory, k: nat, n: nat)
    requires BootTables(mem, k, n)
    ensures Tree(mem, BootRoles(k), k)
  {
    var role := BootRoles(k);
    BootRoot(mem, k, n);
    forall f: nat | f in role ensures Linked(mem, role, role[f], f) && FrameOk(mem, f) {
      BootLinked(mem, k, n, f);
    }
    forall f: nat, i: Index | f in role ensures InnerOk(mem, role, f, i) {
      BootInner(mem, k, n, f, i);
    }
  }

  lemma BootRoot(mem: Memory, k: nat, n: nat)
    requires BootTables(mem, k, n)
    ensures var role := BootRoles(k);
            && IsRoot(role, k) && (forall r: nat :: IsRoot(role, r) ==> r == k) && RootOk(mem, k, k)
            && IsPresent(Word(mem, k, 511)) && ChildOk(role, k, Root, 511, Word(mem, k, 511))
            && Word(mem, k, 511) == Base(Word(mem, k, 511)) + PAGE_P + PAGE_RW
  {
    BaseAdd(k + 0x1000, 3);
    BaseAdd(k, 3);
  }

  lemma BootLinked(mem: Memory, k: nat, n: nat, f: nat)
    requires BootTables(mem, k, n) && f in BootRoles(k)
    ensures Linked(mem, BootRoles(k), BootRoles(k)[f], f) && FrameOk(mem, f)
  {
    BootWalks(mem, k, n);
  }

  lemma BootLeaves(mem: Memory, k: nat, n: nat)
    requires BootTables(mem, k, n) && n <= 512
    ensures Leaves(mem, BootRoles(k), k, Maps(map[], KernelLeaves(n)))
  {
    var role, m := BootRoles(k), Maps(map[], KernelLeaves(n));
    BootWalks(mem, k, n);
    forall f: nat, i: Index | f in role && role[f].PtOf? ensures LeafOk(mem, m, role[f], f, i) {
      KernelLeaf(n, i);
    }
    forall o: nat, p: Page | Lookup(m, o, p).Some? ensures Backed(mem, role, k, o, p) {
    }
  }

  lemma KernelLeaf(n: nat, i: Index)
    requires n <= 512
    ensures Page(511, 510, 1, i) in KernelLeaves(n) <==> i < n
    ensures i < n ==> KernelLeaves(n)[Page(511, 510, 1, i)] == KERNEL_PHYS + i * PGSIZE + 3
    ensures IsPresent(KERNEL_PHYS + i * PGSIZE + 3) && Base(KERNEL_PHYS + i * PGSIZE + 3) == KERNEL_PHYS + i * PGSIZE
  {
    BaseAdd(KERNEL_PHYS + i * PGSIZE, 3);
  }

  /** Pages of the kernel's second 2M are under the one boot page table. */
  lemma BootPage(va: nat)
    requires KERNBASE <= va < KERNBASE + 0x20_0000
    ensures PageOf(va) == Page(511, 510, 1, (va - KERNBASE) / PGSIZE)
  {
    var i, off := (va - KERNBASE) / PGSIZE, (va - KERNBASE) % PGSIZE;
    FromDigits(0xFFFF, Page(511, 510, 1, i), off);
  }

  lemma BootAddr(i: Index)
    ensures Addr(Page(511, 510, 1, i)) == KERNBASE + i * PGSIZE
  {
  }

  lemma BootWindow(s: Vm, g: Shape, physfree: nat)
    requires BootRange(physfree) && s.initPml4 == physfree - 0x4000
    requires s.tempAddr == KERN + physfree + PGSIZE && s.freeAddr == KERN + physfree + 2 * PGSIZE
    requires g.maps.kern == KernelLeaves(KernelPages(physfree))
    ensures Window(s, g) && Temp(s).i4 == 511 && Temp(s).i3 == 510 && Temp(s).i2 == 1
  {
    var n := KernelPages(physfree);
    var i := (s.initPml4 - KERNEL_PHYS) / PGSIZE;
    assert i < n && s.initPml4 == KERNEL_PHYS + i * PGSIZE;
    BootPage(InitPml4Addr(s));
    BootPage(s.tempAddr);
    KernelLeaf(n, i);
    BootAddr((s.tempAddr - KERNBASE) / PGSIZE);
    forall p: Page | p in g.maps.kern ensures Below(p, s.freeAddr) {
      BootAddr(p.i1);
    }
  }

  /** The state when cr3 is loaded: the boot tables and nothing else. */
  lemma BootOk(s: Vm, physfree: nat)
    requires BootRange(physfree) && s.initPml4 == physfree - 0x4000 && s.cr3 == s.initPml4
    requires s.tempAddr == KERN + physfree + PGSIZE && s.freeAddr == KERN + physfree + 2 * PGSIZE
    requires BootTables(s.mem, s.initPml4, KernelPages(physfree)) && s.alloc.Valid()
    requires Frames(s.mem, BootRoles(s.initPml4), s.alloc.counts)
    ensures var g := Shape(BootRoles(s.initPml4), Maps(map[], KernelLeaves(KernelPages(physfree))));
            Ok(s, g) && Window(s, g)
  {
    var g := Shape(BootRoles(s.initPml4), Maps(map[], KernelLeaves(KernelPages(physfree))));
    BootTree(s.mem, s.initPml4, KernelPages(physfree));
    BootLeaves(s.mem, s.initPml4, KernelPages(physfree));
    BootWalks(s.mem, s.initPml4, KernelPages(physfree));
    BootWindow(s, g, physfree);
  }

  /** The table writes of init_pging, made through physical addresses. */
  method WriteBootTables(alloc: Alloc, mem: Memory, physfree: nat) returns (mem': Memory)
    requires BootRange(physfree) && BootFrames(alloc, mem, physfree - 0x4000)
    ensures BootTables(mem', physfree - 0x4000, KernelPages(physfree))
    ensures Frames(mem', BootRoles(physfree - 0x4000), alloc.counts)
  {
    var pml4: nat, pdpt: nat, pdt: nat, pt: nat := physfree - 4 * PGSIZE, physfree - 3 * PGSIZE, physfree - 2 * PGSIZE, physfree - PGSIZE;
    assert FrameOk(mem, pml4) && FrameOk(mem, pdpt) && FrameOk(mem, pdt) && FrameOk(mem, pt);
    var frame := FillKernelTable(KernelPages(physfree));
    var root: seq<nat> := mem[pml4][510 := pml4 + PAGE_P + PAGE_RW][511 := pdpt + PAGE_P + PAGE_RW];
    var dir3: seq<nat> := mem[pdpt][510 := pdt + PAGE_P + PAGE_RW];
    var dir2: seq<nat> := mem[pdt][1 := pt + PAGE_P + PAGE_RW];
    mem' := mem[pml4 := root][pdpt := dir3][pdt := dir2][pt := frame];
    forall f: nat | f in alloc.counts ensures FrameOk(mem', f) {
      assert FrameOk(mem, f);
    }
    forall f: nat | f in BootRoles(pml4) ensures Counted(alloc.counts, f) {
      assert f == pml4 || f == pdpt || f == pdt || f == pt;
    }
  }

  lemma VideoPage()
    ensures PageOf(VIDEO) == Page(511, 510, 0, 0xb8) && VIDEO < U64
    ensures Addr(PageOf(VIDEO)) == VIDEO
  {
    FromDigits(0xFFFF, Page(511, 510, 0, 0xb8), 0);
  }

  /** Nothing is mapped at the screen's address yet, and its frame is no table. */
  lemma VideoFree(physfree: nat)
    requires BootRange(physfree)
    ensures 0xb8000 !in BootRoles(physfree - 0x4000) && PageOf(VIDEO) !in KernelLeaves(KernelPages(physfree))
    ensures PageOf(VIDEO).i4 == 511 && VIDEO < KERN + physfree + 2 * PGSIZE && 0xb8000 % PGSIZE == 0
    ensures Base(0xb8000) == 0xb8000 && IsPresent(0xb8003) && IsRw(0xb8003)
  {
    VideoPage();
  }

  /** The boot tables: a root and one path. */
  function BootTypes(k: nat): set<Role> {
    {Root, PdptOf(k, 511), PdOf(k, 511, 510), PtOf(k, 511, 510, 1)}
  }

  lemma BootValues(k: nat)
    ensures BootRoles(k).Values == BootTypes(k)
  {
    var role := BootRoles(k);
    assert role[k] == Root && role[k + 0x1000] == PdptOf(k, 511) && role[k + 0x2000] == PdOf(k, 511, 510);
    assert role[k + 0x3000] == PtOf(k, 511, 510, 1);
  }

  /** The screen lacks its page table only. */
  lemma VideoTables(k: nat)
    ensures BootRoles(k).Values == BootTypes(k)
    ensures Missing(BootTypes(k), k, PageOf(VIDEO)) == 1
    ensures BootTypes(k) + Path(k, PageOf(VIDEO)) == BootTypes(k) + {PtOf(k, 511, 510, 0)}
  {
    BootValues(k);
    VideoPage();
  }

  lemma VideoWindow(s: Vm, g: Shape, s': Vm, g': Shape, w: nat)
    requires Window(s, g) && MapsTo(s, g, s', g', PageOf(VIDEO), w) && IsPresent(w) && IsRw(w) && s.freeAddr > VIDEO
    requires PageOf(VIDEO) !in g.maps.kern
    ensures Window(s', g')
  {
    VideoPage();
    forall p: Page | p in g'.maps.kern ensures Below(p, s'.freeAddr) {
      assert p in g.maps.kern ==> Below(p, s.freeAddr);
    }
  }

  /** The kernel's image, and what follows it up to `physfree`, is mapped one to one. */
  ghost predicate ImageMapped(s: Vm, g: Shape, physfree: nat) {
    forall a: nat {:trigger PageOf(KERN + a)} :: 0x20_0000 <= a < physfree && a % 4096 == 0 ==> Mapping(s, g, PageOf(KERN + a)) == Some(a + 3)
  }

  lemma KernelMapped(physfree: nat, a: nat)
    requires BootRange(physfree) && KERNEL_PHYS <= a < physfree && a % PGSIZE == 0
    ensures var p := PageOf(KERN + a); p in KernelLeaves(KernelPages(physfree)) && KernelLeaves(KernelPages(physfree))[p] == a + 3 && p.i4 == 511 && p.i2 == 1
  {
    BootPage(KERN + a);
    KernelLeaf(KernelPages(physfree), (a - KERNEL_PHYS) / PGSIZE);
  }

  lemma ImageStays(s: Vm, g: Shape, s': Vm, g': Shape, physfree: nat, w: nat)
    requires BootRange(physfree) && MapsTo(s, g, s', g', PageOf(VIDEO), w) && s.tempAddr == KERN + physfree + PGSIZE
    requires g.maps.kern == KernelLeaves(KernelPages(physfree))
    ensures ImageMapped(s', g', physfree)
  {
    VideoPage();
    BootPage(s.tempAddr);
    forall a: nat | KERNEL_PHYS <= a < physfree && a % PGSIZE == 0 ensures Mapping(s', g', PageOf(KERN + a)) == Some(a + 3) {
      KernelMapped(physfree, a);
      BootPage(KERN + a);
    }
  }

  /** The screen's page, in the state the boot tables leave. */
  method MapVideo(s: Vm, ghost g: Shape, ghost physfree: nat) returns (ok: bool, s': Vm, ghost g': Shape)
    requires BootRange(physfree) && Ok(s, g) && Window(s, g) && s.cr3 == s.initPml4 && s.freeAddr == KERN + physfree + 2 * PGSIZE
    requires g == Shape(BootRoles(s.initPml4), Maps(map[], KernelLeaves(KernelPages(physfree)))) && s.tempAddr == KERN + physfree + PGSIZE
    ensures Ok(s', g') && (ok <==> s.alloc.free != [])
    ensures ok ==> Window(s', g') && g'.maps.user == map[] && ImageMapped(s', g', physfree) && s' == s.(mem := s'.mem, alloc := s'.alloc)
    ensures ok ==> Mapping(s', g', PageOf(VIDEO)) == Some(0xb8000 + 3)
    ensures ok ==> g'.role.Values == BootTypes(s.initPml4) + {PtOf(s.initPml4, 511, 510, 0)} && |s'.alloc.free| == |s.alloc.free| - 1
  {
    VideoFree(physfree);
    VideoTables(s.initPml4);
    ok, s', g' := MapPage(s, g, 0xb8000, VIDEO, PAGE_P + PAGE_RW);
    if ok {
      VideoWindow(s, g, s', g', 0xb8000 + 3);
      ImageStays(s, g, s', g', physfree, 0xb8000 + 3);
    }
  }

  /** init_pging: the kernel runs on page tables of its own, with no user mapping yet. */
  method InitPging(alloc: Alloc, mem: Memory, physfree: nat) returns (ok: bool, s: Vm, ghost g: Shape)
    requires BootRange(physfree) && BootFrames(alloc, mem, physfree - 0x4000)
    ensures Ok(s, g)
    ensures ok ==> Window(s, g) && g.maps.user == map[] && s.cr3 == s.initPml4 == physfree - 0x4000
    ensures ok ==> Mapping(s, g, PageOf(VIDEO)) == Some(0xb8000 + 3) && s.freeAddr == KERN + physfree + 2 * PGSIZE
    ensures ok ==> ImageMapped(s, g, physfree)
    ensures ok <==> alloc.free != []
    ensures ok ==> g.role.Values == BootTypes(s.initPml4) + {PtOf(s.initPml4, 511, 510, 0)} && |s.alloc.free| == |alloc.free| - 1
  {
    var mem' := WriteBootTables(alloc, mem, physfree);
    var pml4, temp := physfree - 4 * PGSIZE, KERN + physfree + PGSIZE;
    var s0 := Vm(alloc, mem', pml4, pml4, temp, temp + PGSIZE);
    BootOk(s0, physfree);
    ok, s, g := MapVideo(s0, Shape(BootRoles(pml4), Maps(map[], KernelLeaves(KernelPages(physfree)))), physfree);
  }
}
