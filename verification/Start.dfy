/**
 From power-on to the first process: `pmap_init`, `init_pging` and `load_elf` one
 after the other, as `sys/main.c` calls them, lead to a state of the running
 system.
 */
module Start {
  import opened Bits
  import opened Bytes
  import opened Machine
  import opened Pmap
  import opened PmapInit
  import opened Pointers
  import opened PageTable
  import opened Paging
  import opened Boot
  import opened Cow
  import opened Demand
  import opened Layout
  import opened Fork
  import opened Process
  import opened Loader
  import opened ArgBlock
  import opened Exec
  import Move
  import opened Kernel

  /** Every page of an aligned region but its last one is managed. */
  lemma RegionManaged(regions: seq<Smap>, i: nat, f: nat)
    requires i < |regions| && regions[i].base % PGSIZE == 0 && f % PGSIZE == 0
    requires regions[i].base <= f < regions[i].base + Size(regions[i]) * PGSIZE
    ensures f in AllBases(regions)
  {
    BasesPrefix(regions, i);
    BasesGrow(regions, i + 1);
    var m := regions[i];
    var k := PageIndex(m.base, f, Size(m));
    assert RegionBases(m.base, Size(m))[k] == f;
    assert f in AllBases(regions[..i + 1]);
  }

  lemma PageIndex(base: nat, f: nat, n: nat) returns (k: nat)
    requires base % PGSIZE == 0 && f % PGSIZE == 0 && base <= f < base + n * PGSIZE
    ensures k < n && f == base + k * PGSIZE
  {
    k := f / PGSIZE - base / PGSIZE;
  }

  /** Memory with the frames of [lo, hi) cleared, as pmap_init's memsetw leaves it. */
  function Cleared(mem: Memory, lo: nat, hi: nat): (r: Memory)
    ensures r.Keys == mem.Keys
    ensures forall f :: f in mem && (f < lo || hi <= f) ==> r[f] == mem[f]
  {
    map f | f in mem :: if lo <= f < hi then ZeroFrame() else mem[f]
  }

  /** The end of the range pmap_init reserves. */
  function ReservedEnd(smaps: seq<Smap>, physfree: nat): nat {
    RealPhysfree(physfree, |AllBases(Pick(smaps, 8))|)
  }

  /** The reserved range starts at a page and lies in usable region `i`, and every page of the usable regions exists. */
  ghost predicate Installed(smaps: seq<Smap>, physbase: nat, physfree: nat, mem: Memory, i: nat) {
    var regions := Pick(smaps, 8);
    && physbase <= physfree && physfree % PGSIZE == 0
    && i < |regions| && regions[i].base % PGSIZE == 0
    && regions[i].base <= physfree && ReservedEnd(smaps, physfree) <= regions[i].base + Size(regions[i]) * PGSIZE
    && (forall f: nat {:trigger FrameOk(mem, f)} :: Managed(regions, f) ==> FrameOk(mem, f))
  }

  lemma EndAligned(physfree: nat, n: nat)
    requires physfree % PGSIZE == 0
    ensures RealPhysfree(physfree, n) % PGSIZE == 0 && RealPhysfree(physfree, n) >= physfree + 5 * PGSIZE
  {
    var x := n * DESCRIPTOR_SIZE;
    assert (x - x % PGSIZE) % PGSIZE == 0;
  }

  lemma LastPages(end: nat)
    requires end % PGSIZE == 0 && end >= 5 * PGSIZE
    ensures (end - 0x4000) % PGSIZE == (end - 0x3000) % PGSIZE == (end - 0x2000) % PGSIZE == (end - 0x1000) % PGSIZE == 0
  {
  }

  /** The last four pages of the reserved range are allocated and clear. */
  lemma BootFrame(smaps: seq<Smap>, physbase: nat, physfree: nat, alloc: Alloc, end: nat, mem: Memory, i: nat, f: nat)
    requires InitState(smaps, physbase, physfree, alloc, end) && Installed(smaps, physbase, physfree, mem, i)
    requires f % PGSIZE == 0 && physfree <= f < end
    ensures ClearFrame(alloc, Cleared(mem, physfree, end), f)
  {
    RegionManaged(Pick(smaps, 8), i, f);
    BasesExact(Pick(smaps, 8), f);
    assert f in alloc.counts;
    assert FrameOk(mem, f);
  }

  /** What pmap_init leaves is what init_pging needs. */
  lemma PmapBoots(smaps: seq<Smap>, physbase: nat, physfree: nat, alloc: Alloc, end: nat, mem: Memory, i: nat)
    requires InitState(smaps, physbase, physfree, alloc, end) && Installed(smaps, physbase, physfree, mem, i)
    ensures end % PGSIZE == 0 && end >= 5 * PGSIZE && BootFrames(alloc, Cleared(mem, physfree, end), end - 0x4000)
  {
    EndAligned(physfree, |AllBases(Pick(smaps, 8))|);
    LastPages(end);
    BootFrame(smaps, physbase, physfree, alloc, end, mem, i, end - 0x4000);
    BootFrame(smaps, physbase, physfree, alloc, end, mem, i, end - 0x3000);
    BootFrame(smaps, physbase, physfree, alloc, end, mem, i, end - 0x2000);
    BootFrame(smaps, physbase, physfree, alloc, end, mem, i, end - 0x1000);
    forall f: nat | f in alloc.counts ensures FrameOk(Cleared(mem, physfree, end), f) {
      assert FrameOk(mem, f);
    }
  }

  /** No process and no user page: the memory invariant holds at boot. */
  lemma NoProcesses(s: Vm, g: Shape)
    requires Ok(s, g) && Window(s, g) && g.maps.user == map[]
    requires g.role.Values == BootTypes(s.initPml4) + {PtOf(s.initPml4, 511, 510, 0)}
    ensures Processes(s, g, [])
  {
  }

  /** Pages of the kernel window in its first 6 MiB lie under one directory. */
  lemma WindowPage(x: nat)
    requires x < 0x60_0000
    ensures var p := PageOf(KERN + x); p.i4 == 511 && p.i3 == 510 && p.i2 == x / 0x20_0000
  {
    FromDigits(0xFFFF, Page(511, 510, x / 0x20_0000, (x / 0x1000) % 512), x % PGSIZE);
  }

  /** Kernel tasks created before the first process: the idle task and two that are never scheduled. */
  const TASKS := 3

  /** The second page of the `j`-th task, counted from one, lies beyond the first 4 MiB of the window. */
  predicate Beyond(end: nat, j: nat) {
    j > 0 && end + (9 * j - 6) * PGSIZE >= 0x40_0000
  }

  /** Frames for the kernel stacks and roots of the first `j` tasks; a page table more if they go beyond 4 MiB. */
  function TasksNeed(end: nat, j: nat): nat {
    2 * j + if Beyond(end, j) then 1 else 0
  }

  /** The kernel's tables after `j` tasks have been created. */
  ghost function TaskTables(k: nat, end: nat, j: nat): set<Role> {
    BootTypes(k) + {PtOf(k, 511, 510, 0)} + if Beyond(end, j) then {PtOf(k, 511, 510, 2)} else {}
  }

  /** After boot and `j` tasks: no user page, and the window and the tables have grown by theirs. */
  ghost predicate Tasks(s: Vm, g: Shape, end: nat, j: nat) {
    && Processes(s, g, []) && g.maps.user == map[]
    && s.freeAddr == KERN + end + (2 + 9 * j) * PGSIZE && g.role.Values == TaskTables(s.initPml4, end, j)
  }

  /** The two pages of process `j + 1` lie under the second or the third page table of the window. */
  lemma TaskPages(end: nat, j: nat)
    requires BootRange(end) && j <= TASKS
    ensures var x := KERN + end + (2 + 9 * j) * PGSIZE;
            var p, q := PageOf(x), PageOf(x + PGSIZE);
            && p.i4 == q.i4 == 511 && p.i3 == q.i3 == 510 && x + 9 * PGSIZE <= U64
            && p.i2 == (if end + (2 + 9 * j) * PGSIZE < 0x40_0000 then 1 else 2)
            && q.i2 == (if Beyond(end, j + 1) then 2 else 1) && (p.i2 == 2 ==> q.i2 == 2) && (Beyond(end, j) ==> p.i2 == 2)
  {
    var x := end + (2 + 9 * j) * PGSIZE;
    WindowPage(x);
    WindowPage(x + PGSIZE);
  }

  lemma NextTaskNeed(s: Vm, g: Shape, end: nat, j: nat)
    requires BootRange(end) && Tasks(s, g, end, j) && j <= TASKS
    ensures WindowRoom(s) && SpaceNeed(s, g) == TasksNeed(end, j + 1) - TasksNeed(end, j)
    ensures g.role.Values + SpaceTables(s) == TaskTables(s.initPml4, end, j + 1)
  {
    TaskPages(end, j);
  }

  /** create_new_task, for a task of the kernel. */
  method OneTask(s: Vm, ghost g: Shape, ghost end: nat, ghost j: nat) returns (ok: bool, s': Vm, ghost g': Shape)
    requires BootRange(end) && Tasks(s, g, end, j) && j <= TASKS
    ensures ok <==> TasksNeed(end, j + 1) - TasksNeed(end, j) <= |s.alloc.free|
    ensures ok ==> Tasks(s', g', end, j + 1) && |s'.alloc.free| + TasksNeed(end, j + 1) == |s.alloc.free| + TasksNeed(end, j)
  {
    NextTaskNeed(s, g, end, j);
    var c;
    ok, c, s', g' := ChildSpace(s, g);
  }

  /** The idle task and two more. */
  method KernelTasks(s: Vm, ghost g: Shape, ghost end: nat) returns (ok: bool, s': Vm, ghost g': Shape)
    requires BootRange(end) && Tasks(s, g, end, 0)
    ensures ok <==> TasksNeed(end, TASKS) <= |s.alloc.free|
    ensures ok ==> Tasks(s', g', end, TASKS) && |s'.alloc.free| == |s.alloc.free| - TasksNeed(end, TASKS)
  {
    ok, s', g' := true, s, g;
    var j: nat := 0;
    while j < TASKS && ok
      invariant j <= TASKS
      invariant ok ==> Tasks(s', g', end, j) && |s'.alloc.free| + TasksNeed(end, j) == |s.alloc.free|
      invariant !ok ==> TasksNeed(end, TASKS) > |s.alloc.free|
    {
      ok, s', g' := OneTask(s', g', end, j);
      j := j + 1;
    }
  }

  /** Loading the first process's root makes it the running one. */
  lemma FirstRuns(s: Vm, g: Shape, mm: Mm)
    requires Processes(s, g, [mm])
    ensures System(s.(cr3 := mm.pml4), g, [mm], 0) && ProcOk(g.role, g.maps.user, mm)
  {
    assert ProcOk(g.role, g.maps.user, [mm][0]);
    SwitchOk(s, g, mm.pml4);
  }

  /** The byte at `a` of a process's own memory. */
  ghost function EagerByte(m: PageMem, a: nat): nat {
    Byte(PageAt(m, PageOf(a))[WordOf(a)], a % 8)
  }

  /** A process's own memory is the image of the segments, outside the argument block. */
  ghost predicate ShowsImage(m: PageMem, file: seq<nat>, segs: seq<Phdr>, rsp: nat)
    requires SegmentsOk(file, segs)
  {
    forall a: nat {:trigger EagerByte(m, a)} :: a < USER_END && !(rsp <= a < PAGE_ADDR + START) ==>
      EagerByte(m, a) == ImageByte(file, segs, a)
  }

  ghost function EagerStackByte(m: PageMem, o: nat): Move.Byte {
    EagerByte(m, PAGE_ADDR + o)
  }

  /** The top stack page of a process's own memory. */
  ghost function EagerStack(m: PageMem): seq<Move.Byte> {
    seq(PGSIZE, (o: nat) => EagerStackByte(m, o))
  }

  lemma ByteSeen(m: PageMem, u: UserMap, mem: Memory, r: nat, a: nat)
    requires MemAgrees(m, u, mem, r) && a < USER_END
    ensures EagerByte(m, a) == ByteAt(u, mem, r, a)
  {
    assert PageAgrees(m, u, mem, r, PageOf(a));
  }

  /** What load_elf left in memory is what the process has in its own. */
  lemma LoadedSeen(m: PageMem, u: UserMap, mem: Memory, r: nat, file: seq<nat>, segs: seq<Phdr>, rsp: nat)
    requires MemAgrees(m, u, mem, r) && SegmentsOk(file, segs) && ImageAround(u, mem, r, file, segs, rsp)
    ensures ShowsImage(m, file, segs, rsp) && EagerStack(m) == StackBytes(u, mem, r)
  {
    forall a: nat | a < USER_END ensures EagerByte(m, a) == ByteAt(u, mem, r, a) {
      ByteSeen(m, u, mem, r, a);
    }
  }

  datatype Outcome = Started | NoImage | OutOfFrames | NoPages

  /**
   One process, the current one, with the executable's ranges and an empty
   heap, whose own memory is the loaded one.
   */
  ghost predicate Booted(procs: seq<Mm>, e: Eager, file: seq<nat>, phdrs: seq<Phdr>, args: seq<Str>, envs: seq<Str>, rsp: nat)
    requires SegmentsOk(file, Loadable(phdrs))
  {
    && |procs| == 1 && HeapsFit(procs) && procs[0] == LayoutOf(procs[0].pml4, Loadable(phdrs))
    && |e.procs| == 1 && e.current == 0 && FreshHeap(e.procs[0]) && e.procs[0].present == StartPages(Loadable(phdrs))
    && ShowsImage(e.procs[0].mem, file, Loadable(phdrs), rsp)
    && PAGE_ADDR <= rsp && StartSees(EagerStack(e.procs[0].mem), rsp - PAGE_ADDR, args, envs)
  }

  lemma LoadedBoots(s: Vm, g: Shape, mm: Mm, e: Eager, file: seq<nat>, phdrs: seq<Phdr>, args: seq<Str>, envs: seq<Str>, rsp: nat)
    requires Agrees(e, g.maps.user, s.mem, [mm], 0) && SegmentsOk(file, Loadable(phdrs)) && ProcOk(g.role, g.maps.user, mm)
    requires mm == LayoutOf(mm.pml4, Loadable(phdrs)) && Pages(g.maps.user, mm.pml4) == StartPages(Loadable(phdrs))
    requires ImageAround(g.maps.user, s.mem, mm.pml4, file, Loadable(phdrs), rsp)
    requires PAGE_ADDR <= rsp && StartSees(StackBytes(g.maps.user, s.mem, mm.pml4), rsp - PAGE_ADDR, args, envs)
    ensures Booted([mm], e, file, phdrs, args, envs, rsp)
  {
    assert ProcAgrees(e.procs[0], g.maps.user, s.mem, [mm][0]);
    LoadedSeen(e.procs[0].mem, g.maps.user, s.mem, mm.pml4, file, Loadable(phdrs), rsp);
    LoadedInside(e.procs[0], g, s.mem, mm);
    PresentPages(e.procs[0].present, g.maps.user, mm.pml4);
    FreshLayout(mm, Loadable(phdrs));
  }

  lemma FreshLayout(mm: Mm, segs: seq<Phdr>)
    requires WellFormed(mm) && mm == LayoutOf(mm.pml4, segs)
    ensures HeapFits(mm) && WellFormed(mm.(pml4 := 0)) && HeapVma(mm.(pml4 := 0)).end == mm.startBrk == mm.brk
  {
  }

  lemma LoadedInside(p: Proc, g: Shape, mem: Memory, mm: Mm)
    requires ProcOk(g.role, g.maps.user, mm) && ProcAgrees(p, g.maps.user, mem, mm)
    ensures forall q: Page {:trigger q in p.present} :: q in p.present ==> InVmas(p.mm.vm, q)
  {
    forall q: Page | q in p.present ensures InVmas(p.mm.vm, q) {
      assert (mm.pml4, q) in g.maps.user;
    }
  }

  method FirstProcess(s: Vm, ghost g: Shape, file: seq<nat>, phdrs: seq<Phdr>, args: seq<Str>, envs: seq<Str>)
    returns (r: Outcome, k: KernelState?, rsp: nat)
    requires Processes(s, g, []) && WindowRoom(s)
    requires SegmentsOk(file, Loadable(phdrs)) && Small(args) && Small(envs)
    ensures k != null <==> r.Started?
    ensures r.Started? <==> Loadable(phdrs) != [] && LoadNeed(s, g, Loadable(phdrs)) <= |s.alloc.free|
    ensures r.NoImage? <==> Loadable(phdrs) == [] && SpaceNeed(s, g) <= |s.alloc.free|
    ensures r.Started? || r.NoImage? || r.OutOfFrames?
    ensures k != null ==> fresh(k) && k.Valid() && Booted(k.procs, k.eager, file, phdrs, args, envs, rsp)
    ensures k != null ==> |k.vm.alloc.free| == |s.alloc.free| - LoadNeed(s, g, Loadable(phdrs)) && k.vm.freeAddr == s.freeAddr + 9 * PGSIZE
  {
    k := null;
    var r1, mm, last;
    ghost var g1;
    r1, mm, rsp, last, g1 := LoadProcess(s, g, [], file, phdrs, args, envs);
    if !r1.ProcessReady? {
      return if r1.NoSegments? then NoImage else OutOfFrames, k, rsp;
    }
    k := RunFirst(last, g1, mm, file, phdrs, args, envs, rsp);
    r := Started;
  }

  /** The loaded process is switched to. */
  method RunFirst(s: Vm, ghost g: Shape, mm: Mm, ghost file: seq<nat>, ghost phdrs: seq<Phdr>, ghost args: seq<Str>, ghost envs: seq<Str>, ghost rsp: nat)
    returns (k: KernelState)
    requires Processes(s, g, [] + [mm]) && SegmentsOk(file, Loadable(phdrs))
    requires mm == LayoutOf(mm.pml4, Loadable(phdrs)) && Pages(g.maps.user, mm.pml4) == StartPages(Loadable(phdrs))
    requires ImageAround(g.maps.user, s.mem, mm.pml4, file, Loadable(phdrs), rsp)
    requires PAGE_ADDR <= rsp && StartSees(StackBytes(g.maps.user, s.mem, mm.pml4), rsp - PAGE_ADDR, args, envs)
    ensures fresh(k) && k.Valid() && Booted(k.procs, k.eager, file, phdrs, args, envs, rsp) && k.vm == s.(cr3 := mm.pml4)
  {
    assert [] + [mm] == [mm];
    FirstRuns(s, g, mm);
    k := new KernelState(s.(cr3 := mm.pml4), [mm], 0, g);
    LoadedBoots(s, g, mm, k.eager, file, phdrs, args, envs, rsp);
  }

  /** Frames the kernel needs to come up: a table for the screen, the kernel pages of four tasks, and the first process's image. */
  ghost function StartNeed(end: nat, segs: seq<Phdr>): nat {
    1 + TasksNeed(end, TASKS + 1) + ImageCost(segs)
  }

  /** The window address after start-up. */
  function StartAddr(end: nat): nat {
    KERN + end + (2 + 9 * (TASKS + 1)) * PGSIZE
  }

  /** From the allocator to the kernel's own tasks. */
  method BootUp(ghost smaps: seq<Smap>, ghost physbase: nat, physfree: nat, ghost region: nat, alloc: Alloc, end: nat, mem: Memory)
    returns (ok: bool, s: Vm, ghost g: Shape)
    requires InitState(smaps, physbase, physfree, alloc, end) && Installed(smaps, physbase, physfree, mem, region) && BootRange(end)
    ensures ok <==> 1 + TasksNeed(end, TASKS) <= |alloc.free|
    ensures ok ==> Tasks(s, g, end, TASKS) && |s.alloc.free| == |alloc.free| - 1 - TasksNeed(end, TASKS)
  {
    PmapBoots(smaps, physbase, physfree, alloc, end, mem, region);
    ok, s, g := InitPging(alloc, Cleared(mem, physfree, end), end);
    if ok {
      NoProcesses(s, g);
      ok, s, g := KernelTasks(s, g, end);
    }
  }

  /** What the first process needs is what is left to do. */
  lemma FirstNeed(s: Vm, g: Shape, end: nat, segs: seq<Phdr>, free: nat)
    requires BootRange(end) && Tasks(s, g, end, TASKS) && |s.alloc.free| == free - 1 - TasksNeed(end, TASKS)
    ensures Processes(s, g, []) && WindowRoom(s) && s.freeAddr + 9 * PGSIZE == StartAddr(end)
    ensures SpaceNeed(s, g) - |s.alloc.free| == 1 + TasksNeed(end, TASKS + 1) - free
    ensures LoadNeed(s, g, segs) - |s.alloc.free| == StartNeed(end, segs) - free
    ensures TasksNeed(end, TASKS) <= TasksNeed(end, TASKS + 1)
  {
    NextTaskNeed(s, g, end, TASKS);
  }

  /** From the allocator to the first process. */
  method LaunchFrom(ghost smaps: seq<Smap>, ghost physbase: nat, physfree: nat, ghost region: nat, alloc: Alloc, end: nat, mem: Memory,
      file: seq<nat>, phdrs: seq<Phdr>, args: seq<Str>, envs: seq<Str>)
    returns (r: Outcome, k: KernelState?, rsp: nat)
    requires InitState(smaps, physbase, physfree, alloc, end) && Installed(smaps, physbase, physfree, mem, region)
    requires BootRange(end) && SegmentsOk(file, Loadable(phdrs)) && Small(args) && Small(envs)
    ensures k != null <==> r.Started?
    ensures r.Started? <==> Loadable(phdrs) != [] && StartNeed(end, Loadable(phdrs)) <= |alloc.free|
    ensures r.NoImage? <==> Loadable(phdrs) == [] && 1 + TasksNeed(end, TASKS + 1) <= |alloc.free|
    ensures r.Started? || r.NoImage? || r.OutOfFrames?
    ensures k != null ==> fresh(k) && k.Valid() && Booted(k.procs, k.eager, file, phdrs, args, envs, rsp)
    ensures k != null ==> |k.vm.alloc.free| == |alloc.free| - StartNeed(end, Loadable(phdrs)) && k.vm.freeAddr == StartAddr(end)
  {
    var ok, s, g := BootUp(smaps, physbase, physfree, region, alloc, end, mem);
    if !ok {
      return OutOfFrames, null, 0;
    }
    FirstNeed(s, g, end, Loadable(phdrs), |alloc.free|);
    r, k, rsp := FirstProcess(s, g, file, phdrs, args, envs);
  }

  /** The pages of the usable regions that are not reserved. */
  ghost function FreeAtStart(smaps: seq<Smap>, physbase: nat, physfree: nat): set<nat> {
    set b | b in AllBases(Pick(smaps, 8)) && !Reserved(b, physbase, ReservedEnd(smaps, physfree))
  }

  lemma FreeIsUnreserved(smaps: seq<Smap>, physbase: nat, physfree: nat, alloc: Alloc)
    requires InitState(smaps, physbase, physfree, alloc, ReservedEnd(smaps, physfree))
    ensures |alloc.free| == |FreeAtStart(smaps, physbase, physfree)|
  {
    FreeCount(alloc);
    forall b: nat ensures b in Zeros(alloc.counts) <==> b in FreeAtStart(smaps, physbase, physfree) {
      BasesExact(Pick(smaps, 8), b);
      assert b in alloc.counts <==> Managed(Pick(smaps, 8), b);
    }
    assert Zeros(alloc.counts) == FreeAtStart(smaps, physbase, physfree);
  }

  ghost function FramesLeft(smaps: seq<Smap>, physbase: nat, physfree: nat, segs: seq<Phdr>): int {
    |FreeAtStart(smaps, physbase, physfree)| - StartNeed(ReservedEnd(smaps, physfree), segs)
  }

  /**
   The kernel starts: from the memory map, the page allocator, page tables and
   the first process, which runs on memory of its own that holds exactly the
   image of the executable and the arguments _start reads. It does so exactly
   when the first usable page is not reserved, the executable has a segment to
   load, and the unreserved pages suffice.
   */
  method Launch(smaps: seq<Smap>, physbase: nat, physfree: nat, ghost region: nat, mem: Memory,
      file: seq<nat>, phdrs: seq<Phdr>, args: seq<Str>, envs: seq<Str>)
    returns (r: Outcome, k: KernelState?, rsp: nat)
    requires Apart(Pick(smaps, 8)) && Installed(smaps, physbase, physfree, mem, region) && BootRange(ReservedEnd(smaps, physfree))
    requires SegmentsOk(file, Loadable(phdrs)) && Small(args) && Small(envs)
    ensures k != null <==> r.Started?
    ensures var regions := Pick(smaps, 8);
            var end := ReservedEnd(smaps, physfree);
            r.Started? <==> Loadable(phdrs) != [] && !(regions != [] && physbase <= regions[0].base < end)
                            && StartNeed(end, Loadable(phdrs)) <= |FreeAtStart(smaps, physbase, physfree)|
    ensures k != null ==> fresh(k) && k.Valid() && Booted(k.procs, k.eager, file, phdrs, args, envs, rsp)
    ensures k != null ==> |k.vm.alloc.free| == FramesLeft(smaps, physbase, physfree, Loadable(phdrs))
    ensures k != null ==> k.vm.freeAddr == StartAddr(ReservedEnd(smaps, physfree))
  {
    k, rsp := null, 0;
    var p := PmapInit.PmapInit(smaps, physbase, physfree);
    if !p.Ready? {
      return NoPages, k, rsp;
    }
    FreeIsUnreserved(smaps, physbase, physfree, p.pmap.state);
    var alloc := p.pmap.Contents();
    r, k, rsp := LaunchFrom(smaps, physbase, physfree, region, alloc, p.realPhysfree, mem, file, phdrs, args, envs);
  }

  /** `frames` frames and the window from `addr` on are all the events call for. */
  ghost predicate Provided(frames: int, addr: nat, e: Eager, evs: seq<Event>) {
    Budget(e, evs) <= frames && addr + AllAddresses(evs) <= U64
  }

  /** A run of the started kernel. */
  method RunStarted(k: KernelState, evs: seq<Event>) returns (outs: seq<Output>)
    requires k.Valid() && forall i :: 0 <= i < |evs| ==> Legal(evs[i])
    modifies k
    ensures |outs| <= |evs| && (k.eager, outs) == EagerRun(old(k.eager), evs[..|outs|])
    ensures |outs| < |evs| && Provided(|old(k.vm).alloc.free|, old(k.vm).freeAddr, old(k.eager), evs) ==>
              k.eager.Running() && k.eager.Answer(evs[|outs|]).Halt?
  {
    ghost var why;
    outs, why := k.Run(evs);
  }

  /**
   From the memory map to the answers of a whole run: if the kernel starts and the
   frames and window addresses left are those the eager run calls for, every event
   has the eager system's answer, until that system stops.
   */
  method LaunchAndRun(smaps: seq<Smap>, physbase: nat, physfree: nat, ghost region: nat, mem: Memory,
      file: seq<nat>, phdrs: seq<Phdr>, args: seq<Str>, envs: seq<Str>, evs: seq<Event>)
    returns (r: Outcome, outs: seq<Output>, rsp: nat, ghost procs: seq<Mm>, ghost e: Eager, ghost e': Eager)
    requires Apart(Pick(smaps, 8)) && Installed(smaps, physbase, physfree, mem, region) && BootRange(ReservedEnd(smaps, physfree))
    requires SegmentsOk(file, Loadable(phdrs)) && Small(args) && Small(envs) && forall i :: 0 <= i < |evs| ==> Legal(evs[i])
    ensures var regions := Pick(smaps, 8);
            var end := ReservedEnd(smaps, physfree);
            r.Started? <==> Loadable(phdrs) != [] && !(regions != [] && physbase <= regions[0].base < end)
                            && FramesLeft(smaps, physbase, physfree, Loadable(phdrs)) >= 0
    ensures r.Started? ==> Booted(procs, e, file, phdrs, args, envs, rsp)
    ensures r.Started? ==> |outs| <= |evs| && (e', outs) == EagerRun(e, evs[..|outs|])
    ensures r.Started? && |outs| < |evs|
            && Provided(FramesLeft(smaps, physbase, physfree, Loadable(phdrs)), StartAddr(ReservedEnd(smaps, physfree)), e, evs) ==>
              e'.Running() && e'.Answer(evs[|outs|]).Halt?
  {
    outs, procs, e, e' := [], [], Eager([], 0), Eager([], 0);
    var k;
    r, k, rsp := Launch(smaps, physbase, physfree, region, mem, file, phdrs, args, envs);
    if k != null {
      procs, e := k.procs, k.eager;
      outs := RunStarted(k, evs);
      e' := k.eager;
    }
  }
}
