/**
 Processes over the memory invariant: the page-fault handler of `sys/isr.c`
 and `fork_process`, with what they keep about every process's layout.
 */
module Process {
  import opened Options
  import opened Bits
  import opened Machine
  import opened Pointers
  import opened PageTable
  import opened Paging
  import opened Cow
  import opened Demand
  import opened Layout
  import opened Fork
  import opened Footprint

  const STACK_PAGE := USER_STACK_TOP - PGSIZE

  ghost predicate InVmas(vm: seq<Vma>, p: Page) {
    p.i4 < 256 && exists i :: 0 <= i < |vm| && Touches(vm[i], UserAddr(p))
  }

  /**
   A process: its descriptor is well formed, its present pages all lie in its
   vmas, and those of the stack are a run that includes the top page.
   */
  ghost predicate ProcOk(role: Roles, u: UserMap, mm: Mm) {
    && IsRoot(role, mm.pml4) && WellFormed(mm)
    && (forall p: Page {:trigger InVmas(mm.vm, p)} :: (mm.pml4, p) in u ==> InVmas(mm.vm, p))
    && RunToTop(u, mm.pml4, STACK_BASE, USER_STACK_TOP)
    && (mm.pml4, PageOf(STACK_PAGE)) in u
  }

  /** The memory invariant, and every process, each with a root of its own. */
  ghost predicate Processes(s: Vm, g: Shape, procs: seq<Mm>) {
    && Sound(s, g)
    && (forall i {:trigger ProcOk(g.role, g.maps.user, procs[i])} :: 0 <= i < |procs| ==> ProcOk(g.role, g.maps.user, procs[i]))
    && (forall i, j :: 0 <= i < j < |procs| ==> procs[i].pml4 != procs[j].pml4)
  }

  /** The running system: the current process's address space is loaded. */
  ghost predicate System(s: Vm, g: Shape, procs: seq<Mm>, current: nat) {
    Processes(s, g, procs) && current < |procs| && s.cr3 == procs[current].pml4
  }

  /** Only which pages are present matters to a process's layout. */
  lemma ProcSameKeys(role: Roles, u: UserMap, role': Roles, u': UserMap, mm: Mm)
    requires ProcOk(role, u, mm) && IsRoot(role', mm.pml4)
    requires forall p: Page :: (mm.pml4, p) in u' <==> (mm.pml4, p) in u
    ensures ProcOk(role', u', mm)
  {
  }

  /** New pages inside one vma of a process, all of them if it is the stack, keep its layout. */
  lemma ProcGrew(role: Roles, u: UserMap, role': Roles, u': UserMap, mm: Mm, i: nat, hi: nat)
    requires ProcOk(role, u, mm) && IsRoot(role', mm.pml4) && i < |mm.vm| && hi <= mm.vm[i].end
    requires Grew(u, u', mm.pml4, AlignDown(mm.vm[i].start), hi)
    requires i == |mm.vm| - 1 ==> Filled(u', mm.pml4, STACK_BASE, USER_STACK_TOP)
    ensures ProcOk(role', u', mm)
  {
    forall p: Page | (mm.pml4, p) in u'
      ensures InVmas(mm.vm, p)
    {
      if (mm.pml4, p) in u {
        assert InVmas(mm.vm, p);
      } else {
        assert Touches(mm.vm[i], UserAddr(p));
      }
    }
    forall p: Page, q: Page | (mm.pml4, p) in u' && q.i4 < 256 && STACK_BASE <= UserAddr(p) <= UserAddr(q) < USER_STACK_TOP
      ensures (mm.pml4, q) in u'
    {
      if i < |mm.vm| - 1 {
        StackApart(mm, i, UserAddr(p), hi);
        assert (mm.pml4, p) in u;
      }
    }
  }

  lemma StackApart(mm: Mm, i: nat, a: nat, hi: nat)
    requires WellFormed(mm) && i < |mm.vm| - 1 && hi <= mm.vm[i].end && STACK_BASE <= a
    ensures !(AlignDown(mm.vm[i].start) <= a < hi)
  {
  }

  datatype FaultResult = Handled | SegFault | KernelFault | NoMemoryLeft

  /** The first vma whose byte range holds the address, or the length of the list. */
  function FirstVma(vm: seq<Vma>, va: nat): (i: nat)
    ensures i <= |vm| && (i < |vm| ==> vm[i].start <= va < vm[i].end)
    ensures forall j :: 0 <= j < i ==> !(vm[j].start <= va < vm[j].end)
  {
    if vm == [] || vm[0].start <= va < vm[0].end then 0 else 1 + FirstVma(vm[1..], va)
  }

  lemma FirstVmaIs(vm: seq<Vma>, va: nat, i: nat)
    requires i <= |vm| && (i < |vm| ==> vm[i].start <= va < vm[i].end) && forall j :: 0 <= j < i ==> !(vm[j].start <= va < vm[j].end)
    ensures FirstVma(vm, va) == i
  {
  }

  /** No vma holds the address exactly when there is no first one. */
  lemma NoVma(vm: seq<Vma>, va: nat)
    ensures FirstVma(vm, va) == |vm| <==> forall v :: v in vm ==> !(v.start <= va < v.end)
  {
    if FirstVma(vm, va) < |vm| {
      assert vm[FirstVma(vm, va)] in vm;
    }
  }

  /** The handler's walk over the vma list. */
  method FindVma(vm: seq<Vma>, va: nat) returns (i: nat)
    ensures i == FirstVma(vm, va)
    ensures i <= |vm| && (i < |vm| ==> vm[i].start <= va < vm[i].end) && forall j :: 0 <= j < i ==> !(vm[j].start <= va < vm[j].end)
  {
    i := 0;
    while i < |vm|
      invariant 0 <= i <= |vm|
      invariant forall j :: 0 <= j < i ==> !(vm[j].start <= va < vm[j].end)
    {
      if vm[i].start <= va < vm[i].end {
        FirstVmaIs(vm, va, i);
        return;
      }
      i := i + 1;
    }
    FirstVmaIs(vm, va, i);
  }

  lemma SystemSameKeys(s: Vm, g: Shape, s': Vm, g': Shape, procs: seq<Mm>, current: nat)
    requires System(s, g, procs, current) && Sound(s', g') && s'.cr3 == s.cr3
    requires forall r: nat :: IsRoot(g.role, r) ==> IsRoot(g'.role, r)
    requires forall key: Key :: key in g'.maps.user <==> key in g.maps.user
    ensures System(s', g', procs, current)
  {
    forall i | 0 <= i < |procs| ensures ProcOk(g'.role, g'.maps.user, procs[i]) {
      assert ProcOk(g.role, g.maps.user, procs[i]);
      ProcSameKeys(g.role, g.maps.user, g'.role, g'.maps.user, procs[i]);
    }
  }

  /** Filling a vma of the current process keeps the system. */
  lemma SystemGrew(s: Vm, g: Shape, s': Vm, g': Shape, procs: seq<Mm>, current: nat, i: nat, hi: nat)
    requires System(s, g, procs, current) && Sound(s', g') && s'.cr3 == s.cr3
    requires forall r: nat :: IsRoot(g.role, r) ==> IsRoot(g'.role, r)
    requires var mm := procs[current]; i < |mm.vm| && hi <= mm.vm[i].end && Grew(g.maps.user, g'.maps.user, s.cr3, AlignDown(mm.vm[i].start), hi)
    requires i == |procs[current].vm| - 1 ==> Filled(g'.maps.user, s.cr3, STACK_BASE, USER_STACK_TOP)
    ensures System(s', g', procs, current)
  {
    forall j | 0 <= j < |procs| ensures ProcOk(g'.role, g'.maps.user, procs[j]) {
      assert ProcOk(g.role, g.maps.user, procs[j]);
      if j == current {
        ProcGrew(g.role, g.maps.user, g'.role, g'.maps.user, procs[j], i, hi);
      } else {
        assert procs[j].pml4 != s.cr3;
        ProcSameKeys(g.role, g.maps.user, g'.role, g'.maps.user, procs[j]);
      }
    }
  }

  /** A vma small enough for kmmap's int parameter. */
  predicate FitsInt(v: Vma) {
    v.end - v.start < 0x8000_0000
  }

  /** The pages kmmap maps for a fault in the vma: its size is cut to an int, so a larger one is not covered to its end. */
  predicate InFill(v: Vma, p: Page) {
    p.i4 < 256 && AlignDown(v.start) <= UserAddr(p) < FillEnd(v.start, ToInt(v.end - v.start))
  }

  /** The same pages, as a set. */
  ghost function VmaFill(v: Vma): set<Page> {
    FillSet(AlignDown(v.start), PageCount(v.start, ToInt(v.end - v.start)))
  }

  /** Frames a fault in the vma needs when the pages in `P` are mapped. */
  ghost function VmaNeed(P: set<Page>, v: Vma): int {
    FillNeed(P, AlignDown(v.start), PageCount(v.start, ToInt(v.end - v.start)))
  }

  lemma FillIsSet(v: Vma, p: Page)
    requires v.start <= v.end <= USER_STACK_TOP
    ensures InFill(v, p) <==> p in VmaFill(v)
  {
    var size := ToInt(v.end - v.start);
    NumPagesExact(v.start, size);
    FillSetIs(AlignDown(v.start), PageCount(v.start, size), p);
    if p.i4 < 256 {
      PageOfUserAddr(p);
      if PageCount(v.start, size) > 0 {
        PageStarts(UserAddr(p), AlignDown(v.start), PageCount(v.start, size), v.start + size);
      }
    }
  }

  /** A page that starts in the last counted page, or before it, starts below the end. */
  lemma PageStarts(a: nat, lo: nat, n: nat, hi: int)
    requires a % PGSIZE == 0 && lo % PGSIZE == 0 && n > 0 && lo + (n - 1) * PGSIZE < hi <= lo + n * PGSIZE
    ensures a < hi <==> a < lo + n * PGSIZE
  {
  }

  /** Exactly the pages of the fill have been added to space `r`. */
  ghost predicate FilledBy(u: UserMap, u': UserMap, r: nat, v: Vma) {
    forall key: Key {:trigger key in u'} :: key in u' <==> key in u || (key.0 == r && InFill(v, key.1))
  }

  /** The demand-zero branch: kmmap over the whole vma that holds the address. */
  method FillVma(s: Vm, ghost g: Shape, ghost procs: seq<Mm>, ghost current: nat, v: Vma, ghost i: nat, ghost va: nat)
    returns (ok: bool, s': Vm, ghost g': Shape)
    requires System(s, g, procs, current) && i < |procs[current].vm| && v == procs[current].vm[i] && v.start <= va < v.end
    ensures ok ==> System(s', g', procs, current) && SameSight(s, g, s', g') && s' == s.(mem := s'.mem, alloc := s'.alloc)
    ensures ok ==> FilledBy(g.maps.user, g'.maps.user, s.cr3, v)
    ensures ok ==> forall key: Key :: key in g'.maps.user && key !in g.maps.user ==> Writable(g'.maps.user[key])
    ensures ok <==> VmaNeed(Pages(g.maps.user, s.cr3), v) <= |s.alloc.free|
    ensures ok ==> Held(s', g', s.cr3) == Held(s, g, s.cr3) && Pages(g'.maps.user, s.cr3) == Pages(g.maps.user, s.cr3) + VmaFill(v)
    ensures ok ==> Stray(s', g') == Stray(s, g)
  {
    assert ProcOk(g.role, g.maps.user, procs[current]);
    VmaBounds(procs[current], i);
    var size := ToInt(v.end - v.start);
    ok, s', g' := MapVma(s, g, v, size);
    if ok {
      FillBounds(v, size, va);
      SystemGrew(s, g, s', g', procs, current, i, FillEnd(v.start, size));
      FillExact(g.maps.user, g'.maps.user, s.cr3, v);
    }
  }

  /** kmmap with the start and the size of a vma. */
  method MapVma(s: Vm, ghost g: Shape, v: Vma, size: int) returns (ok: bool, s': Vm, ghost g': Shape)
    requires Sound(s, g) && v.start <= v.end <= USER_STACK_TOP && size == ToInt(v.end - v.start)
    ensures ok ==> Invisible(s, g, s', g', Some(s.cr3))
    ensures ok ==> Grew(g.maps.user, g'.maps.user, s.cr3, AlignDown(v.start), FillEnd(v.start, size))
    ensures ok ==> Filled(g'.maps.user, s.cr3, AlignDown(v.start), FillEnd(v.start, size))
    ensures ok <==> VmaNeed(Pages(g.maps.user, s.cr3), v) <= |s.alloc.free|
    ensures ok ==> Held(s', g', s.cr3) == Held(s, g, s.cr3) && Pages(g'.maps.user, s.cr3) == Pages(g.maps.user, s.cr3) + VmaFill(v)
    ensures ok ==> Stray(s', g') == Stray(s, g)
  {
    VmaCount(v, size);
    ok, s', g' := KMmap(s, g, v.start, size);
  }

  lemma VmaCount(v: Vma, size: int)
    requires v.start <= v.end && size == ToInt(v.end - v.start)
    ensures VmaFill(v) == FillSet(AlignDown(v.start), PageCount(v.start, size))
    ensures forall P: set<Page> :: VmaNeed(P, v) == FillNeed(P, AlignDown(v.start), PageCount(v.start, size))
  {
  }

  lemma FillExact(u: UserMap, u': UserMap, r: nat, v: Vma)
    requires var hi := FillEnd(v.start, ToInt(v.end - v.start)); Grew(u, u', r, AlignDown(v.start), hi) && Filled(u', r, AlignDown(v.start), hi)
    ensures FilledBy(u, u', r, v)
  {
  }

  /** The faulting page is among them exactly when it starts below the end of the fill, as it does in a vma that fits an int. */
  lemma ReachesPage(v: Vma, va: nat)
    requires v.start <= va < v.end <= USER_STACK_TOP
    ensures InFill(v, PageOf(va)) <==> AlignDown(va) < FillEnd(v.start, ToInt(v.end - v.start))
    ensures FitsInt(v) ==> InFill(v, PageOf(va))
  {
    var size := ToInt(v.end - v.start);
    var end := FillEnd(v.start, size);
    InRange(v.start, end, va);
    assert InFill(v, PageOf(va)) <==> AlignDown(va) < end;
    if FitsInt(v) {
      FillBounds(v, size, va);
    }
  }

  lemma InRange(lo: nat, hi: nat, va: nat)
    requires lo <= va < USER_END
    ensures PageOf(va).i4 < 256 && (AlignDown(lo) <= UserAddr(PageOf(va)) < hi <==> AlignDown(va) < hi)
  {
    UserPage(va);
    AlignDownMono(lo, va);
  }

  /** A range of 2^31 bytes or more that a fault anywhere in it leaves as it was. */
  lemma NothingFilled(start: nat, p: Page)
    requires start % PGSIZE == 0 && start + 0x8000_0000 <= USER_STACK_TOP
    ensures !InFill(Vma(start, start + 0x8000_0000, Heap), p)
  {
    assert ToInt(0x8000_0000) == -0x8000_0000;
    NumPagesExact(start, -0x8000_0000);
  }

  lemma VmaBounds(mm: Mm, i: nat)
    requires WellFormed(mm) && i < |mm.vm|
    ensures mm.vm[i].start <= mm.vm[i].end <= USER_STACK_TOP < USER_END
    ensures i == |mm.vm| - 1 ==> mm.vm[i] == Vma(STACK_BASE, USER_STACK_TOP, Stack)
  {
  }

  lemma FillBounds(v: Vma, size: int, va: nat)
    requires v.start <= va < v.end <= USER_STACK_TOP && size == ToInt(v.end - v.start)
    ensures FillEnd(v.start, size) <= v.end
    ensures FitsInt(v) ==> FillEnd(v.start, size) == v.end
    ensures AlignDown(v.start) <= AlignDown(va) < v.end
    ensures UserAddr(PageOf(va)) == AlignDown(va) && PageOf(va).i4 < 256
  {
    FillRange(v, size);
    UserPage(va);
    AlignDownMono(v.start, va);
  }

  lemma FillRange(v: Vma, size: int)
    requires v.start < v.end <= USER_STACK_TOP && size == ToInt(v.end - v.start)
    ensures FillEnd(v.start, size) <= v.end
    ensures FitsInt(v) ==> FillEnd(v.start, size) == v.end
  {
    NumPagesExact(v.start, size);
  }

  lemma AlignDownMono(a: nat, b: nat)
    requires a <= b
    ensures AlignDown(a) <= AlignDown(b)
  {
  }

  ghost predicate SameKeys(u: UserMap, u': UserMap) {
    forall key: Key {:trigger key in u'} :: key in u' <==> key in u
  }

  /** What bit 0 of the error code says: the page of the address is mapped. */
  ghost predicate Mapped(s: Vm, g: Shape, va: nat) {
    if va < USER_END then (s.cr3, PageOf(va)) in g.maps.user else Walk(s.mem, s.cr3, PageOf(va)).Some?
  }

  /** How many pages, over all spaces, have the frame of the page at `va`. */
  ghost function Sharers(s: Vm, g: Shape, va: nat): nat {
    var key := (s.cr3, PageOf(va));
    if key in g.maps.user then |Refs(g.maps.user, Base(g.maps.user[key]))| else 0
  }

  /** A fault on a mapped page: a copy-on-write page gets a frame of its own. */
  method ProtectionFault(s: Vm, ghost g: Shape, ghost procs: seq<Mm>, ghost current: nat, va: nat)
    returns (r: FaultResult, s': Vm, ghost g': Shape)
    requires System(s, g, procs, current) && (va < USER_END || UPPER <= va < U64) && Mapped(s, g, va)
    ensures !r.KernelFault? && (va >= USER_END ==> r.SegFault?)
    ensures r.Handled? ==> System(s', g', procs, current) && SameSight(s, g, s', g') && s' == s.(mem := s'.mem, alloc := s'.alloc)
    ensures r.Handled? ==> SameKeys(g.maps.user, g'.maps.user) && Mapped(s, g, va) && Writable(g'.maps.user[(s.cr3, PageOf(va))])
    ensures r.SegFault? ==> s' == s && g' == g
    ensures va < USER_END ==> (r.SegFault? <==> Writable(g.maps.user[(s.cr3, PageOf(va))]))
    ensures r.NoMemoryLeft? ==> s.alloc.free == []
    ensures s.alloc.free == [] ==> !r.Handled?
    ensures r.Handled? ==> |s'.alloc.free| == |s.alloc.free| - if Sharers(s, g, va) > 1 then 1 else 0
    ensures r.Handled? ==> Stray(s', g') == Stray(s, g)
  {
    s', g' := s, g;
    var pte := FaultPte(s, g, procs, current, va);
    if IsCow(pte) && !IsRw(pte) {
      var ok, s1, g1 := BreakShare(s, g, va, pte);
      if !ok {
        return NoMemoryLeft, s', g';
      }
      SystemSameKeys(s, g, s1, g1, procs, current);
      return Handled, s1, g1;
    }
    r := SegFault;
  }

  /** The frames do not suffice to fill the vma that holds the address. */
  ghost predicate Unfillable(s: Vm, g: Shape, vm: seq<Vma>, va: nat) {
    var i := FirstVma(vm, va);
    i < |vm| && VmaNeed(Pages(g.maps.user, s.cr3), vm[i]) > |s.alloc.free|
  }

  /** The vma is filled, and the frames this took are those of its pages and their tables. */
  ghost predicate HeldFill(s: Vm, g: Shape, s': Vm, g': Shape, vm: seq<Vma>, va: nat) {
    var i := FirstVma(vm, va);
    && i < |vm| && Pages(g'.maps.user, s.cr3) == Pages(g.maps.user, s.cr3) + VmaFill(vm[i])
    && Held(s', g', s.cr3) == Held(s, g, s.cr3)
  }

  /** A fault on an absent page: the vma that holds the address is filled. */
  method AbsentFault(s: Vm, ghost g: Shape, procs: seq<Mm>, current: nat, va: nat) returns (r: FaultResult, s': Vm, ghost g': Shape)
    requires System(s, g, procs, current) && va < U64
    ensures !r.KernelFault? && (r.SegFault? <==> FirstVma(procs[current].vm, va) == |procs[current].vm|)
    ensures va >= USER_END ==> r.SegFault?
    ensures r.Handled? ==> System(s', g', procs, current) && SameSight(s, g, s', g') && s' == s.(mem := s'.mem, alloc := s'.alloc)
    ensures r.Handled? ==> forall key: Key :: key in g'.maps.user && key !in g.maps.user ==> Writable(g'.maps.user[key])
    ensures r.Handled? ==>
              var vm := procs[current].vm; var i := FirstVma(vm, va); i < |vm| && FilledBy(g.maps.user, g'.maps.user, s.cr3, vm[i])
    ensures r.SegFault? ==> s' == s && g' == g
    ensures r.NoMemoryLeft? ==> Unfillable(s, g, procs[current].vm, va)
    ensures Unfillable(s, g, procs[current].vm, va) ==> !r.Handled?
    ensures r.Handled? ==> HeldFill(s, g, s', g', procs[current].vm, va) && Stray(s', g') == Stray(s, g)
  {
    s', g' := s, g;
    assert ProcOk(g.role, g.maps.user, procs[current]);
    NoneAbove(procs[current], va);
    var i := FindVma(procs[current].vm, va);
    if i == |procs[current].vm| {
      return SegFault, s', g';
    }
    var ok, s1, g1 := FillVma(s, g, procs, current, procs[current].vm[i], i, va);
    return if ok then Handled else NoMemoryLeft, s1, g1;
  }

  /**
   handle_pg_fault; `present` is bit 0 of the error code. In the upper half, where
   the tables and the kernel are, it never returns to the faulting instruction.
   */
  method HandlePgFault(s: Vm, ghost g: Shape, procs: seq<Mm>, current: nat, va: nat, present: bool)
    returns (r: FaultResult, s': Vm, ghost g': Shape)
    requires System(s, g, procs, current) && (va < USER_END || UPPER <= va < U64) && (present ==> Mapped(s, g, va))
    ensures r.KernelFault? <==> va >= KERNBASE
    ensures USER_END <= va < KERNBASE ==> r.SegFault?
    ensures r.Handled? ==> System(s', g', procs, current) && SameSight(s, g, s', g') && s' == s.(mem := s'.mem, alloc := s'.alloc)
    ensures r.Handled? && present ==>
              SameKeys(g.maps.user, g'.maps.user) && Mapped(s, g, va) && Writable(g'.maps.user[(s.cr3, PageOf(va))])
    ensures r.Handled? && !present ==> forall key: Key :: key in g'.maps.user && key !in g.maps.user ==> Writable(g'.maps.user[key])
    ensures r.Handled? && !present ==>
              var vm := procs[current].vm; var i := FirstVma(vm, va); i < |vm| && FilledBy(g.maps.user, g'.maps.user, s.cr3, vm[i])
    ensures r.SegFault? ==> s' == s && g' == g
    ensures present && va < USER_END ==> (r.SegFault? <==> Writable(g.maps.user[(s.cr3, PageOf(va))]))
    ensures !present && va < USER_END ==> (r.SegFault? <==> forall v :: v in procs[current].vm ==> !(v.start <= va < v.end))
    ensures r.NoMemoryLeft? ==> if present then s.alloc.free == [] else Unfillable(s, g, procs[current].vm, va)
    ensures (if present then s.alloc.free == [] else Unfillable(s, g, procs[current].vm, va)) ==> !r.Handled?
    ensures r.Handled? && !present ==> HeldFill(s, g, s', g', procs[current].vm, va)
    ensures r.Handled? && present ==> |s'.alloc.free| == |s.alloc.free| - if Sharers(s, g, va) > 1 then 1 else 0
    ensures r.Handled? ==> Stray(s', g') == Stray(s, g)
  {
    NoVma(procs[current].vm, va);
    if va >= KERNBASE {
      return KernelFault, s, g;
    }
    if present {
      r, s', g' := ProtectionFault(s, g, procs, current, va);
    } else {
      r, s', g' := AbsentFault(s, g, procs, current, va);
    }
  }

  /** No vma holds an address above the user half. */
  lemma NoneAbove(mm: Mm, va: nat)
    requires WellFormed(mm)
    ensures va >= USER_END ==> FirstVma(mm.vm, va) == |mm.vm|
  {
    if va >= USER_END {
      forall j | 0 <= j < |mm.vm| ensures !(mm.vm[j].start <= va < mm.vm[j].end) {
        VmaBounds(mm, j);
      }
      FirstVmaIs(mm.vm, va, |mm.vm|);
    }
  }

  /** A mapped page of the upper half, a table's or the kernel's, is not copy-on-write. */
  lemma UpperEntry(s: Vm, g: Shape, procs: seq<Mm>, current: nat, va: nat)
    requires System(s, g, procs, current) && UPPER <= va < U64 && Walk(s.mem, s.cr3, PageOf(va)).Some?
    ensures IsRw(Walk(s.mem, s.cr3, PageOf(va)).value)
  {
    var p := PageOf(va);
    UpperPage(va);
    assert ProcOk(g.role, g.maps.user, procs[current]);
    if p.i4 == 510 {
      TableEntry(s.mem, g.role, s.initPml4, s.cr3, p);
    } else {
      WalkIsLookup(s.mem, g.role, s.initPml4, g.maps, s.cr3, p);
      assert (s.cr3, p) in g.maps.user ==> InVmas(procs[current].vm, p);
    }
  }

  /** The entry the handler reads for a mapped page. */
  method FaultPte(s: Vm, ghost g: Shape, ghost procs: seq<Mm>, ghost current: nat, va: nat) returns (pte: nat)
    requires System(s, g, procs, current) && (va < USER_END || UPPER <= va < U64) && Mapped(s, g, va)
    ensures va < USER_END ==> pte == g.maps.user[(s.cr3, PageOf(va))]
    ensures va < USER_END && IsCow(pte) && !IsRw(pte) ==> pte == Base(pte) + COW_USER
    ensures va < USER_END && !(IsCow(pte) && !IsRw(pte)) ==> Writable(pte)
    ensures va >= USER_END ==> IsRw(pte)
  {
    if va < USER_END {
      pte := MappedPte(s, g, va);
    } else {
      UpperEntry(s, g, procs, current, va);
      var at := Deref(s, g, va, 1);
      pte := Word(s.mem, at.0, at.1);
    }
  }

  /** The entry of a mapped user page: copy-on-write or writable, by its bits. */
  method MappedPte(s: Vm, ghost g: Shape, va: nat) returns (pte: nat)
    requires Sound(s, g) && va < USER_END && (s.cr3, PageOf(va)) in g.maps.user
    ensures pte == g.maps.user[(s.cr3, PageOf(va))]
    ensures IsCow(pte) && !IsRw(pte) ==> pte == Base(pte) + COW_USER
    ensures !(IsCow(pte) && !IsRw(pte)) ==> Writable(pte)
  {
    UserHalf(va);
    MappedHasTable(s, g, PageOf(va));
    pte := ReadPte(s, g, va);
    assert EntryOk(g.maps.user, s.alloc.counts, g.role, (s.cr3, PageOf(va)));
    var b := Base(g.maps.user[(s.cr3, PageOf(va))]);
    assert FrameOk(s.mem, b);
    FlagBits(b);
  }

  // ------------------------------------------------------------------- fork

  /** The stack lies under one page table. */
  lemma StackTables(s: Vm, g: Shape, mm: Mm)
    requires Ok(s, g) && ProcOk(g.role, g.maps.user, mm) && s.cr3 == mm.pml4
    ensures HasTables(s.mem, s.cr3, Vma(STACK_BASE, USER_STACK_TOP, Stack), USER_STACK_TOP)
  {
    UserHalf(STACK_PAGE);
    MappedHasTable(s, g, PageOf(STACK_PAGE));
    forall a: nat | STACK_BASE <= a < USER_STACK_TOP
      ensures PtFor(s.mem, s.cr3, PageOf(a)).Some?
    {
      OneStackTable(a);
    }
  }

  lemma OneStackTable(a: nat)
    requires STACK_BASE <= a < USER_STACK_TOP
    ensures PageOf(a).i4 == PageOf(STACK_PAGE).i4 && PageOf(a).i3 == PageOf(STACK_PAGE).i3 && PageOf(a).i2 == PageOf(STACK_PAGE).i2
  {
    assert a / 0x20_0000 == STACK_PAGE / 0x20_0000;
    assert a / 0x4000_0000 == STACK_PAGE / 0x4000_0000;
    assert a / 0x80_0000_0000 == STACK_PAGE / 0x80_0000_0000;
  }

  lemma InLowerHalf(mm: Mm, p: Page)
    requires WellFormed(mm) && InVmas(mm.vm, p)
    ensures p.i4 < 256
  {
  }

  lemma ProcForkable(s: Vm, g: Shape, mm: Mm)
    requires Sound(s, g) && ProcOk(g.role, g.maps.user, mm) && s.cr3 == mm.pml4
    ensures Forkable(s, g, mm)
  {
    StackTables(s, g, mm);
    forall p: Page | (s.cr3, p) in g.maps.user ensures p.i4 < 256 {
      InLowerHalf(mm, p);
    }
  }

  /** Once the walk is over, the parent's present pages are exactly the duplicated ones. */
  lemma AllPassed(u: UserMap, role: Roles, mm: Mm, done: set<Page>)
    requires ProcOk(role, u, mm) && Passed(u, mm.pml4, mm.vm, 0, 0, done)
    ensures forall p: Page :: (mm.pml4, p) in u <==> p in done
  {
    forall p: Page | (mm.pml4, p) in u ensures p in done {
      assert InVmas(mm.vm, p);
    }
  }

  /** A process with the same vmas and the same present pages, under another root. */
  lemma ProcCopied(role: Roles, u: UserMap, role': Roles, u': UserMap, mm: Mm, c: nat)
    requires ProcOk(role, u, mm) && IsRoot(role', c)
    requires forall p: Page :: (c, p) in u' <==> (mm.pml4, p) in u
    ensures ProcOk(role', u', mm.(pml4 := c))
  {
    forall p: Page | (c, p) in u' ensures InVmas(mm.vm, p) {
      assert (mm.pml4, p) in u;
    }
  }

  /** The system after a completed walk, with the child as a new process. */
  lemma SystemForked(s: Vm, g: Shape, s': Vm, g': Shape, procs: seq<Mm>, current: nat, c: nat, done: set<Page>)
    requires System(s, g, procs, current) && Forking(s, g, s', g', c, done)
    requires Passed(g.maps.user, s.cr3, procs[current].vm, 0, 0, done)
    requires forall i :: 0 <= i < |procs| ==> procs[i].pml4 != c
    ensures System(s', g', procs + [procs[current].(pml4 := c)], current)
    ensures forall p: Page :: View(g'.maps.user, s'.mem, (c, p)) == View(g.maps.user, s.mem, (s.cr3, p))
    ensures KeysForked(g.maps.user, g'.maps.user, s.cr3, c)
  {
    var mm := procs[current];
    assert ProcOk(g.role, g.maps.user, mm);
    AllPassed(g.maps.user, g.role, mm, done);
    forall i | 0 <= i < |procs| ensures ProcOk(g'.role, g'.maps.user, procs[i]) {
      assert ProcOk(g.role, g.maps.user, procs[i]);
      assert procs[i].pml4 != c;
      ProcSameKeys(g.role, g.maps.user, g'.role, g'.maps.user, procs[i]);
    }
    ProcCopied(g.role, g.maps.user, g'.role, g'.maps.user, mm, c);
    var procs' := procs + [mm.(pml4 := c)];
    forall i | 0 <= i < |procs'| ensures ProcOk(g'.role, g'.maps.user, procs'[i]) {
      assert i < |procs| ==> ProcOk(g'.role, g'.maps.user, procs[i]);
    }
    forall p: Page ensures View(g'.maps.user, s'.mem, (c, p)) == View(g.maps.user, s.mem, (s.cr3, p)) {
      ForkingDone(s, g, s', g', c, done, p);
    }
  }

  /** Frames for two pages of the kernel window and the tables they lack. */
  ghost function SpaceNeed(s: Vm, g: Shape): nat {
    2 + WindowTables(s, g) + Missing(g.role.Values + Path(s.initPml4, PageOf(s.freeAddr)), s.initPml4, PageOf(s.freeAddr + PGSIZE))
  }

  /** The tables above those two pages. */
  ghost function SpaceTables(s: Vm): set<Role> {
    Path(s.initPml4, PageOf(s.freeAddr)) + Path(s.initPml4, PageOf(s.freeAddr + PGSIZE))
  }

  /** One more allocated frame that is neither a table nor mapped by a user page. */
  ghost predicate OneMoreStray(s: Vm, g: Shape, s': Vm, g': Shape) {
    Stray(s, g) <= Stray(s', g') && |Stray(s', g')| == |Stray(s, g)| + 1
  }

  lemma StrayKernelPage(s: Vm, g: Shape, s': Vm, g': Shape, f: nat)
    requires Sound(s, g) && g'.maps.user == g.maps.user && Bare(s', g') == Bare(s, g) + {f} && !Counted(s.alloc.counts, f)
    ensures OneMoreStray(s, g, s', g')
  {
    FreeUnmapped(g.maps.user, s.alloc.counts, g.role, f);
    StrayTaken(s, g, s', g', f);
  }

  /** A kernel stack and a new address space for the child. */
  method ChildSpace(s: Vm, ghost g: Shape) returns (ok: bool, c: nat, s': Vm, ghost g': Shape)
    requires Sound(s, g) && s.freeAddr + 9 * PGSIZE <= U64
    ensures ok ==> Sound(s', g') && Preserves(s, g, s', g') && SameSight(s, g, s', g')
    ensures ok ==> IsRoot(g'.role, c) && c !in g.role && (forall p: Page :: (c, p) !in g'.maps.user)
    ensures ok <==> SpaceNeed(s, g) <= |s.alloc.free|
    ensures ok ==> |s'.alloc.free| == |s.alloc.free| - SpaceNeed(s, g) && s'.freeAddr == s.freeAddr + 9 * PGSIZE
    ensures ok ==> OneMoreStray(s, g, s', g') && g'.role.Values == g.role.Values + SpaceTables(s)
  {
    c := 0;
    var ok1, kstack, s1, g1 := Kmalloc(s, g);
    if !ok1 {
      return false, c, s1, g1;
    }
    ok, c, s', g' := AllocPml4(s1, g1);
    if ok {
      PreservesTrans(s, g, s1, g1, s', g');
      PreservesUser(s, g, s', g');
      RootBefore(s, g, s1, g1, c);
      StrayKernelPage(s, g, s', g', Base(Mapping(s1, g1, PageOf(kstack)).value));
    }
  }

  lemma RootBefore(s: Vm, g: Shape, s1: Vm, g1: Shape, c: nat)
    requires Ok(s, g) && Preserves(s, g, s1, g1) && c !in g1.role
    ensures c !in g.role
  {
    assert c in g.role ==> Counted(s.alloc.counts, c);
  }

  /** The child's present pages are the parent's; nobody else's have changed. */
  ghost predicate KeysForked(u: UserMap, u': UserMap, r: nat, c: nat) {
    && (forall key: Key {:trigger key in u'} :: key.0 != c ==> (key in u' <==> key in u))
    && (forall p: Page {:trigger (c, p) in u'} :: (c, p) in u' <==> (r, p) in u)
  }

  /** Everyone but `c` sees what they saw, and `c` sees what the forking process sees. */
  ghost predicate SeenByChild(s: Vm, g: Shape, s': Vm, g': Shape, c: nat) {
    var u, u' := g.maps.user, g'.maps.user;
    && (forall key: Key {:trigger SeesSame(u, s.mem, u', s'.mem, key)} :: key.0 != c ==> SeesSame(u, s.mem, u', s'.mem, key))
    && (forall p: Page {:trigger View(u', s'.mem, (c, p))} :: View(u', s'.mem, (c, p)) == View(u, s.mem, (s.cr3, p)))
  }

  lemma SeenThrough(s: Vm, g: Shape, s1: Vm, g1: Shape, s2: Vm, g2: Shape, c: nat)
    requires SameSight(s, g, s1, g1) && s1.cr3 == s.cr3 && SeenByChild(s1, g1, s2, g2, c)
    ensures SeenByChild(s, g, s2, g2, c)
  {
    forall key: Key | key.0 != c ensures SeesSame(g.maps.user, s.mem, g2.maps.user, s2.mem, key) {
      assert SeesSame(g.maps.user, s.mem, g1.maps.user, s1.mem, key) && SeesSame(g1.maps.user, s1.mem, g2.maps.user, s2.mem, key);
    }
    forall p: Page ensures View(g2.maps.user, s2.mem, (c, p)) == View(g.maps.user, s.mem, (s.cr3, p)) {
      assert SeesSame(g.maps.user, s.mem, g1.maps.user, s1.mem, (s.cr3, p));
    }
  }

  /** Every page fork inspects outside the stack shares its page table with a page that is mapped. */
  ghost predicate Covered(P: set<Page>, vm: seq<Vma>) {
    forall i, a: nat {:trigger PageIn(vm, i, a)} :: PageIn(vm, i, a) ==> Near(P, PageOf(a), 1)
  }

  /** `a` is the address of a page of vma `i`. */
  predicate PageIn(vm: seq<Vma>, i: int, a: nat) {
    0 <= i < |vm| && Touches(vm[i], a) && a % PGSIZE == 0
  }

  lemma TablesCovered(s: Vm, g: Shape, procs: seq<Mm>, current: nat)
    requires System(s, g, procs, current)
    ensures AllTables(s.mem, s.cr3, procs[current].vm) <==> Covered(Pages(g.maps.user, s.cr3), procs[current].vm)
  {
    var vm, P := procs[current].vm, Pages(g.maps.user, s.cr3);
    assert ProcOk(g.role, g.maps.user, procs[current]);
    forall i, a: nat | PageIn(vm, i, a) ensures TableFor(s.mem, s.cr3, a) <==> Near(P, PageOf(a), 1) {
      VmaBounds(procs[current], i);
      UserHalf(a);
      TableInUse(s, g, s.cr3, PageOf(a), 2);
      WalkTables(s.mem, g.role, s.initPml4, s.cr3, PageOf(a));
    }
    if AllTables(s.mem, s.cr3, vm) {
      forall i, a: nat | PageIn(vm, i, a) ensures Near(P, PageOf(a), 1) {
        assert HasTables(s.mem, s.cr3, vm[i], vm[i].end);
        assert TableFor(s.mem, s.cr3, a);
      }
    }
    if Covered(P, vm) {
      forall i | 0 <= i < |vm| ensures HasTables(s.mem, s.cr3, vm[i], vm[i].end) {
        forall a: nat | AlignDown(vm[i].start) <= a < vm[i].end && a % PGSIZE == 0 ensures TableFor(s.mem, s.cr3, a) {
          assert PageIn(vm, i, a);
        }
      }
    }
  }

  /** Frames fork needs: the child's kernel pages, its tables, and a copy of each stack page. */
  ghost function ForkNeed(s: Vm, g: Shape): nat {
    SpaceNeed(s, g) + ForkCost(Pages(g.maps.user, s.cr3))
  }

  /** Kernel addresses for the child's kernel stack and root. */
  predicate WindowRoom(s: Vm) {
    s.freeAddr + 9 * PGSIZE <= U64
  }

  lemma AllPages(u: UserMap, r: nat, done: set<Page>)
    requires forall p: Page :: (r, p) in u <==> p in done
    ensures Pages(u, r) == done
  {
  }

  /**
   fork_process: the child gets a descriptor of its own with an equal vma list
   (`VmaList` has the list in memory) and sees, page for page, what the parent
   sees; nobody else notices. It completes exactly when every page it inspects
   outside the stack shares a page table with a mapped one, and frames and
   kernel addresses suffice; a missing table faults in the kernel.
   */
  method ForkProcess(s: Vm, ghost g: Shape, procs: seq<Mm>, current: nat) returns (r: ForkResult, child: Mm, s': Vm, ghost g': Shape)
    requires System(s, g, procs, current)
    ensures r.Forked? ==> System(s', g', procs + [child], current) && s'.cr3 == s.cr3
    ensures r.Forked? ==> child == procs[current].(pml4 := child.pml4)
    ensures r.Forked? ==> SeenByChild(s, g, s', g', child.pml4) && KeysForked(g.maps.user, g'.maps.user, s.cr3, child.pml4)
    ensures r.Forked? <==> Covered(Pages(g.maps.user, s.cr3), procs[current].vm) && ForkNeed(s, g) <= |s.alloc.free| && WindowRoom(s)
    ensures r.NoTable? ==> !Covered(Pages(g.maps.user, s.cr3), procs[current].vm)
    ensures r.NoMemory? ==> ForkNeed(s, g) > |s.alloc.free| || !WindowRoom(s)
    ensures r.Forked? ==> |s'.alloc.free| == |s.alloc.free| - ForkNeed(s, g) && s'.freeAddr == s.freeAddr + 9 * PGSIZE
    ensures r.Forked? ==> OneMoreStray(s, g, s', g')
  {
    var mm := procs[current];
    child := mm;
    if s.freeAddr + 9 * PGSIZE > U64 {
      return NoMemory, child, s, g;
    }
    var ok, c, s1, g1 := ChildSpace(s, g);
    if !ok {
      return NoMemory, child, s1, g1;
    }
    child := mm.(pml4 := c);
    SystemSameKeys(s, g, s1, g1, procs, current);
    NewRootApart(s, g, procs, current, c);
    r, s', g' := ForkInto(s1, g1, procs, current, c);
    if r.Forked? {
      SeenThrough(s, g, s1, g1, s', g', c);
    }
  }

  /** The part of fork after the child has its space `c`. */
  method ForkInto(s: Vm, ghost g: Shape, procs: seq<Mm>, current: nat, c: nat) returns (r: ForkResult, s': Vm, ghost g': Shape)
    requires System(s, g, procs, current) && IsRoot(g.role, c) && (forall p: Page :: (c, p) !in g.maps.user)
    requires forall i :: 0 <= i < |procs| ==> procs[i].pml4 != c
    ensures r.Forked? ==> System(s', g', procs + [procs[current].(pml4 := c)], current) && s'.cr3 == s.cr3
    ensures r.Forked? ==> SeenByChild(s, g, s', g', c) && KeysForked(g.maps.user, g'.maps.user, s.cr3, c)
    ensures r.Forked? <==> Covered(Pages(g.maps.user, s.cr3), procs[current].vm) && ForkCost(Pages(g.maps.user, s.cr3)) <= |s.alloc.free|
    ensures r.NoTable? ==> !Covered(Pages(g.maps.user, s.cr3), procs[current].vm)
    ensures r.NoMemory? ==> ForkCost(Pages(g.maps.user, s.cr3)) > |s.alloc.free|
    ensures r.Forked? ==> |s'.alloc.free| == |s.alloc.free| - ForkCost(Pages(g.maps.user, s.cr3)) && s'.freeAddr == s.freeAddr
    ensures r.Forked? ==> Stray(s', g') == Stray(s, g)
  {
    var mm := procs[current];
    assert ProcOk(g.role, g.maps.user, mm);
    ProcForkable(s, g, mm);
    TablesCovered(s, g, procs, current);
    ghost var done;
    r, s', g', done := ForkPages(s, g, c, mm);
    if r.Forked? {
      SystemForked(s, g, s', g', procs, current, c, done);
      AllPassed(g.maps.user, g.role, mm, done);
      AllPages(g.maps.user, s.cr3, done);
    }
  }

  lemma NewRootApart(s: Vm, g: Shape, procs: seq<Mm>, current: nat, c: nat)
    requires System(s, g, procs, current) && c !in g.role
    ensures forall i :: 0 <= i < |procs| ==> procs[i].pml4 != c
  {
    forall i | 0 <= i < |procs| ensures procs[i].pml4 != c {
      assert ProcOk(g.role, g.maps.user, procs[i]);
    }
  }
}
