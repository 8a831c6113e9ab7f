/**
 A process's memory descriptor: its list of mapped ranges (`vma_struct`), the
 heap break, and the system call that moves it (`sys_brk`).
 */
module Layout {
  import opened Machine

  datatype VmaType = Text | Data | Stack | Heap | NoType

  datatype Vma = Vma(start: nat, end: nat, kind: VmaType)

  /** The parts of mm_struct the memory code reads. */
  datatype Mm = Mm(pml4: nat, vm: seq<Vma>, startBrk: nat, brk: nat)

  const STACK_BASE := USER_STACK_TOP - USER_STACK_SIZE

  /** The byte range of the vma reaches into the page at aligned address `a`. */
  predicate Touches(v: Vma, a: nat) {
    AlignDown(v.start) <= a < v.end
  }

  predicate PageDisjoint(u: Vma, v: Vma) {
    u.end <= AlignDown(v.start) || v.end <= AlignDown(u.start)
  }

  ghost predicate Disjoint(vm: seq<Vma>) {
    forall i, j :: 0 <= i < j < |vm| ==> PageDisjoint(vm[i], vm[j])
  }

  /**
   The list load_elf builds: loadable segments, all below the heap, then the
   heap, page aligned and at most as high as the stack, then the stack.
   */
  ghost predicate WellFormed(mm: Mm) {
    var n := |mm.vm| - 2;
    && 0 <= n
    && Disjoint(mm.vm[..n])
    && (forall i :: 0 <= i < n ==> mm.vm[i].kind == Data && mm.vm[i].start <= mm.vm[i].end <= mm.startBrk)
    && mm.vm[n] == Vma(mm.startBrk, mm.vm[n].end, Heap)
    && mm.startBrk <= mm.vm[n].end <= STACK_BASE && mm.startBrk % PGSIZE == 0 && mm.vm[n].end % PGSIZE == 0
    && mm.vm[n + 1] == Vma(STACK_BASE, USER_STACK_TOP, Stack)
  }

  function HeapVma(mm: Mm): Vma
    requires |mm.vm| >= 2
  {
    mm.vm[|mm.vm| - 2]
  }

  /** Segments, heap and stack are pairwise page-disjoint. */
  lemma AllDisjoint(mm: Mm)
    requires WellFormed(mm)
    ensures Disjoint(mm.vm)
  {
    var n := |mm.vm| - 2;
    assert AlignDown(mm.startBrk) == mm.startBrk && AlignDown(STACK_BASE) == STACK_BASE;
    forall i, j | 0 <= i < j < |mm.vm|
      ensures PageDisjoint(mm.vm[i], mm.vm[j])
    {
      if j < n {
        assert mm.vm[..n][i] == mm.vm[i] && mm.vm[..n][j] == mm.vm[j];
      }
    }
  }

  datatype BrkResult = Current(brk: nat) | Grown | Collision | Illegal

  const MINUS_ONE := 0xFFFF_FFFF_FFFF_FFFF

  /** The heap's new end: a break above it, below the stack, takes it to the end of the break's page. */
  function HeapEnd(end: nat, nbrk: nat): (e: nat)
    ensures nbrk <= end || STACK_BASE <= nbrk ==> e == end
    ensures end < nbrk < STACK_BASE ==> nbrk <= e < nbrk + PGSIZE && e % PGSIZE == 0
  {
    if end < nbrk < STACK_BASE then AlignUp(nbrk) else end
  }

  /** What sys_brk does to a descriptor, and what it answers. -1 as an argument asks for the break. */
  function BrkOf(mm: Mm, nbrk: nat): (Mm, BrkResult)
    requires |mm.vm| >= 2
  {
    if nbrk == MINUS_ONE then (mm, Current(mm.brk))
    else if nbrk <= mm.brk then (mm, Illegal)
    else
      var heap := HeapVma(mm);
      (mm.(brk := nbrk, vm := mm.vm[|mm.vm| - 2 := heap.(end := HeapEnd(heap.end, nbrk))]),
       if heap.end < nbrk && STACK_BASE <= nbrk then Collision else Grown)
  }

  /** sys_brk, given the descriptor of the calling process. */
  method SysBrk(mm: Mm, nbrk: nat) returns (mm': Mm, r: BrkResult)
    requires WellFormed(mm) && nbrk <= MINUS_ONE
    ensures (mm', r) == BrkOf(mm, nbrk) && WellFormed(mm')
    ensures mm' == mm.(brk := mm'.brk, vm := mm.vm[|mm.vm| - 2 := HeapVma(mm')])
    ensures r.Current? <==> nbrk == MINUS_ONE
    ensures r.Illegal? <==> nbrk <= mm.brk && nbrk < MINUS_ONE
    ensures r.Collision? <==> mm.brk < nbrk < MINUS_ONE && HeapVma(mm).end < nbrk && STACK_BASE <= nbrk
    ensures r.Current? ==> r.brk == mm.brk
    ensures r.Current? || r.Illegal? ==> mm' == mm
    ensures r.Grown? || r.Collision? ==> mm'.brk == nbrk
    ensures HeapVma(mm).end <= HeapVma(mm').end
    ensures r.Grown? && nbrk <= HeapVma(mm).end ==> HeapVma(mm') == HeapVma(mm)
    ensures r.Grown? && HeapVma(mm).end < nbrk ==> nbrk <= HeapVma(mm').end < nbrk + PGSIZE && HeapVma(mm').end % PGSIZE == 0
    ensures r.Grown? ==> mm'.brk <= HeapVma(mm').end
    ensures r.Collision? ==> HeapVma(mm') == HeapVma(mm) && mm'.brk > HeapVma(mm').end
  {
    mm' := mm;
    assert mm.vm[|mm.vm| - 2 := HeapVma(mm)] == mm.vm;
    if nbrk == MINUS_ONE {
      return mm', Current(mm.brk);
    }
    if nbrk <= mm.brk {
      return mm', Illegal;
    }
    mm' := mm'.(brk := nbrk);
    var i := 0;
    while i < |mm.vm|
      invariant 0 <= i <= |mm.vm| - 2
      invariant mm' == mm.(brk := nbrk)
    {
      if mm.vm[i].kind == Heap {
        if nbrk > mm.vm[i].end {
          if nbrk >= STACK_BASE {
            return mm', Collision;
          }
          mm' := mm'.(vm := mm.vm[i := mm.vm[i].(end := AlignUp(nbrk))]);
        }
        break;
      }
      i := i + 1;
    }
    r := Grown;
    assert mm'.vm[..|mm.vm| - 2] == mm.vm[..|mm.vm| - 2];
  }

  /** The break is inside the heap's range. */
  predicate HeapFits(mm: Mm) {
    |mm.vm| >= 2 && mm.brk <= HeapVma(mm).end
  }

  /** The break has run into the stack, and cannot come back. */
  predicate Collided(mm: Mm) {
    |mm.vm| >= 2 && mm.brk > HeapVma(mm).end && mm.brk >= STACK_BASE
  }

  /** A call leaves the break inside the heap exactly when it reports no collision; a collided break stays so. */
  lemma BrkFits(mm: Mm, nbrk: nat)
    requires WellFormed(mm) && nbrk <= MINUS_ONE
    ensures var (mm', r) := BrkOf(mm, nbrk);
            && (HeapFits(mm) ==> if r.Collision? then Collided(mm') else HeapFits(mm'))
            && (Collided(mm) ==> Collided(mm'))
  {
  }

  /** What any sequence of brk calls does to a descriptor, and their answers. */
  function BrkRun(mm: Mm, addrs: seq<nat>): (r: (Mm, seq<BrkResult>))
    requires |mm.vm| >= 2
    ensures |r.0.vm| == |mm.vm| && |r.1| == |addrs|
  {
    if addrs == [] then (mm, [])
    else
      var (mm1, rs) := BrkRun(mm, addrs[..|addrs| - 1]);
      var (mm2, r) := BrkOf(mm1, addrs[|addrs| - 1]);
      (mm2, rs + [r])
  }

  lemma BrkWellFormed(mm: Mm, nbrk: nat)
    requires WellFormed(mm) && nbrk <= MINUS_ONE
    ensures WellFormed(BrkOf(mm, nbrk).0)
  {
    var mm' := BrkOf(mm, nbrk).0;
    assert mm'.vm[..|mm.vm| - 2] == mm.vm[..|mm.vm| - 2];
  }

  /**
   Any sequence of brk calls: the answers and the descriptor are those of the
   calls one by one, the list stays page-disjoint, and the break is inside the
   heap if and only if no call has reported a collision.
   */
  method RunBrk(mm: Mm, addrs: seq<nat>) returns (mm': Mm, rs: seq<BrkResult>)
    requires WellFormed(mm) && HeapFits(mm)
    requires forall i :: 0 <= i < |addrs| ==> addrs[i] <= MINUS_ONE
    ensures (mm', rs) == BrkRun(mm, addrs) && WellFormed(mm') && Disjoint(mm'.vm)
    ensures mm' == mm.(brk := mm'.brk, vm := mm.vm[|mm.vm| - 2 := HeapVma(mm')]) && mm.brk <= mm'.brk
    ensures HeapVma(mm') == HeapVma(mm) || HeapVma(mm').end < mm'.brk + PGSIZE
    ensures HeapFits(mm') <==> Collision !in rs
  {
    mm', rs := mm, [];
    while |rs| < |addrs|
      invariant |rs| <= |addrs| && WellFormed(mm') && (mm', rs) == BrkRun(mm, addrs[..|rs|])
      invariant mm' == mm.(brk := mm'.brk, vm := mm.vm[|mm.vm| - 2 := HeapVma(mm')]) && mm.brk <= mm'.brk
      invariant HeapVma(mm') == HeapVma(mm) || HeapVma(mm').end < mm'.brk + PGSIZE
      invariant if Collision in rs then Collided(mm') else HeapFits(mm')
      decreases |addrs| - |rs|
    {
      BrkFits(mm', addrs[|rs|]);
      assert addrs[..|rs| + 1][..|rs|] == addrs[..|rs|];
      var r;
      mm', r := SysBrk(mm', addrs[|rs|]);
      rs := rs + [r];
    }
    assert addrs[..|rs|] == addrs;
    AllDisjoint(mm');
  }
}
