/**
 The whole of `load_elf` (`sys/elf64.c`): the image of the executable, and on the
 top page of its stack the argument block that `_start` reads.
 */
module Exec {
  import opened Machine
  import opened Pointers
  import opened PageTable
  import opened Paging
  import opened Cow
  import opened Demand
  import opened Layout
  import opened Fork
  import opened Process
  import opened Loader
  import opened ArgBlock
  import Move

  ghost function StackByte(u: UserMap, mem: Memory, r: nat, o: nat): Move.Byte {
    ByteAt(u, mem, r, PAGE_ADDR + o)
  }

  /** The bytes of the top stack page, as the process sees them. */
  ghost function StackBytes(u: UserMap, mem: Memory, r: nat): (page: seq<Move.Byte>)
    ensures |page| == PGSIZE
  {
    seq(PGSIZE, (o: nat) => StackByte(u, mem, r, o))
  }

  /**
   With the block at `ss`, _start finds these strings; a null ends the arguments,
   and the environment if and only if the first eight strings are empty.
   */
  ghost predicate StartSees(page: seq<Move.Byte>, ss: nat, args: seq<Str>, envs: seq<Str>) {
    && ss + 8 <= |page|
    && var argv, envp := Argv(ss - 24), Envp(page, ss - 24);
    && Argc(page, ss - 24) == |args|
    && argv + 8 * |args| + 8 <= |page| && Number(page, argv + 8 * |args|, 8) == 0
    && ReadsBack(page, argv, args) && ReadsBack(page, envp, envs)
    && envp + 8 * |envs| + 8 <= |page| && (Number(page, envp + 8 * |envs|, 8) == 0 <==> FirstEmpty(args + envs, 8))
  }

  /** `page` holds what the process sees on the top page of its stack. */
  ghost predicate ShowsPage(u: UserMap, mem: Memory, r: nat, page: seq<Move.Byte>) {
    |page| == PGSIZE && forall o: nat {:trigger page[o]} :: o < PGSIZE ==> page[o] == ByteAt(u, mem, r, PAGE_ADDR + o)
  }

  lemma StackShown(u: UserMap, mem: Memory, r: nat)
    ensures ShowsPage(u, mem, r, StackBytes(u, mem, r))
  {
  }

  /** Where _start finds the arguments: counted at the stack pointer, and pointed to from the words that follow. */
  lemma ArgumentsAt(page: seq<Move.Byte>, ss: nat, args: seq<Str>, envs: seq<Str>) returns (o: nat)
    requires StartSees(page, ss, args, envs)
    ensures Number(page, ss, 4) == |args| && o == ss + 8 && ReadsBack(page, o, args)
  {
    o := Argv(ss - 24);
  }

  /** Where its environment is: behind the null that ends those. */
  lemma EnvironmentAt(page: seq<Move.Byte>, ss: nat, args: seq<Str>, envs: seq<Str>) returns (o: nat)
    requires StartSees(page, ss, args, envs)
    ensures o == ss + 16 + 8 * |args| && ReadsBack(page, o, envs)
  {
    o := Envp(page, ss - 24);
  }

  /** Each string of a vector is in the process's memory at the address its pointer holds. */
  lemma StringAtPointer(u: UserMap, mem: Memory, r: nat, page: seq<Move.Byte>, o: nat, strs: seq<Str>, i: nat, j: nat) returns (a: nat)
    requires ShowsPage(u, mem, r, page) && ReadsBack(page, o, strs) && i < |strs| && j < |strs[i]|
    ensures o + 8 * i + 8 <= |page| && Number(page, o + 8 * i, 8) == a
    ensures ByteAt(u, mem, r, a + j) == strs[i][j]
  {
    a := PointerReads(page, o, strs, i, j);
    PageByte(u, mem, r, page, a, j);
  }

  lemma PageByte(u: UserMap, mem: Memory, r: nat, page: seq<Move.Byte>, a: nat, j: nat)
    requires ShowsPage(u, mem, r, page) && PAGE_ADDR <= a && a - PAGE_ADDR + j < |page|
    ensures ByteAt(u, mem, r, a + j) == page[a - PAGE_ADDR + j]
  {
  }

  /** The image everywhere but in the block, which spans [rsp, start_stack). */
  ghost predicate ImageAround(u: UserMap, mem: Memory, r: nat, file: seq<nat>, segs: seq<Phdr>, rsp: nat)
    requires SegmentsOk(file, segs)
  {
    forall c: nat {:trigger ByteAt(u, mem, r, c)} :: c < USER_END && !(rsp <= c < PAGE_ADDR + START) ==>
      ByteAt(u, mem, r, c) == ImageByte(file, segs, c)
  }

  lemma {:induction false} NoImageOnStack(file: seq<nat>, segs: seq<Phdr>, a: nat)
    requires SegmentsOk(file, segs) && STACK_BASE <= a
    ensures ImageByte(file, segs, a) == 0
  {
    if segs != [] {
      assert SegmentOk(file, segs[|segs| - 1]);
      NoImageOnStack(file, segs[..|segs| - 1], a);
    }
  }

  lemma SamePage(base: nat, a: nat)
    requires base % PGSIZE == 0 && base <= a < base + PGSIZE
    ensures AlignDown(a) == base
  {
  }

  lemma OnStackPage(u: UserMap, r: nat, a: nat)
    requires StackMapped(u, r) && PAGE_ADDR <= a < USER_STACK_TOP
    ensures (r, PageOf(a)) in u && Writable(u[(r, PageOf(a))])
  {
    UserPage(a);
    PageOfUserAddr(PageOf(a));
    StackPageAt();
    PageOfUserAddr(PageOf(STACK_PAGE));
    SamePage(STACK_PAGE, a);
  }

  lemma StackWritable(u: UserMap, r: nat, lo: nat, hi: nat)
    requires StackMapped(u, r) && PAGE_ADDR <= lo && hi <= USER_STACK_TOP
    ensures WritableRange(u, r, lo, hi)
  {
    forall a: nat | lo <= a < hi ensures (r, PageOf(a)) in u && Writable(u[(r, PageOf(a))]) {
      OnStackPage(u, r, a);
    }
  }

  /** The page the process sees is the one the block was built in. */
  lemma PageSeen(u: UserMap, mem: Memory, mem': Memory, r: nat, file: seq<nat>, segs: seq<Phdr>, page: seq<Move.Byte>, ss: nat, src: seq<nat>)
    requires SegmentsOk(file, segs) && ImageIn(u, mem, r, file, segs)
    requires |page| == PGSIZE && ss <= START && src == page[ss..START] && WroteBytes(u, mem, mem', r, PAGE_ADDR + ss, src)
    requires ZeroBytes(page, 0, ss) && ZeroBytes(page, START, 8)
    ensures StackBytes(u, mem', r) == page && ImageAround(u, mem', r, file, segs, PAGE_ADDR + ss)
  {
    forall o | 0 <= o < PGSIZE ensures ByteAt(u, mem', r, PAGE_ADDR + o) == page[o] {
      NoImageOnStack(file, segs, PAGE_ADDR + o);
      assert ByteAt(u, mem, r, PAGE_ADDR + o) == 0;
    }
    forall c: nat | c < USER_END && !(PAGE_ADDR + ss <= c < PAGE_ADDR + START)
      ensures ByteAt(u, mem', r, c) == ImageByte(file, segs, c)
    {
      assert ByteAt(u, mem, r, c) == ImageByte(file, segs, c);
    }
  }

  lemma BlockSees(page: seq<Move.Byte>, ss: nat, args: seq<Str>, envs: seq<Str>, ap: seq<nat>, ep: seq<nat>)
    requires |page| == PGSIZE && Block(page, ss, args, envs, ap, ep) && Small(args) && Small(envs) && ZeroBytes(page, START, 8)
    ensures StartSees(page, ss, args, envs)
  {
    var argv, envp := RoundTrip(page, ss, args, envs, ap, ep);
    var end := NullAfterEnvp(page, ss, args, envs, ap, ep);
  }

  /** The block on a zeroed page. */
  method BlockPage(args: seq<Str>, envs: seq<Str>) returns (ss: nat, page: seq<Move.Byte>)
    requires Small(args) && Small(envs)
    ensures |page| == PGSIZE && ss <= START && ZeroBytes(page, 0, ss) && ZeroBytes(page, START, 8)
    ensures StartSees(page, ss, args, envs)
  {
    var a := new Move.Byte[PGSIZE](i => 0);
    ghost var ap, ep;
    ss, ap, ep := Build(a, args, envs);
    page := a[..];
    BlockSees(page, ss, args, envs, ap, ep);
  }

  /** The block stored in the new process's space. */
  method PutBlock(s: Vm, ghost g: Shape, pml4: nat, ghost file: seq<nat>, ghost segs: seq<Phdr>, page: seq<Move.Byte>, ss: nat)
    returns (s': Vm)
    requires Sound(s, g) && IsRoot(g.role, pml4) && StackMapped(g.maps.user, pml4)
    requires SegmentsOk(file, segs) && ImageIn(g.maps.user, s.mem, pml4, file, segs)
    requires |page| == PGSIZE && ss <= START && ZeroBytes(page, 0, ss) && ZeroBytes(page, START, 8)
    ensures Sound(s', g) && s' == s.(mem := s'.mem) && OthersSee(g.maps.user, s.mem, g.maps.user, s'.mem, pml4)
    ensures StackBytes(g.maps.user, s'.mem, pml4) == page && ImageAround(g.maps.user, s'.mem, pml4, file, segs, PAGE_ADDR + ss)
  {
    var src: seq<nat> := page[ss..START];
    StackWritable(g.maps.user, pml4, PAGE_ADDR + ss, PAGE_ADDR + ss + |src|);
    SwitchOk(s, g, pml4);
    s' := CopyIn(s.(cr3 := pml4), g, PAGE_ADDR + ss, src);
    SwitchOk(s', g, s.cr3);
    PageSeen(g.maps.user, s.mem, s'.mem, pml4, file, segs, page, ss, src);
    s' := s'.(cr3 := s.cr3);
  }

  lemma StillProcesses(s: Vm, g: Shape, s': Vm, procs: seq<Mm>)
    requires Processes(s, g, procs) && Sound(s', g)
    ensures Processes(s', g, procs)
  {
  }

  /**
   load_elf: besides the image, the new process has its arguments and
   environment on the stack, where _start reads them back.
   */
  method LoadProcess(s: Vm, ghost g: Shape, ghost procs: seq<Mm>, file: seq<nat>, phdrs: seq<Phdr>, args: seq<Str>, envs: seq<Str>)
    returns (r: LoadResult, mm: Mm, rsp: nat, s': Vm, ghost g': Shape)
    requires Processes(s, g, procs) && SegmentsOk(file, Loadable(phdrs)) && Small(args) && Small(envs)
    ensures r.NoSegments? <==> Loadable(phdrs) == [] && WindowRoom(s) && SpaceNeed(s, g) <= |s.alloc.free|
    ensures r.ProcessReady? <==> Loadable(phdrs) != [] && WindowRoom(s) && LoadNeed(s, g, Loadable(phdrs)) <= |s.alloc.free|
    ensures r.ProcessReady? ==> |s'.alloc.free| == |s.alloc.free| - LoadNeed(s, g, Loadable(phdrs))
    ensures r.ProcessReady? ==> s'.freeAddr == s.freeAddr + 9 * PGSIZE && Pages(g'.maps.user, mm.pml4) == StartPages(Loadable(phdrs))
    ensures r.ProcessReady? ==> Processes(s', g', procs + [mm]) && s'.cr3 == s.cr3
    ensures r.ProcessReady? ==> mm == LayoutOf(mm.pml4, Loadable(phdrs)) && HeapOnTop(mm, Loadable(phdrs))
    ensures r.ProcessReady? ==> OthersSee(g.maps.user, s.mem, g'.maps.user, s'.mem, mm.pml4)
    ensures r.ProcessReady? ==> ImageAround(g'.maps.user, s'.mem, mm.pml4, file, Loadable(phdrs), rsp)
    ensures r.ProcessReady? ==>
      PAGE_ADDR <= rsp && StartSees(StackBytes(g'.maps.user, s'.mem, mm.pml4), rsp - PAGE_ADDR, args, envs)
  {
    rsp := 0;
    r, mm, s', g' := LoadElf(s, g, procs, file, phdrs);
    if r.ProcessReady? {
      assert ProcOk(g'.role, g'.maps.user, (procs + [mm])[|procs|]);
      var ss, page := BlockPage(args, envs);
      rsp := PAGE_ADDR + ss;
      ghost var s1 := s';
      s' := PutBlock(s', g', mm.pml4, file, Loadable(phdrs), page, ss);
      StillProcesses(s1, g', s', procs + [mm]);
      OthersSeeTrans(g.maps.user, s.mem, g'.maps.user, s1.mem, g'.maps.user, s'.mem, mm.pml4);
    }
  }
}
