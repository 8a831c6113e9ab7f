/**
 The vma list as it is in memory: linked nodes that `sys_brk` updates in place
 and `fork_process` copies node by node. The lists of all processes are proved
 to behave as the separate values that `Layout` describes.
 */
module VmaList {
  import opened Bits
  import opened Machine
  import opened Layout
  import opened Loader

  class VmaNode {
    var start: nat
    var end: nat
    var kind: VmaType
    var next: VmaNode?

    /** set_vma */
    constructor (v: Vma)
      ensures Value() == v && next == null
    {
      start, end, kind, next := v.start, v.end, v.kind, null;
    }

    /** memmove of a whole vma_struct, link included */
    constructor Copy(from: VmaNode)
      ensures start == from.start && end == from.end && kind == from.kind && next == from.next
    {
      start, end, kind, next := from.start, from.end, from.kind, from.next;
    }

    function Value(): Vma
      reads this
    {
      Vma(start, end, kind)
    }
  }

  function NodeAt(nodes: seq<VmaNode>, i: nat): VmaNode? {
    if i < |nodes| then nodes[i] else null
  }

  /** Each node points to the next one, the last to `end`. */
  ghost predicate LinkedTo(nodes: seq<VmaNode>, end: VmaNode?)
    reads nodes
  {
    forall i: nat {:trigger nodes[i]} :: i < |nodes| ==> nodes[i].next == if i + 1 < |nodes| then nodes[i + 1] else end
  }

  /** A list that leaves its nodes visits none of them twice. */
  lemma {:induction false} LinkedOnce(nodes: seq<VmaNode>, end: VmaNode?, i: nat, j: nat)
    requires LinkedTo(nodes, end) && i < j < |nodes| && (end != null ==> end !in nodes)
    ensures nodes[i] != nodes[j]
    decreases |nodes| - j
  {
    if j + 1 < |nodes| {
      LinkedOnce(nodes, end, i + 1, j + 1);
    }
  }

  ghost predicate SameValues(copy: seq<VmaNode>, nodes: seq<VmaNode>)
    reads copy, nodes
  {
    |copy| <= |nodes| && forall i: nat {:trigger copy[i]} :: i < |copy| ==> copy[i].Value() == nodes[i].Value()
  }

  /** The nodes hold these ranges, in order. */
  ghost predicate Holds(nodes: seq<VmaNode>, vs: seq<Vma>)
    reads nodes
  {
    |nodes| == |vs| && forall i: nat {:trigger nodes[i]} :: i < |nodes| ==> nodes[i].Value() == vs[i]
  }

  /** The heap's range is the last but one, and the only heap. */
  ghost predicate HeapBeforeLast(vs: seq<Vma>) {
    var h := |vs| - 2;
    0 <= h && vs[h].kind == Heap && forall i :: 0 <= i < h ==> vs[i].kind != Heap
  }

  /** The copies so far hold what the first nodes of the list hold; the last still points into the list. */
  ghost predicate Copying(copy: seq<VmaNode>, nodes: seq<VmaNode>)
    reads copy, nodes
  {
    SameValues(copy, nodes) && LinkedTo(copy, NodeAt(nodes, |copy|)) && LinkedTo(nodes, null)
  }

  /** The loop is at `cur`, with the copies from `first` to `last`, none of them of the list. */
  ghost predicate CopyStage(copy: seq<VmaNode>, nodes: seq<VmaNode>, cur: VmaNode?, first: VmaNode?, last: VmaNode?)
    reads copy, nodes
  {
    && Copying(copy, nodes) && cur == NodeAt(nodes, |copy|)
    && (forall i {:trigger copy[i]} :: 0 <= i < |copy| ==> copy[i] !in nodes)
    && first == NodeAt(copy, 0) && last == if copy == [] then null else copy[|copy| - 1]
  }

  /** One round of the copying loop: a copy of `cur`, linked behind the last one. */
  method AppendCopy(cur: VmaNode, last: VmaNode?, ghost first: VmaNode?, ghost copy: seq<VmaNode>, ghost nodes: seq<VmaNode>)
    returns (n: VmaNode)
    requires CopyStage(copy, nodes, cur, first, last)
    modifies if last == null then {} else {last}
    ensures fresh(n) && cur.next == old(cur.next)
    ensures CopyStage(copy + [n], nodes, cur.next, if first == null then n else first, n)
  {
    assert cur == nodes[|copy|];
    n := new VmaNode.Copy(cur);
    if last != null {
      assert last == copy[|copy| - 1];
      SetNext(last, copy, nodes, cur, n);
    }
    CopiedMore(copy, n, nodes, cur);
  }

  /** Links a new copy after the last one, which pointed into the other list. */
  method SetNext(last: VmaNode, ghost copy: seq<VmaNode>, ghost nodes: seq<VmaNode>, ghost end: VmaNode, n: VmaNode)
    requires copy != [] && last == copy[|copy| - 1] && SameValues(copy, nodes) && LinkedTo(copy, end) && LinkedTo(nodes, null)
    requires end in nodes && forall i {:trigger copy[i]} :: 0 <= i < |copy| ==> copy[i] !in nodes
    modifies last`next
    ensures LinkedTo(copy, n) && LinkedTo(nodes, null) && SameValues(copy, nodes)
  {
    forall i | 0 <= i < |copy| - 1 ensures copy[i] != last {
      LinkedOnce(copy, end, i, |copy| - 1);
    }
    last.next := n;
    forall i | 0 <= i < |nodes| ensures nodes[i] != last {
      assert nodes[i] in nodes;
    }
  }

  lemma CopiedMore(copy: seq<VmaNode>, n: VmaNode, nodes: seq<VmaNode>, cur: VmaNode)
    requires LinkedTo(copy, n) && LinkedTo(nodes, null) && SameValues(copy, nodes) && cur == NodeAt(nodes, |copy|)
    requires n.Value() == cur.Value() && n.next == cur.next
    ensures Copying(copy + [n], nodes) && cur.next == NodeAt(nodes, |copy| + 1)
  {
    assert nodes[|copy|] == cur;
    Appended(copy, n, cur.next);
  }

  lemma HoldsMore(nodes: seq<VmaNode>, n: VmaNode, vs: seq<Vma>, v: Vma)
    requires Holds(nodes, vs) && n.Value() == v
    ensures Holds(nodes + [n], vs + [v])
  {
  }

  lemma Appended(copy: seq<VmaNode>, n: VmaNode, end: VmaNode?)
    requires LinkedTo(copy, n) && n.next == end
    ensures LinkedTo(copy + [n], end)
  {
  }

  function LastOf(nodes: seq<VmaNode>): set<VmaNode> {
    if nodes == [] then {} else {nodes[|nodes| - 1]}
  }

  class MmStruct {
    var vm: VmaNode?
    var pml4: nat
    var startBrk: nat
    var brk: nat
    /** The nodes of the list, first to last, and the ranges they hold. */
    ghost var nodes: seq<VmaNode>
    ghost var ranges: seq<Vma>

    /** Following `next` from `vm` visits exactly the nodes and ends in null. */
    ghost predicate Valid()
      reads this, nodes
    {
      vm == NodeAt(nodes, 0) && LinkedTo(nodes, null) && Holds(nodes, ranges)
    }

    ghost function View(): Mm
      reads this
    {
      Mm(pml4, ranges, startBrk, brk)
    }

    /** A descriptor without a list, as create_new_task makes it. */
    constructor (root: nat)
      ensures vm == null && pml4 == root && startBrk == 0 && brk == 0 && nodes == [] && ranges == []
    {
      vm, pml4, startBrk, brk, nodes, ranges := null, root, 0, 0, [], [];
    }

    /** traverse_vmas: the last node. */
    method Last() returns (n: VmaNode)
      requires Valid() && nodes != []
      ensures n == nodes[|nodes| - 1]
    {
      n := vm;
      ghost var i := 0;
      while n.next != null
        invariant i < |nodes| && n == nodes[i]
        decreases |nodes| - i
      {
        n := n.next;
        i := i + 1;
      }
    }

    /** A new node for the range, linked behind the last one. */
    method Append(v: Vma) returns (n: VmaNode)
      requires Valid()
      modifies this`vm, this`nodes, this`ranges, LastOf(nodes)
      ensures Valid() && fresh(n) && nodes == old(nodes) + [n] && ranges == old(ranges) + [v]
    {
      n := new VmaNode(v);
      var last: VmaNode? := null;
      if vm != null {
        last := Last();
      } else {
        vm := n;
      }
      ghost var ns, vs := nodes, ranges;
      nodes, ranges := ns + [n], vs + [v];
      LinkBehind(last, ns, vs, n, v);
    }

    /** memmove of a whole mm_struct: the copy shares the list */
    constructor Copy(from: MmStruct)
      ensures vm == from.vm && pml4 == from.pml4 && startBrk == from.startBrk && brk == from.brk && nodes == [] && ranges == from.ranges
    {
      vm, pml4, startBrk, brk, nodes, ranges := from.vm, from.pml4, from.startBrk, from.brk, [], from.ranges;
    }

    /** fork_process's copy of the descriptor and its list, with a root of its own. */
    method Fork(root: nat) returns (child: MmStruct)
      requires Valid()
      ensures fresh(child) && fresh(child.nodes) && child.Valid() && child.View() == View().(pml4 := root)
    {
      child := new MmStruct.Copy(this);
      child.pml4 := root;
      var first, ns := CopyList();
      if first != null {
        child.vm := first;
      }
      child.nodes := ns;
    }

    /** The copying loop; each copy points into this list until the next one is linked behind it. */
    method CopyList() returns (first: VmaNode?, ghost copy: seq<VmaNode>)
      requires Valid()
      ensures fresh(copy) && first == NodeAt(copy, 0) && LinkedTo(copy, null) && Holds(copy, ranges)
    {
      first, copy := null, [];
      var cur, last := vm, null;
      while cur != null
        invariant CopyStage(copy, nodes, cur, first, last) && fresh(copy)
        decreases |nodes| - |copy|
      {
        var n := AppendCopy(cur, last, first, copy, nodes);
        if last == null {
          first := n;
        }
        copy := copy + [n];
        last := n;
        cur := cur.next;
      }
      CopyEnds(copy, nodes, ranges);
    }

    /** The walk of sys_brk over the list, and the heap node's end it writes. */
    method GrowHeap(nbrk: nat) returns (r: BrkResult)
      requires Valid() && HeapBeforeLast(ranges)
      modifies nodes, this`ranges
      ensures Valid() && (r.Grown? || r.Collision?)
      ensures var vs := old(ranges); var h := |vs| - 2;
              && (r.Collision? <==> vs[h].end < nbrk && STACK_BASE <= nbrk)
              && ranges == vs[h := vs[h].(end := HeapEnd(vs[h].end, nbrk))]
    {
      ghost var vs := ranges;
      ghost var h := |nodes| - 2;
      assert vs[h := vs[h]] == vs;
      r := Grown;
      var vma := vm;
      ghost var i := 0;
      while vma != null
        invariant i <= h && vma == NodeAt(nodes, i)
        decreases h - i
      {
        assert vs[i] == vma.Value();
        if vma.kind == Heap {
          if nbrk > vma.end {
            if nbrk >= STACK_BASE {
              return Collision;
            }
            SetEnd(vma, nodes, ranges, i, AlignUp(nbrk));
            ranges := ranges[i := ranges[i].(end := AlignUp(nbrk))];
          }
          return;
        }
        vma := vma.next;
        i := i + 1;
      }
    }

    /** sys_brk on the list: it writes the break and the heap node's end. */
    method Brk(nbrk: nat) returns (r: BrkResult)
      requires Valid() && WellFormed(View()) && nbrk <= MINUS_ONE
      modifies this`brk, this`ranges, nodes
      ensures Valid() && (View(), r) == BrkOf(old(View()), nbrk)
    {
      if nbrk == MINUS_ONE {
        return Current(brk);
      }
      if nbrk <= brk {
        return Illegal;
      }
      assert HeapBeforeLast(ranges);
      brk := nbrk;
      r := GrowHeap(nbrk);
    }
  }

  /** Links a new node behind the last one, whose link was null. */
  method LinkLast(last: VmaNode, ghost nodes: seq<VmaNode>, ghost vs: seq<Vma>, n: VmaNode)
    requires nodes != [] && last == nodes[|nodes| - 1] && LinkedTo(nodes, null) && Holds(nodes, vs) && n !in nodes
    modifies last`next
    ensures LinkedTo(nodes, n) && Holds(nodes, vs)
  {
    forall i | 0 <= i < |nodes| - 1 ensures nodes[i] != last {
      LinkedOnce(nodes, null, i, |nodes| - 1);
    }
    last.next := n;
  }

  /** The new node is the last of the list. */
  method LinkBehind(last: VmaNode?, ghost nodes: seq<VmaNode>, ghost vs: seq<Vma>, n: VmaNode, ghost v: Vma)
    requires LinkedTo(nodes, null) && Holds(nodes, vs) && n !in nodes && n.Value() == v && n.next == null
    requires if nodes == [] then last == null else last == nodes[|nodes| - 1]
    modifies if last == null then {} else {last}
    ensures LinkedTo(nodes + [n], null) && Holds(nodes + [n], vs + [v])
  {
    if last != null {
      LinkLast(last, nodes, vs, n);
    }
    Appended(nodes, n, null);
    HoldsMore(nodes, n, vs, v);
  }

  // ---------------------------------------------------- the list of load_elf

  /** The range of a segment: its memory size is cut to an int, and the sum wraps around. */
  function SegRange(ph: Phdr): Vma {
    Vma(ph.vaddr, (ph.vaddr + ToInt(ph.memsz)) % U64, Data)
  }

  /** The end is off by a multiple of 2^32 bytes, none below 2^31, and by what wraps around. */
  lemma SegRangeExact(ph: Phdr)
    ensures SegRange(ph).start == ph.vaddr && SegRange(ph).end < U64
    ensures (SegRange(ph).end - ph.vaddr - ph.memsz) % 0x1_0000_0000 == 0
    ensures ph.memsz < 0x8000_0000 && ph.vaddr + ph.memsz < U64 ==> SegRange(ph).end == ph.vaddr + ph.memsz
  {
    ToIntCuts(ph.memsz);
    var e := ph.vaddr + ToInt(ph.memsz);
    var q, k := e / U64, (ph.memsz - ToInt(ph.memsz)) / 0x1_0000_0000;
    assert ph.memsz - ToInt(ph.memsz) == 0x1_0000_0000 * k && e % U64 == e - U64 * q;
    Multiple(-0x1_0000_0000 * q - k);
  }

  lemma Multiple(k: int)
    ensures (0x1_0000_0000 * k) % 0x1_0000_0000 == 0
  {
  }

  function Ranges(segs: seq<Phdr>): seq<Vma> {
    if segs == [] then [] else Ranges(segs[..|segs| - 1]) + [SegRange(segs[|segs| - 1])]
  }

  /** The highest end. */
  function TopOf(vs: seq<Vma>): nat {
    if vs == [] then 0
    else
      var top, end := TopOf(vs[..|vs| - 1]), vs[|vs| - 1].end;
      if top < end then end else top
  }

  lemma {:induction false} TopOfExact(vs: seq<Vma>) returns (i: nat)
    ensures (forall j :: 0 <= j < |vs| ==> vs[j].end <= TopOf(vs)) && (TopOf(vs) > 0 ==> i < |vs| && vs[i].end == TopOf(vs))
  {
    i := 0;
    if vs != [] {
      var n := |vs| - 1;
      i := TopOfExact(vs[..n]);
      assert forall j :: 0 <= j < n ==> vs[j] == vs[..n][j];
      if TopOf(vs[..n]) < vs[n].end {
        i := n;
      }
    }
  }

  /** The descriptor load_elf builds from whatever the headers say. */
  function ListOf(pml4: nat, segs: seq<Phdr>): Mm {
    var h := HeapStart(TopOf(Ranges(segs))) % U64;
    Mm(pml4, Ranges(segs) + [Vma(h, h, Heap)] + [Vma(STACK_BASE, USER_STACK_TOP, Stack)], h, h)
  }

  lemma SegRangeIs(file: seq<nat>, ph: Phdr)
    requires SegmentOk(file, ph)
    ensures SegRange(ph) == SegVma(ph)
  {
  }

  lemma {:induction false} RangesAre(file: seq<nat>, segs: seq<Phdr>)
    requires SegmentsOk(file, segs)
    ensures Ranges(segs) == Vmas(segs) && TopOf(Ranges(segs)) == TopEnd(segs)
  {
    if segs == [] {
      assert Vmas(segs) == [];
    } else {
      var segs1, ph := segs[..|segs| - 1], segs[|segs| - 1];
      assert segs == segs1 + [ph];
      SegRangeIs(file, ph);
      RangesAre(file, segs1);
      RangesNext(segs1, ph);
      VmasNext(segs1, ph);
    }
  }

  lemma HeapNoWrap(top: nat)
    requires top <= STACK_BASE
    ensures HeapStart(top) % U64 == HeapStart(top)
  {
  }

  /** For segments that can be loaded it is the layout of the new process. */
  lemma ListIsLayout(file: seq<nat>, segs: seq<Phdr>, pml4: nat)
    requires SegmentsOk(file, segs)
    ensures ListOf(pml4, segs) == LayoutOf(pml4, segs) && WellFormed(ListOf(pml4, segs))
  {
    RangesAre(file, segs);
    TopBelowStack(file, segs);
    HeapNoWrap(TopEnd(segs));
    LayoutBuilt(file, segs, pml4);
  }

  lemma RangesNext(segs: seq<Phdr>, ph: Phdr)
    ensures Ranges(segs + [ph]) == Ranges(segs) + [SegRange(ph)]
    ensures var top, end := TopOf(Ranges(segs)), SegRange(ph).end; TopOf(Ranges(segs + [ph])) == if top < end then end else top
  {
    assert (segs + [ph])[..|segs|] == segs;
    assert (Ranges(segs) + [SegRange(ph)])[..|Ranges(segs)|] == Ranges(segs);
  }

  lemma {:induction false} RangesSize(segs: seq<Phdr>)
    ensures |Ranges(segs)| == |segs|
  {
    if segs != [] {
      RangesSize(segs[..|segs| - 1]);
    }
  }

  ghost predicate Within(nodes: seq<VmaNode>, own: set<VmaNode>) {
    forall k {:trigger nodes[k]} :: 0 <= k < |nodes| ==> nodes[k] in own
  }

  /** The descriptor's list is made of these nodes and holds these ranges. */
  ghost predicate Built(m: MmStruct, own: set<VmaNode>, vs: seq<Vma>)
    reads m, m.nodes
  {
    m.Valid() && m.ranges == vs && Within(m.nodes, own)
  }

  method AppendNew(m: MmStruct, ghost own: set<VmaNode>, v: Vma) returns (ghost own': set<VmaNode>)
    requires Built(m, own, m.ranges)
    modifies m`vm, m`nodes, m`ranges, own
    ensures Built(m, own', old(m.ranges) + [v]) && own <= own' && fresh(own' - own)
  {
    assert forall n :: n in LastOf(m.nodes) ==> n in own;
    var n := m.Append(v);
    own' := own + {n};
  }

  /** The nodes for the loadable segments. */
  method AppendSegments(m: MmStruct, phdrs: seq<Phdr>) returns (top: nat, ghost own: set<VmaNode>)
    requires Built(m, {}, [])
    modifies m`vm, m`nodes, m`ranges
    ensures Built(m, own, Ranges(Loadable(phdrs))) && fresh(own) && top == TopOf(Ranges(Loadable(phdrs)))
  {
    top, own := 0, {};
    ghost var segs, vs := [], [];
    for n := 0 to |phdrs|
      invariant segs == Loadable(phdrs[..n]) && vs == Ranges(segs)
      invariant Built(m, own, vs) && fresh(own) && top == TopOf(vs)
    {
      LoadableNext(phdrs, n);
      if phdrs[n].kind == PT_LOAD {
        RangesNext(segs, phdrs[n]);
        var v := SegRange(phdrs[n]);
        own := AppendNew(m, own, v);
        top := if top < v.end then v.end else top;
        segs, vs := segs + [phdrs[n]], vs + [v];
      }
    }
    assert phdrs[..|phdrs|] == phdrs;
  }

  /** The heap, empty at `h`, and the stack. */
  method AppendHeapAndStack(m: MmStruct, ghost own: set<VmaNode>, h: nat) returns (ghost own': set<VmaNode>)
    requires Built(m, own, m.ranges)
    modifies m, own
    ensures Built(m, own', old(m.ranges) + [Vma(h, h, Heap)] + [Vma(STACK_BASE, USER_STACK_TOP, Stack)])
    ensures m.pml4 == old(m.pml4) && m.startBrk == m.brk == h && own <= own' && fresh(own' - own)
  {
    m.startBrk, m.brk := h, h;
    own' := AppendNew(m, own, Vma(h, h, Heap));
    own' := AppendNew(m, own', Vma(STACK_BASE, USER_STACK_TOP, Stack));
  }

  /**
   The list load_elf builds for a new process: a node for each loadable segment,
   the heap and the stack. Without a segment traverse_vmas follows a null
   pointer; null stands for that.
   */
  method BuildList(root: nat, phdrs: seq<Phdr>) returns (m: MmStruct?, ghost own: Owner)
    ensures m == null <==> Loadable(phdrs) == []
    ensures m != null ==> fresh(m) && fresh(own.Keys)
    ensures m != null ==> Held([m], own, [ListOf(root, Loadable(phdrs))])
  {
    own := map[];
    m := new MmStruct(root);
    var top, ns := AppendSegments(m, phdrs);
    RangesSize(Loadable(phdrs));
    if m.vm == null {
      return null, own;
    }
    ns := AppendHeapAndStack(m, ns, HeapStart(top) % U64);
    own := map n | n in ns :: 0;
    HeldAlone(m, ns, own, ListOf(root, Loadable(phdrs)));
  }

  lemma HeldAlone(m: MmStruct, ns: set<VmaNode>, own: Owner, mm: Mm)
    requires Built(m, ns, mm.vm) && m.View() == mm && own == map n | n in ns :: 0
    ensures Held([m], own, [mm])
  {
    assert HeldOne(own, [m][0], 0, [mm][0]);
  }

  lemma CopyEnds(copy: seq<VmaNode>, nodes: seq<VmaNode>, vs: seq<Vma>)
    requires Copying(copy, nodes) && NodeAt(nodes, |copy|) == null && Holds(nodes, vs)
    ensures LinkedTo(copy, null) && Holds(copy, vs)
  {
  }

  /** Moves the end of a range. */
  method SetEnd(vma: VmaNode, ghost nodes: seq<VmaNode>, ghost vs: seq<Vma>, ghost i: nat, end: nat)
    requires i < |nodes| && vma == nodes[i] && LinkedTo(nodes, null) && Holds(nodes, vs)
    modifies vma
    ensures LinkedTo(nodes, null) && Holds(nodes, vs[i := vs[i].(end := end)])
  {
    forall j | 0 <= j < |nodes| && j != i ensures nodes[j] != vma {
      if j < i { LinkedOnce(nodes, null, j, i); } else { LinkedOnce(nodes, null, i, j); }
    }
    vma.end := end;
  }

  // ------------------------------------------------------- all the processes

  /** A call of brk or fork by the process at position `pid`. */
  datatype Call = BrkBy(pid: nat, addr: nat) | ForkBy(pid: nat, root: nat)

  /** What the call does when every descriptor is a value of its own. */
  function ValueStep(views: seq<Mm>, call: Call): seq<Mm> {
    if call.pid >= |views| || |views[call.pid].vm| < 2 then views
    else match call
    case BrkBy(pid, addr) => views[pid := BrkOf(views[pid], addr).0]
    case ForkBy(pid, root) => views + [views[pid].(pml4 := root)]
  }

  /** What a call answers: brk's result, or the child's position. */
  datatype Reply = Said(r: BrkResult) | Made(pid: nat) | Nobody

  function ValueReply(views: seq<Mm>, call: Call): Reply {
    if call.pid >= |views| || |views[call.pid].vm| < 2 then Nobody
    else match call
    case BrkBy(pid, addr) => Said(BrkOf(views[pid], addr).1)
    case ForkBy(pid, root) => Made(|views|)
  }

  function ValueRun(views: seq<Mm>, calls: seq<Call>): seq<Mm> {
    if calls == [] then views else ValueStep(ValueRun(views, calls[..|calls| - 1]), calls[|calls| - 1])
  }

  function ValueReplies(views: seq<Mm>, calls: seq<Call>): seq<Reply> {
    if calls == [] then []
    else ValueReplies(views, calls[..|calls| - 1]) + [ValueReply(ValueRun(views, calls[..|calls| - 1]), calls[|calls| - 1])]
  }

  /** Which descriptor a node belongs to. */
  type Owner = map<VmaNode, int>

  /** The descriptor at position `i` owns the nodes of its list and holds the value `v`. */
  ghost predicate HeldOne(own: Owner, m: MmStruct, i: int, v: Mm)
    reads m, m.nodes
  {
    && (forall k {:trigger m.nodes[k]} :: 0 <= k < |m.nodes| ==> m.nodes[k] in own && own[m.nodes[k]] == i)
    && m.Valid() && m.View() == v
  }

  /** The descriptors in memory have lists of their own and hold the values. */
  ghost predicate Held(ms: seq<MmStruct>, own: Owner, views: seq<Mm>)
    reads *
  {
    && |ms| == |views|
    && (forall i {:trigger HeldOne(own, ms[i], i, views[i])} :: 0 <= i < |ms| ==> HeldOne(own, ms[i], i, views[i]))
    && (forall i, j :: 0 <= i < j < |ms| ==> ms[i] != ms[j])
  }

  /** One process's brk leaves every other process's list alone. */
  method BrkStep(ghost ms: seq<MmStruct>, m: MmStruct, ghost own: Owner, ghost views: seq<Mm>, ghost pid: nat, addr: nat)
    returns (r: BrkResult)
    requires Held(ms, own, views) && pid < |ms| && m == ms[pid] && WellFormed(views[pid]) && addr <= MINUS_ONE
    modifies m`brk, m`ranges, m.nodes
    ensures Held(ms, own, views[pid := BrkOf(views[pid], addr).0]) && r == BrkOf(views[pid], addr).1
  {
    assert HeldOne(own, ms[pid], pid, views[pid]);
    r := m.Brk(addr);
    ghost var views' := views[pid := BrkOf(views[pid], addr).0];
    forall j | 0 <= j < |ms| ensures HeldOne(own, ms[j], j, views'[j]) {
      assert old(HeldOne(own, ms[j], j, views[j]));
    }
  }

  /** A forked list is made of new nodes. */
  method ForkStep(ms: seq<MmStruct>, ghost own: Owner, ghost views: seq<Mm>, pid: nat, root: nat)
    returns (child: MmStruct, ghost own': Owner)
    requires Held(ms, own, views) && pid < |ms|
    ensures Held(ms + [child], own', views + [views[pid].(pml4 := root)])
    ensures fresh(child) && own.Keys <= own'.Keys && fresh(own'.Keys - own.Keys)
  {
    assert HeldOne(own, ms[pid], pid, views[pid]);
    child := ms[pid].Fork(root);
    own' := own + map n | n in child.nodes :: |ms|;
    ghost var ms', views' := ms + [child], views + [views[pid].(pml4 := root)];
    forall j | 0 <= j < |ms'| ensures HeldOne(own', ms'[j], j, views'[j]) {
      assert j < |ms| ==> HeldOne(own, ms[j], j, views[j]);
    }
  }

  lemma {:induction false} ValueRunWellFormed(views: seq<Mm>, calls: seq<Call>)
    requires forall i :: 0 <= i < |views| ==> WellFormed(views[i])
    requires forall i :: 0 <= i < |calls| && calls[i].BrkBy? ==> calls[i].addr <= MINUS_ONE
    ensures forall i :: 0 <= i < |ValueRun(views, calls)| ==> WellFormed(ValueRun(views, calls)[i])
  {
    if calls != [] {
      ValueRunWellFormed(views, calls[..|calls| - 1]);
      var vs, call := ValueRun(views, calls[..|calls| - 1]), calls[|calls| - 1];
      if call.pid < |vs| && call.BrkBy? {
        BrkWellFormed(vs[call.pid], call.addr);
      }
    }
  }

  /** One call by one process. */
  method StepCall(ms: seq<MmStruct>, ghost own: Owner, ghost views: seq<Mm>, call: Call)
    returns (ms': seq<MmStruct>, reply: Reply, ghost own': Owner)
    requires Held(ms, own, views) && (forall i :: 0 <= i < |views| ==> WellFormed(views[i])) && (call.BrkBy? ==> call.addr <= MINUS_ONE)
    modifies ms, own.Keys
    ensures Held(ms', own', ValueStep(views, call)) && reply == ValueReply(views, call)
    ensures ms <= ms' && forall i :: 0 <= i < |ms'| ==> ms'[i] in ms || fresh(ms'[i])
    ensures own.Keys <= own'.Keys && fresh(own'.Keys - own.Keys)
  {
    ms', own', reply := ms, own, Nobody;
    if call.pid < |ms| {
      if call.BrkBy? {
        assert ms[call.pid] in ms && HeldOne(own, ms[call.pid], call.pid, views[call.pid]);
        var r := BrkStep(ms, ms[call.pid], own, views, call.pid, call.addr);
        reply := Said(r);
      } else {
        var child, own1 := ForkStep(ms, own, views, call.pid, call.root);
        ms', own', reply := ms + [child], own1, Made(|ms|);
      }
    }
  }

  /** Over any run of brk and fork calls, the lists in memory hold what separate values would. */
  method RunCalls(ms: seq<MmStruct>, ghost own: Owner, ghost views: seq<Mm>, calls: seq<Call>)
    returns (ms': seq<MmStruct>, replies: seq<Reply>, ghost own': Owner)
    requires Held(ms, own, views) && forall i :: 0 <= i < |views| ==> WellFormed(views[i])
    requires forall i :: 0 <= i < |calls| && calls[i].BrkBy? ==> calls[i].addr <= MINUS_ONE
    modifies ms, own.Keys
    ensures Held(ms', own', ValueRun(views, calls)) && ms <= ms' && replies == ValueReplies(views, calls)
    ensures forall i :: 0 <= i < |ms'| ==> WellFormed(ValueRun(views, calls)[i]) && Disjoint(ValueRun(views, calls)[i].vm)
  {
    ms', own', replies := ms, own, [];
    ghost var vs := views;
    for n := 0 to |calls|
      invariant Held(ms', own', vs) && vs == ValueRun(views, calls[..n]) && replies == ValueReplies(views, calls[..n])
      invariant ms <= ms' && forall i :: 0 <= i < |ms'| ==> ms'[i] in ms || fresh(ms'[i])
      invariant own.Keys <= own'.Keys && fresh(own'.Keys - own.Keys)
    {
      assert calls[..n + 1][..n] == calls[..n];
      ValueRunWellFormed(views, calls[..n]);
      var reply;
      ms', reply, own' := StepCall(ms', own', vs, calls[n]);
      vs, replies := ValueStep(vs, calls[n]), replies + [reply];
    }
    assert calls[..|calls|] == calls;
    RunLayouts(views, calls);
  }

  /** After any run every process's ranges are in order and apart. */
  lemma RunLayouts(views: seq<Mm>, calls: seq<Call>)
    requires forall i :: 0 <= i < |views| ==> WellFormed(views[i])
    requires forall i :: 0 <= i < |calls| && calls[i].BrkBy? ==> calls[i].addr <= MINUS_ONE
    ensures forall i :: 0 <= i < |ValueRun(views, calls)| ==> WellFormed(ValueRun(views, calls)[i]) && Disjoint(ValueRun(views, calls)[i].vm)
  {
    var vs := ValueRun(views, calls);
    ValueRunWellFormed(views, calls);
    forall i | 0 <= i < |vs| ensures Disjoint(vs[i].vm) {
      AllDisjoint(vs[i]);
    }
  }
}
