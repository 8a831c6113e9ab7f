/**
 The kernel half over whole runs of the paging operations: `kfree` from
 `sys/kmalloc.c`, and any mix of it with kmalloc, alloc_pml4, map_page and
 address-space switches.
 */
module Coherence {
  import opened Bits
  import opened Machine
  import opened Pmap
  import opened Pointers
  import opened PageTable
  import opened Paging
  import opened Demand

  /** Physical addresses have 48 bits. */
  const PHYS_END := 0x1_0000_0000_0000

  /** A page kmalloc handed out and kfree has not taken back. */
  ghost predicate Live(s: Vm, g: Shape, va: nat) {
    && KERN <= va < s.freeAddr && va < U64 && va % PGSIZE == 0 && PageOf(va).i4 == 511
    && PageOf(va) in g.maps.kern && PageOf(va) != Temp(s) && PageOf(va) != PageOf(InitPml4Addr(s))
    && g.maps.kern[PageOf(va)] < PHYS_END
    && Base(g.maps.kern[PageOf(va)]) !in g.role && Counted(s.alloc.counts, Base(g.maps.kern[PageOf(va)]))
  }

  lemma LiveHasTable(s: Vm, g: Shape, p: Page)
    requires Ok(s, g) && p in g.maps.kern
    ensures p.i4 == 511 && PtFor(s.mem, s.cr3, p).Some?
  {
    assert Lookup(g.maps, 0, p).Some? ==> Backed(s.mem, g.role, s.initPml4, 0, p);
    ChainRoles(s.mem, g.role, s.initPml4, s.cr3, 511, p.i3, p.i2);
  }

  /** kfree of a live page or a null pointer; nothing else in the kernel half moves. The mask keeps bits 12 to 47. */
  method Kfree(s: Vm, ghost g: Shape, va: nat) returns (s': Vm, ghost g': Shape)
    requires Ok(s, g) && Window(s, g) && (va == 0 || Live(s, g, va))
    ensures va == 0 ==> s' == s && g' == g
    ensures Ok(s', g') && Window(s', g')
    ensures va != 0 ==> g' == g.(maps := Unmap(g.maps, PageOf(va)))
    ensures va != 0 ==> s' == s.(mem := s'.mem, alloc := s.alloc.Release(Base(g.maps.kern[PageOf(va)])).0)
    ensures va != 0 ==> DataSame(s.mem, s'.mem, g.role) && SameWalks(s.mem, s'.mem, g.role)
  {
    if va == 0 {
      return s, g;
    }
    LiveHasTable(s, g, PageOf(va));
    var pte := ReadPte(s, g, va);
    var frame := pte % PHYS_END - pte % PGSIZE;
    ReleaseOk(s, g, frame);
    var s1 := s.(alloc := s.alloc.Release(frame).0);
    s', g' := WritePte(s1, g, va, 0);
    forall q: Page | q in g'.maps.kern ensures Below(q, s'.freeAddr) {
      assert q in g.maps.kern;
    }
  }

  /** The kernel half reads the same from every address space, and each space's slot 510 is itself. */
  ghost predicate Coherent(mem: Memory, spaces: seq<nat>) {
    && (forall i, j, p: Page {:trigger Walk(mem, spaces[i], p), Walk(mem, spaces[j], p)} ::
          0 <= i < |spaces| && 0 <= j < |spaces| && p.i4 == 511 ==> Walk(mem, spaces[i], p) == Walk(mem, spaces[j], p))
    && (forall i :: 0 <= i < |spaces| ==> SelfRef(mem, spaces[i]))
  }

  /** A live page whose frame nothing else uses. */
  ghost predicate Owned(s: Vm, g: Shape, va: nat) {
    Live(s, g, va) && s.alloc.counts[LiveFrame(g, va)] == 1
  }

  /** The state of a run: the spaces created so far and the kernel pages in use. */
  ghost predicate Running(s: Vm, g: Shape, spaces: seq<nat>, live: seq<nat>) {
    && Ok(s, g) && Window(s, g)
    && (forall f: nat {:trigger f in s.alloc.counts} :: f in s.alloc.counts ==> f + PGSIZE <= PHYS_END)
    && (forall i :: 0 <= i < |spaces| ==> IsRoot(g.role, spaces[i]))
    && (forall i, j :: 0 <= i < j < |spaces| ==> spaces[i] != spaces[j])
    && (forall i {:trigger Owned(s, g, live[i])} :: 0 <= i < |live| ==> Owned(s, g, live[i]))
    && (forall i, j :: 0 <= i < j < |live| ==> LiveFrame(g, live[i]) != LiveFrame(g, live[j]))
  }

  /** The frame behind a kernel address. */
  ghost function LiveFrame(g: Shape, va: nat): nat {
    if PageOf(va) in g.maps.kern then Base(g.maps.kern[PageOf(va)]) else 0
  }

  lemma RunningCoherent(s: Vm, g: Shape, spaces: seq<nat>, live: seq<nat>)
    requires Running(s, g, spaces, live)
    ensures Coherent(s.mem, spaces)
  {
    forall i, j, p: Page | 0 <= i < |spaces| && 0 <= j < |spaces| && p.i4 == 511
      ensures Walk(s.mem, spaces[i], p) == Walk(s.mem, spaces[j], p)
    {
      KernelHalfShared(s.mem, g.role, s.initPml4, g.maps, spaces[i], spaces[j], p);
    }
    forall i | 0 <= i < |spaces| ensures SelfRef(s.mem, spaces[i]) {
      KernelHalfShared(s.mem, g.role, s.initPml4, g.maps, spaces[i], spaces[i], Temp(s));
    }
  }

  /** Steps that keep kernel mappings and data frames keep the pages in use. */
  lemma LiveKept(s: Vm, g: Shape, s': Vm, g': Shape, va: nat)
    requires Live(s, g, va) && KernKept(g.maps.kern, g'.maps.kern, Temp(s))
    requires AllKept(s.alloc.counts, s.mem, g.role, s'.alloc.counts, s'.mem, g'.role)
    requires s'.initPml4 == s.initPml4 && s'.tempAddr == s.tempAddr && s.freeAddr <= s'.freeAddr
    ensures Live(s', g', va) && LiveFrame(g', va) == LiveFrame(g, va) && (Owned(s, g, va) ==> Owned(s', g', va))
  {
    var f := Base(g.maps.kern[PageOf(va)]);
    assert PageOf(va) in g'.maps.kern;
    assert Kept(s.alloc.counts, s.mem, g.role, s'.alloc.counts, s'.mem, g'.role, f);
  }

  lemma RunningKept(s: Vm, g: Shape, s': Vm, g': Shape, spaces: seq<nat>, live: seq<nat>)
    requires Running(s, g, spaces, live) && Ok(s', g') && Window(s', g') && KernKept(g.maps.kern, g'.maps.kern, Temp(s))
    requires AllKept(s.alloc.counts, s.mem, g.role, s'.alloc.counts, s'.mem, g'.role)
    requires s'.initPml4 == s.initPml4 && s'.tempAddr == s.tempAddr && s.freeAddr <= s'.freeAddr
    requires s'.alloc.counts.Keys == s.alloc.counts.Keys && forall r: nat :: IsRoot(g.role, r) ==> IsRoot(g'.role, r)
    ensures Running(s', g', spaces, live)
    ensures forall i :: 0 <= i < |live| ==> LiveFrame(g', live[i]) == LiveFrame(g, live[i])
  {
    forall i | 0 <= i < |live| ensures Owned(s', g', live[i]) && LiveFrame(g', live[i]) == LiveFrame(g, live[i]) {
      assert Owned(s, g, live[i]);
      LiveKept(s, g, s', g', live[i]);
    }
  }

  lemma FreshPage(s: Vm, g: Shape)
    requires Window(s, g) && s.freeAddr < U64
    ensures PageOf(s.freeAddr).i4 == 511 && PageOf(s.freeAddr) !in g.maps.kern
    ensures PageOf(s.freeAddr) != Temp(s) && PageOf(s.freeAddr) != PageOf(InitPml4Addr(s))
  {
    FreePage(s, g);
    KernelAddr(s.freeAddr);
    NotBelow(PageOf(s.freeAddr), s.freeAddr);
  }

  method RunKmalloc(s: Vm, ghost g: Shape, ghost spaces: seq<nat>, live: seq<nat>)
    returns (ok: bool, live': seq<nat>, s': Vm, ghost g': Shape)
    requires Running(s, g, spaces, live) && s.freeAddr + PGSIZE <= U64
    ensures ok ==> Running(s', g', spaces, live') && live' == live + [s.freeAddr]
    ensures ok <==> 1 + WindowTables(s, g) <= |s.alloc.free|
    ensures ok ==> Advanced(s, g, s', g', PGSIZE)
  {
    FreshPage(s, g);
    var va;
    ok, va, s', g' := Kmalloc(s, g);
    live' := live + [va];
    if ok {
      KmallocKept(s, g, s', g', spaces, live, va);
    }
  }

  /** A window operation: the window has moved by `n`, for a frame and the tables its page lacked, and the user half is as it was. */
  ghost predicate Advanced(s: Vm, g: Shape, s': Vm, g': Shape, n: nat) {
    && g'.maps.user == g.maps.user && s'.cr3 == s.cr3 && s'.freeAddr == s.freeAddr + n && s'.initPml4 == s.initPml4
    && TablesAdded(s, g, s', g', Path(s.initPml4, PageOf(s.freeAddr)), 1 + WindowTables(s, g))
  }

  /** The new page is one more page in use. */
  lemma KmallocKept(s: Vm, g: Shape, s': Vm, g': Shape, spaces: seq<nat>, live: seq<nat>, va: nat)
    requires Running(s, g, spaces, live) && va == s.freeAddr < U64 && s'.freeAddr == va + PGSIZE
    requires Ok(s', g') && Window(s', g') && Preserves(s, g, s', g') && Mapping(s', g', PageOf(va)).Some?
    requires var w := Mapping(s', g', PageOf(va)).value;
             var f := Base(w);
             w == f + PAGE_P + PAGE_RW && f in s.alloc.counts && s.alloc.counts[f] == 0 && f in s'.alloc.counts && s'.alloc.counts[f] == 1 && f !in g'.role
    ensures Running(s', g', spaces, live + [va])
  {
    FreshPage(s, g);
    RunningKept(s, g, s', g', spaces, live);
    assert Owned(s', g', va);
    NewLive(s, g, s', g', spaces, live, va);
  }

  lemma NewLive(s: Vm, g: Shape, s': Vm, g': Shape, spaces: seq<nat>, live: seq<nat>, va: nat)
    requires Running(s, g, spaces, live) && Running(s', g', spaces, live) && Owned(s', g', va)
    requires !Counted(s.alloc.counts, LiveFrame(g', va))
    requires forall i :: 0 <= i < |live| ==> LiveFrame(g', live[i]) == LiveFrame(g, live[i])
    ensures Running(s', g', spaces, live + [va])
  {
    var live' := live + [va];
    forall i | 0 <= i < |live'| ensures Owned(s', g', live'[i]) {
      assert i < |live| ==> Owned(s', g', live[i]);
    }
    forall i, j | 0 <= i < j < |live'| ensures LiveFrame(g', live'[i]) != LiveFrame(g', live'[j]) {
      assert Owned(s, g, live[i]);
    }
  }

  method RunKfree(s: Vm, ghost g: Shape, ghost spaces: seq<nat>, live: seq<nat>, k: nat)
    returns (live': seq<nat>, s': Vm, ghost g': Shape)
    requires Running(s, g, spaces, live) && k < |live|
    ensures Running(s', g', spaces, live') && live' == live[..k] + live[k + 1..]
    ensures g'.maps.user == g.maps.user && s'.cr3 == s.cr3 && s'.freeAddr == s.freeAddr && s'.initPml4 == s.initPml4
    ensures g'.role == g.role && |s'.alloc.free| == |s.alloc.free| + 1
  {
    assert Owned(s, g, live[k]);
    s', g' := Kfree(s, g, live[k]);
    live' := live[..k] + live[k + 1..];
    forall i | 0 <= i < |live'| ensures Owned(s', g', live'[i]) && LiveFrame(g', live'[i]) == LiveFrame(g, live'[i]) {
      var j := if i < k then i else i + 1;
      assert Owned(s, g, live[j]);
      OtherLive(s, g, s', g', live[k], live[j]);
    }
  }

  lemma OtherLive(s: Vm, g: Shape, s': Vm, g': Shape, va: nat, other: nat)
    requires Live(s, g, va) && Live(s, g, other) && LiveFrame(g, va) != LiveFrame(g, other)
    requires g' == g.(maps := Unmap(g.maps, PageOf(va)))
    requires s' == s.(mem := s'.mem, alloc := s.alloc.Release(LiveFrame(g, va)).0)
    ensures Live(s', g', other) && LiveFrame(g', other) == LiveFrame(g, other) && (Owned(s, g, other) ==> Owned(s', g', other))
  {
  }

  method RunAllocPml4(s: Vm, ghost g: Shape, spaces: seq<nat>, ghost live: seq<nat>)
    returns (ok: bool, spaces': seq<nat>, s': Vm, ghost g': Shape)
    requires Running(s, g, spaces, live) && s.freeAddr + 8 * PGSIZE <= U64
    ensures ok ==> Running(s', g', spaces', live) && |spaces'| == |spaces| + 1 && spaces' == spaces + [spaces'[|spaces|]]
    ensures ok ==> forall p: Page :: (spaces'[|spaces|], p) !in g'.maps.user
    ensures ok <==> 1 + WindowTables(s, g) <= |s.alloc.free|
    ensures ok ==> Advanced(s, g, s', g', 8 * PGSIZE) && (forall t: Role :: t in g.role.Values ==> t.Root? || t.o != spaces'[|spaces|])
  {
    var pml4;
    ok, pml4, s', g' := AllocPml4(s, g);
    spaces' := spaces + [pml4];
    if ok {
      RunningKept(s, g, s', g', spaces, live);
      OwnersAreRoots(s, g, pml4);
    }
  }

  lemma OwnersAreRoots(s: Vm, g: Shape, c: nat)
    requires Ok(s, g) && c !in g.role
    ensures forall t: Role :: t in g.role.Values ==> t.Root? || t.o != c
  {
    forall t: Role | t in g.role.Values ensures t.Root? || t.o != c {
      var f :| f in g.role && g.role[f] == t;
      assert Linked(s.mem, g.role, g.role[f], f);
    }
  }

  /** Either way map_page goes, everything keeps running. */
  lemma TakenMapped(s: Vm, g: Shape, s': Vm, g': Shape, spaces: seq<nat>, live: seq<nat>, p: Page, b: nat)
    requires Running(s, g, spaces, live) && s.alloc.Take().1 == Got(b) && p.i4 < 510
    requires Placed(s.(alloc := s.alloc.Take().0), g, s', g', p, b)
    ensures Running(s', g', spaces, live) && UserPlaced(s, g, s', g', p)
  {
    var s1 := s.(alloc := s.alloc.Take().0);
    TakeKept(s, g, spaces, live, b);
    if (s.cr3, p) in g.maps.user {
      GiveBack(s, g, spaces, live, b);
      MappedPath(s, g, s.cr3, p);
      assert g.role.Values + Path(s.cr3, p) == g.role.Values;
    } else {
      FlagWord(b, RW_USER);
      MapUserKept(s1, g, s', g', spaces, live, p, b + RW_USER);
    }
  }

  /** The page is mapped in the current space, for a frame and the tables it lacked if it was not before; nothing else has been. */
  ghost predicate UserPlaced(s: Vm, g: Shape, s': Vm, g': Shape, p: Page) {
    && s'.cr3 == s.cr3 && s'.freeAddr == s.freeAddr && s'.initPml4 == s.initPml4
    && g'.maps.user.Keys == g.maps.user.Keys + {(s.cr3, p)}
    && TablesAdded(s, g, s', g', Path(s.cr3, p), if (s.cr3, p) in g.maps.user then 0 else 1 + Missing(g.role.Values, s.cr3, p))
  }

  /** get_free_page and map_page of a user page in the current address space. */
  method RunMapUser(s: Vm, ghost g: Shape, ghost spaces: seq<nat>, ghost live: seq<nat>, va: nat)
    returns (ok: bool, s': Vm, ghost g': Shape)
    requires Running(s, g, spaces, live) && va < USER_END
    ensures ok ==> Running(s', g', spaces, live) && UserPlaced(s, g, s', g', PageOf(va))
    ensures ok <==> 1 + Missing(g.role.Values, s.cr3, PageOf(va)) <= |s.alloc.free|
  {
    var (alloc, r) := s.alloc.Take();
    if r.OutOfMemory? {
      return false, s, g;
    }
    UserHalf(va);
    TakeKept(s, g, spaces, live, r.base);
    ok, s', g' := Place(s.(alloc := alloc), g, va, r.base);
    if ok {
      TakenMapped(s, g, s', g', spaces, live, PageOf(va), r.base);
    }
  }

  lemma TakeKept(s: Vm, g: Shape, spaces: seq<nat>, live: seq<nat>, b: nat)
    requires Running(s, g, spaces, live) && s.alloc.Take().1 == Got(b)
    ensures Running(s.(alloc := s.alloc.Take().0), g, spaces, live) && b !in g.role && b % PGSIZE == 0
  {
    TookPage(s, g, b);
    TakePreserves(s, g);
    assert FrameOk(s.mem, b);
    RunningKept(s, g, s.(alloc := s.alloc.Take().0), g, spaces, live);
  }

  lemma GiveBack(s: Vm, g: Shape, spaces: seq<nat>, live: seq<nat>, b: nat)
    requires Running(s, g, spaces, live) && s.alloc.Take().1 == Got(b)
    requires Ok(s.(alloc := s.alloc.Take().0.Release(b).0), g)
    ensures Running(s.(alloc := s.alloc.Take().0.Release(b).0), g, spaces, live)
  {
    var s' := s.(alloc := s.alloc.Take().0.Release(b).0);
    forall f: nat ensures Kept(s.alloc.counts, s.mem, g.role, s'.alloc.counts, s'.mem, g.role, f) {
      assert f in s.alloc.counts ==> FrameOk(s.mem, f);
    }
    RunningKept(s, g, s', g, spaces, live);
  }

  lemma MapUserKept(s: Vm, g: Shape, s': Vm, g': Shape, spaces: seq<nat>, live: seq<nat>, p: Page, w: nat)
    requires Running(s, g, spaces, live) && Ok(s', g') && MapsTo(s, g, s', g', p, w) && p.i4 < 510 && IsPresent(w)
    ensures Running(s', g', spaces, live) && (s.cr3, p) in g'.maps.user
  {
    MapsToKept(s, g, s', g', p, w);
    UserMapWindow(s, g, s', g', p, w);
    RunningKept(s, g, s', g', spaces, live);
  }

  /** An operation on the address spaces; `Free` and `Switch` name a live page and a space by position. */
  datatype Op = Alloc | Free(page: nat) | NewSpace | Switch(space: nat) | MapUser(va: nat)

  /**
   What a run comes to: the kernel pages in use, the number of address spaces
   and the current one, the next window address, the user pages mapped, each with
   its space, the tables of the kernel and of the spaces, and the free frames.
   Spaces go by position; the kernel's tables are named as if space 0 had them.
   */
  datatype Ledger = Ledger(live: seq<nat>, spaces: nat, current: nat, next: nat, mapped: set<(nat, Page)>,
                           kernel: set<Role>, tables: set<Role>, free: int) {

    /** Frames the operation has to find. */
    function Need(op: Op): nat {
      match op
      case Alloc => 1 + Missing(kernel, 0, PageOf(next))
      case NewSpace => 1 + Missing(kernel, 0, PageOf(next))
      case MapUser(va) => if va < USER_END then 1 + Missing(tables, current, PageOf(va)) else 0
      case _ => 0
    }

    /** Window addresses it takes. */
    function Room(op: Op): nat {
      match op
      case Alloc => PGSIZE
      case NewSpace => 8 * PGSIZE
      case _ => 0
    }

    /** The frames or the window do not suffice for the operation. */
    predicate Stuck(op: Op) {
      Need(op) > free || (Room(op) > 0 && next + Room(op) > U64)
    }

    /** One operation; one that names nothing does nothing. */
    function After(op: Op): Ledger {
      match op
      case Alloc => this.(live := live + [next], next := next + PGSIZE, kernel := kernel + Path(0, PageOf(next)), free := free - Need(op))
      case Free(k) => if k < |live| then this.(live := live[..k] + live[k + 1..], free := free + 1) else this
      case NewSpace =>
        this.(spaces := spaces + 1, next := next + 8 * PGSIZE, kernel := kernel + Path(0, PageOf(next)), free := free - Need(op))
      case Switch(k) => if k < spaces then this.(current := k) else this
      case MapUser(va) =>
        if va >= USER_END then this
        else
          var page := (current, PageOf(va));
          this.(mapped := mapped + {page}, tables := tables + Path(current, PageOf(va)),
                free := if page in mapped then free else free - Need(op))
    }
  }

  function AfterAll(l: Ledger, ops: seq<Op>): Ledger {
    if ops == [] then l else AfterAll(l, ops[..|ops| - 1]).After(ops[|ops| - 1])
  }

  /** The machine is in the state the ledger says. */
  ghost predicate Recorded(l: Ledger, s: Vm, g: Shape, spaces: seq<nat>, live: seq<nat>) {
    && l.live == live && l.spaces == |spaces| && l.current < |spaces| && s.cr3 == spaces[l.current] && s.freeAddr == l.next
    && l.free == |s.alloc.free|
    && (forall i: nat, p: Page {:trigger (i, p) in l.mapped} :: (i, p) in l.mapped ==> i < |spaces|)
    && (forall i: nat, p: Page {:trigger MappedIn(l, g, spaces, i, p)} :: i < |spaces| ==> MappedIn(l, g, spaces, i, p))
    && SameTables(l.kernel, l.tables, g.role.Values, s.initPml4, spaces)
  }

  ghost predicate MappedIn(l: Ledger, g: Shape, spaces: seq<nat>, i: nat, p: Page)
    requires i < |spaces|
  {
    (i, p) in l.mapped <==> (spaces[i], p) in g.maps.user
  }

  /** The table on the path to `p` is there under the one name exactly when it is under the other. */
  ghost predicate SameTable(ts: set<Role>, i: nat, tables: set<Role>, o: nat, p: Page, n: nat) {
    PathAt(i, p, n) in ts <==> PathAt(o, p, n) in tables
  }

  ghost predicate SameTables(kernel: set<Role>, ts: set<Role>, tables: set<Role>, k: nat, spaces: seq<nat>) {
    && (forall p: Page, n: nat {:trigger SameTable(kernel, 0, tables, k, p, n)} ::
          p.i4 == 511 && 2 <= n <= 4 ==> SameTable(kernel, 0, tables, k, p, n))
    && (forall i: nat, p: Page, n: nat {:trigger SameTable(ts, i, tables, spaces[i], p, n)} ::
          i < |spaces| && p.i4 < 510 && 2 <= n <= 4 ==> SameTable(ts, i, tables, spaces[i], p, n))
    && (forall t: Role {:trigger t in ts} :: t in ts ==> t.Root? || t.o < |spaces|)
  }

  lemma SameMissing(ts: set<Role>, i: nat, tables: set<Role>, o: nat, p: Page)
    requires SameTable(ts, i, tables, o, p, 2) && SameTable(ts, i, tables, o, p, 3) && SameTable(ts, i, tables, o, p, 4)
    ensures Missing(ts, i, p) == Missing(tables, o, p)
  {
  }

  /** The ledger knows what an operation needs. */
  lemma NeedKnown(l: Ledger, s: Vm, g: Shape, spaces: seq<nat>, live: seq<nat>)
    requires Recorded(l, s, g, spaces, live) && Window(s, g)
    ensures s.freeAddr < U64 ==> Missing(l.kernel, 0, PageOf(l.next)) == WindowTables(s, g)
    ensures forall p: Page :: p.i4 < 510 ==> Missing(l.tables, l.current, p) == Missing(g.role.Values, s.cr3, p)
  {
    if s.freeAddr < U64 {
      KernelAddr(s.freeAddr);
      SameMissing(l.kernel, 0, g.role.Values, s.initPml4, PageOf(l.next));
    }
    forall p: Page | p.i4 < 510 ensures Missing(l.tables, l.current, p) == Missing(g.role.Values, s.cr3, p) {
      assert SameTable(l.tables, l.current, g.role.Values, spaces[l.current], p, 2)
             && SameTable(l.tables, l.current, g.role.Values, spaces[l.current], p, 3)
             && SameTable(l.tables, l.current, g.role.Values, spaces[l.current], p, 4);
      SameMissing(l.tables, l.current, g.role.Values, s.cr3, p);
    }
  }

  /** Tables of the kernel more. */
  lemma SameWithKernel(kernel: set<Role>, ts: set<Role>, tables: set<Role>, k: nat, spaces: seq<nat>, q: Page)
    requires SameTables(kernel, ts, tables, k, spaces) && q.i4 == 511
    ensures SameTables(kernel + Path(0, q), ts, tables + Path(k, q), k, spaces)
  {
    forall p: Page, n: nat | p.i4 == 511 && 2 <= n <= 4 ensures SameTable(kernel + Path(0, q), 0, tables + Path(k, q), k, p, n) {
      assert SameTable(kernel, 0, tables, k, p, n);
    }
    forall i: nat, p: Page, n: nat | i < |spaces| && p.i4 < 510 && 2 <= n <= 4
      ensures SameTable(ts, i, tables + Path(k, q), spaces[i], p, n)
    {
      assert SameTable(ts, i, tables, spaces[i], p, n);
    }
  }

  /** Tables of space `c` more. */
  lemma SameWithSpace(kernel: set<Role>, ts: set<Role>, tables: set<Role>, k: nat, spaces: seq<nat>, c: nat, q: Page)
    requires SameTables(kernel, ts, tables, k, spaces) && q.i4 < 510 && c < |spaces|
    requires forall i, j :: 0 <= i < j < |spaces| ==> spaces[i] != spaces[j]
    ensures SameTables(kernel, ts + Path(c, q), tables + Path(spaces[c], q), k, spaces)
  {
    forall p: Page, n: nat | p.i4 == 511 && 2 <= n <= 4 ensures SameTable(kernel, 0, tables + Path(spaces[c], q), k, p, n) {
      assert SameTable(kernel, 0, tables, k, p, n);
    }
    forall i: nat, p: Page, n: nat | i < |spaces| && p.i4 < 510 && 2 <= n <= 4
      ensures SameTable(ts + Path(c, q), i, tables + Path(spaces[c], q), spaces[i], p, n)
    {
      assert SameTable(ts, i, tables, spaces[i], p, n);
      assert i != c ==> spaces[i] != spaces[c];
    }
  }

  /** A space more, without tables. */
  lemma SameWithNew(kernel: set<Role>, ts: set<Role>, tables: set<Role>, k: nat, spaces: seq<nat>, c: nat)
    requires SameTables(kernel, ts, tables, k, spaces) && forall t: Role :: t in tables ==> t.Root? || t.o != c
    ensures SameTables(kernel, ts, tables, k, spaces + [c])
  {
    var spaces' := spaces + [c];
    forall i: nat, p: Page, n: nat | i < |spaces'| && p.i4 < 510 && 2 <= n <= 4
      ensures SameTable(ts, i, tables, spaces'[i], p, n)
    {
      assert i < |spaces| ==> SameTable(ts, i, tables, spaces[i], p, n);
    }
  }

  method Do(s: Vm, ghost g: Shape, spaces: seq<nat>, live: seq<nat>, ghost l: Ledger, op: Op)
    returns (ok: bool, s': Vm, ghost g': Shape, spaces': seq<nat>, live': seq<nat>)
    requires Running(s, g, spaces, live) && Recorded(l, s, g, spaces, live)
    ensures ok <==> !l.Stuck(op)
    ensures ok ==> Running(s', g', spaces', live') && spaces <= spaces' && Recorded(l.After(op), s', g', spaces', live')
  {
    NeedKnown(l, s, g, spaces, live);
    ok, s', g', spaces', live' := true, s, g, spaces, live;
    match op
    case Alloc =>
      if s.freeAddr + PGSIZE > U64 { return false, s, g, spaces, live; }
      ok, live', s', g' := RunKmalloc(s, g, spaces, live);
      if ok { KeptAlloc(l, s, g, s', g', spaces, live); }
    case Free(k) =>
      if k < |live| {
        live', s', g' := RunKfree(s, g, spaces, live, k);
        KeptSame(l, s, g, s', g', spaces, live, live', op);
      }
    case NewSpace =>
      if s.freeAddr + 8 * PGSIZE > U64 { return false, s, g, spaces, live; }
      ok, spaces', s', g' := RunAllocPml4(s, g, spaces, live);
      if ok { KeptNew(l, s, g, s', g', spaces, spaces', live); }
    case Switch(k) =>
      if k < |spaces| {
        s' := s.(cr3 := spaces[k]);
        SwitchKept(s, g, spaces, live, k);
        KeptSame(l, s, g, s', g', spaces, live, live', op);
      }
    case MapUser(va) =>
      if va < USER_END {
        UserHalf(va);
        ok, s', g' := RunMapUser(s, g, spaces, live, va);
        if ok { KeptMapped(l, s, g, s', g', spaces, live, va); }
      }
  }

  /** Operations that leave the user half and the tables alone. */
  lemma KeptSame(l: Ledger, s: Vm, g: Shape, s': Vm, g': Shape, spaces: seq<nat>, live: seq<nat>, live': seq<nat>, op: Op)
    requires Recorded(l, s, g, spaces, live) && g'.maps.user == g.maps.user && g'.role == g.role && s'.initPml4 == s.initPml4
    requires var l' := l.After(op);
             && l' == l.(live := live', current := l'.current, free := |s'.alloc.free|) && l.next == s'.freeAddr
             && l'.current < |spaces| && s'.cr3 == spaces[l'.current]
    ensures Recorded(l.After(op), s', g', spaces, live')
  {
    var l' := l.After(op);
    forall i: nat, p: Page | i < |spaces| ensures MappedIn(l', g', spaces, i, p) {
      assert MappedIn(l, g, spaces, i, p);
    }
  }

  lemma KeptAlloc(l: Ledger, s: Vm, g: Shape, s': Vm, g': Shape, spaces: seq<nat>, live: seq<nat>)
    requires Recorded(l, s, g, spaces, live) && Window(s, g) && s.freeAddr < U64 && Advanced(s, g, s', g', PGSIZE)
    ensures Recorded(l.After(Op.Alloc), s', g', spaces, live + [s.freeAddr])
  {
    var l' := l.After(Op.Alloc);
    KernelAddr(s.freeAddr);
    NeedKnown(l, s, g, spaces, live);
    SameWithKernel(l.kernel, l.tables, g.role.Values, s.initPml4, spaces, PageOf(s.freeAddr));
    forall i: nat, p: Page | i < |spaces| ensures MappedIn(l', g', spaces, i, p) {
      assert MappedIn(l, g, spaces, i, p);
    }
  }

  lemma KeptNew(l: Ledger, s: Vm, g: Shape, s': Vm, g': Shape, spaces: seq<nat>, spaces': seq<nat>, live: seq<nat>)
    requires Recorded(l, s, g, spaces, live) && Window(s, g) && s.freeAddr < U64 && Advanced(s, g, s', g', 8 * PGSIZE)
    requires |spaces'| == |spaces| + 1 && spaces' == spaces + [spaces'[|spaces|]]
    requires forall p: Page :: (spaces'[|spaces|], p) !in g'.maps.user
    requires forall t: Role :: t in g.role.Values ==> t.Root? || t.o != spaces'[|spaces|]
    ensures Recorded(l.After(NewSpace), s', g', spaces', live)
  {
    var l' := l.After(NewSpace);
    KernelAddr(s.freeAddr);
    NeedKnown(l, s, g, spaces, live);
    SameWithNew(l.kernel, l.tables, g.role.Values, s.initPml4, spaces, spaces'[|spaces|]);
    SameWithKernel(l.kernel, l.tables, g.role.Values, s.initPml4, spaces', PageOf(s.freeAddr));
    forall i: nat, p: Page | i < |spaces'| ensures MappedIn(l', g', spaces', i, p) {
      if i < |spaces| {
        assert MappedIn(l, g, spaces, i, p);
      }
    }
  }

  lemma KeptMapped(l: Ledger, s: Vm, g: Shape, s': Vm, g': Shape, spaces: seq<nat>, live: seq<nat>, va: nat)
    requires Recorded(l, s, g, spaces, live) && Window(s, g) && va < USER_END && UserPlaced(s, g, s', g', PageOf(va))
    requires forall i, j :: 0 <= i < j < |spaces| ==> spaces[i] != spaces[j]
    ensures Recorded(l.After(MapUser(va)), s', g', spaces, live)
  {
    var l' := l.After(MapUser(va));
    UserHalf(va);
    NeedKnown(l, s, g, spaces, live);
    SameWithSpace(l.kernel, l.tables, g.role.Values, s.initPml4, spaces, l.current, PageOf(va));
    assert MappedIn(l, g, spaces, l.current, PageOf(va));
    forall i: nat, p: Page | i < |spaces| ensures MappedIn(l', g', spaces, i, p) {
      assert MappedIn(l, g, spaces, i, p);
      assert i != l.current ==> spaces[i] != s.cr3;
      assert (spaces[i], p) in g'.maps.user.Keys <==> (spaces[i], p) in g.maps.user.Keys || (spaces[i], p) == (s.cr3, PageOf(va));
    }
  }

  lemma SwitchKept(s: Vm, g: Shape, spaces: seq<nat>, live: seq<nat>, k: nat)
    requires Running(s, g, spaces, live) && k < |spaces|
    ensures Running(s.(cr3 := spaces[k]), g, spaces, live)
  {
    forall i | 0 <= i < |live| ensures Owned(s.(cr3 := spaces[k]), g, live[i]) {
      assert Owned(s, g, live[i]);
    }
  }

  /** An operation takes at most four frames and eight window pages, and gets stuck only without them. */
  lemma OneTakesFour(l: Ledger, op: Op)
    ensures l.After(op).next <= l.next + 8 * PGSIZE && l.After(op).free >= l.free - 4
    ensures l.free >= 4 && l.next + 8 * PGSIZE <= U64 ==> !l.Stuck(op)
  {
  }

  /** At most `n` operations lie between the two. */
  predicate Within(l: Ledger, l1: Ledger, n: nat) {
    l1.next <= l.next + 8 * PGSIZE * n && l1.free >= l.free - 4 * n
  }

  lemma WithinNext(l: Ledger, l1: Ledger, n: nat, op: Op)
    requires Within(l, l1, n)
    ensures Within(l, l1.After(op), n + 1)
  {
    OneTakesFour(l1, op);
  }

  lemma WithinSuffices(l: Ledger, l1: Ledger, n: nat, m: nat, op: Op)
    requires Within(l, l1, n) && n < m && l.free >= 4 * m && l.next + 8 * PGSIZE * m <= U64
    ensures !l1.Stuck(op)
  {
    OneTakesFour(l1, op);
  }

  lemma {:induction false} TakesFour(l: Ledger, ops: seq<Op>)
    ensures Within(l, AfterAll(l, ops), |ops|)
  {
    if ops != [] {
      TakesFour(l, ops[..|ops| - 1]);
      WithinNext(l, AfterAll(l, ops[..|ops| - 1]), |ops| - 1, ops[|ops| - 1]);
    }
  }

  /** So with four frames and eight window pages for each operation none gets stuck. */
  lemma FourSuffice(l: Ledger, ops: seq<Op>, n: nat)
    requires n < |ops| && l.free >= 4 * |ops| && l.next + 8 * PGSIZE * |ops| <= U64
    ensures !AfterAll(l, ops[..n]).Stuck(ops[n])
  {
    TakesFour(l, ops[..n]);
    WithinSuffices(l, AfterAll(l, ops[..n]), n, |ops|, ops[n]);
  }

  /** After the first `n` operations, none of which got stuck. */
  ghost predicate RanTo(spaces: seq<nat>, l: Ledger, ops: seq<Op>, n: nat, s': Vm, g': Shape, spaces': seq<nat>, live': seq<nat>) {
    && n <= |ops| && Running(s', g', spaces', live') && spaces <= spaces'
    && Recorded(AfterAll(l, ops[..n]), s', g', spaces', live')
    && (forall i {:trigger ops[i]} :: 0 <= i < n ==> !AfterAll(l, ops[..i]).Stuck(ops[i]))
  }

  method DoNext(ghost spaces0: seq<nat>, ghost l: Ledger, ops: seq<Op>, n: nat, s: Vm, ghost g: Shape, spaces: seq<nat>, live: seq<nat>)
    returns (ok: bool, s': Vm, ghost g': Shape, spaces': seq<nat>, live': seq<nat>)
    requires n < |ops| && RanTo(spaces0, l, ops, n, s, g, spaces, live)
    ensures ok <==> !AfterAll(l, ops[..n]).Stuck(ops[n])
    ensures ok ==> RanTo(spaces0, l, ops, n + 1, s', g', spaces', live')
    ensures !ok ==> s' == s && g' == g && spaces' == spaces && live' == live
  {
    assert ops[..n + 1][..n] == ops[..n];
    ok, s', g', spaces', live' := Do(s, g, spaces, live, AfterAll(l, ops[..n]), ops[n]);
    if !ok {
      s', g', spaces', live' := s, g, spaces, live;
    }
  }

  /**
   Any run of the operations: the pages in use, the address spaces, the current
   one, the window, the mapped user pages, the tables and the number of free
   frames are those of the ledger, all spaces translate slot 511 alike, and each
   refers to itself through slot 510. It stops exactly at the first operation
   that the ledger says the frames or the window left do not suffice for; four
   frames and eight window pages for each are enough.
   */
  method Run(s: Vm, ghost g: Shape, spaces: seq<nat>, live: seq<nat>, ghost l: Ledger, ops: seq<Op>)
    returns (done: nat, s': Vm, ghost g': Shape, spaces': seq<nat>, live': seq<nat>)
    requires Running(s, g, spaces, live) && Recorded(l, s, g, spaces, live)
    ensures RanTo(spaces, l, ops, done, s', g', spaces', live') && Coherent(s'.mem, spaces')
    ensures done < |ops| ==> AfterAll(l, ops[..done]).Stuck(ops[done])
    ensures |s.alloc.free| >= 4 * |ops| && s.freeAddr + 8 * PGSIZE * |ops| <= U64 ==> done == |ops|
  {
    done, s', g', spaces', live' := 0, s, g, spaces, live;
    var ok := true;
    assert ops[..0] == [];
    while done < |ops| && ok
      invariant RanTo(spaces, l, ops, done, s', g', spaces', live')
      invariant !ok ==> done < |ops| && AfterAll(l, ops[..done]).Stuck(ops[done])
      decreases |ops| - done, ok
    {
      ok, s', g', spaces', live' := DoNext(spaces, l, ops, done, s', g', spaces', live');
      done := if ok then done + 1 else done;
    }
    RunningCoherent(s', g', spaces', live');
    if !ok && |s.alloc.free| >= 4 * |ops| && s.freeAddr + 8 * PGSIZE * |ops| <= U64 {
      FourSuffice(l, ops, done);
    }
  }
}
