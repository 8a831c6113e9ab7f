/**
 User instructions: a load or store is checked by the hardware, and one that
 faults is restarted after the fault handler returns.
 */
module User {
  import opened Bits
  import opened Machine
  import opened Pointers
  import opened PageTable
  import opened Paging
  import opened Cow
  import opened Demand
  import opened Layout
  import opened Process
  import opened Footprint

  /**
   Livelock: the handler returned without mapping the page, so the instruction
   faults again. Denied: the handler stops at an address from KERNBASE on.
   */
  datatype Access = Value(v: nat) | Written | Segv | Denied | Livelock | NoFrames

  /** After an access at `va`, which pages of the space `r` are present: those of the fill too, if its page was absent. */
  ghost predicate Touched(u: UserMap, u': UserMap, r: nat, vm: seq<Vma>, va: nat) {
    var i := FirstVma(vm, va);
    if (r, PageOf(va)) in u || i == |vm| then SameKeys(u, u') else FilledBy(u, u', r, vm[i])
  }

  /** A view is a whole page. */
  lemma ViewSize(s: Vm, g: Shape, key: Key)
    requires Sound(s, g)
    ensures |View(g.maps.user, s.mem, key)| == 512
  {
    if key in g.maps.user {
      assert EntryOk(g.maps.user, s.alloc.counts, g.role, key);
      assert FrameOk(s.mem, Base(g.maps.user[key]));
    }
  }

  /** What the hardware grants to user code in the current space, by the page's entry. */
  lemma AccessByEntry(s: Vm, g: Shape, p: Page, write: bool)
    requires Sound(s, g) && p.i4 < 510
    ensures UserAccess(s.mem, s.cr3, p, write) <==>
              (s.cr3, p) in g.maps.user && (write ==> Writable(g.maps.user[(s.cr3, p)]))
  {
    LeafDecides(s.mem, g.role, s.initPml4, g.maps, s.cr3, p, write);
    if (s.cr3, p) in g.maps.user {
      assert EntryOk(g.maps.user, s.alloc.counts, g.role, (s.cr3, p));
      var b := Base(g.maps.user[(s.cr3, p)]);
      assert FrameOk(s.mem, b);
      FlagsShow(b, RW_USER);
      FlagsShow(b, COW_USER);
    }
  }

  /** A load the hardware grants. */
  method Load(s: Vm, ghost g: Shape, va: nat) returns (v: nat)
    requires Sound(s, g) && va < USER_END && (s.cr3, PageOf(va)) in g.maps.user
    ensures |View(g.maps.user, s.mem, (s.cr3, PageOf(va)))| == 512
    ensures v == View(g.maps.user, s.mem, (s.cr3, PageOf(va)))[WordOf(va)]
  {
    UserHalf(va);
    ViewSize(s, g, (s.cr3, PageOf(va)));
    var f := FrameAt(s, g, va);
    assert EntryOk(g.maps.user, s.alloc.counts, g.role, (s.cr3, PageOf(va)));
    assert FrameOk(s.mem, f);
    v := Word(s.mem, f, WordOf(va));
  }

  /** One word of one page of one process has changed, and nothing else. */
  ghost predicate WroteWord(s: Vm, g: Shape, s': Vm, g': Shape, key: Key, i: Index, v: nat) {
    var u, u' := g.maps.user, g'.maps.user;
    && (forall k: Key {:trigger SeesSame(u, s.mem, u', s'.mem, k)} :: k != key ==> SeesSame(u, s.mem, u', s'.mem, k))
    && |View(u, s.mem, key)| == 512
    && View(u', s'.mem, key) == View(u, s.mem, key)[i := v]
  }

  /** A store the hardware grants: the frame is this page's alone. */
  method StoreWord(s: Vm, ghost g: Shape, va: nat, v: nat) returns (s': Vm)
    requires Sound(s, g) && va < USER_END && (s.cr3, PageOf(va)) in g.maps.user && Writable(g.maps.user[(s.cr3, PageOf(va))])
    ensures Sound(s', g) && s' == s.(mem := s'.mem)
    ensures WroteWord(s, g, s', g, (s.cr3, PageOf(va)), WordOf(va), v)
  {
    UserHalf(va);
    var f := FrameAt(s, g, va);
    StoreExclusive(s, g, (s.cr3, PageOf(va)), WordOf(va), v);
    s' := s.(mem := Store(s.mem, f, WordOf(va), v));
  }

  /** The store itself, after a fault that no process noticed. */
  method StoreGranted(ghost s0: Vm, ghost g0: Shape, s: Vm, ghost g: Shape, ghost procs: seq<Mm>, ghost current: nat, va: nat, v: nat)
    returns (s': Vm)
    requires System(s, g, procs, current) && SameSight(s0, g0, s, g) && va < USER_END
    requires (s.cr3, PageOf(va)) in g.maps.user && Writable(g.maps.user[(s.cr3, PageOf(va))])
    ensures System(s', g, procs, current) && s' == s.(mem := s'.mem) && Stray(s', g) == Stray(s, g)
    ensures WroteWord(s0, g0, s', g, (s.cr3, PageOf(va)), WordOf(va), v)
  {
    s' := StoreWord(s, g, va, v);
    WroteAfter(s0, g0, s, g, s', (s.cr3, PageOf(va)), WordOf(va), v);
    SystemSameKeys(s, g, s', g, procs, current);
    StraySame(s, g, s', g);
  }

  lemma StoreExclusive(s: Vm, g: Shape, key: Key, i: Index, v: nat)
    requires Sound(s, g) && key in g.maps.user && Writable(g.maps.user[key])
    ensures var f := Base(g.maps.user[key]);
            FrameOk(s.mem, f) &&
            var s' := s.(mem := Store(s.mem, f, i, v));
            Sound(s', g) && WroteWord(s, g, s', g, key, i, v)
  {
    var u, f := g.maps.user, Base(g.maps.user[key]);
    assert EntryOk(u, s.alloc.counts, g.role, key);
    assert FrameOk(s.mem, f);
    var frame: seq<nat> := s.mem[f][i := v];
    DataStore(s, g, f, frame);
    var mem' := s.mem[f := frame];
    forall k: Key | k != key
      ensures SeesSame(u, s.mem, u, mem', k)
    {
      assert k in u && Base(u[k]) == f ==> k in Refs(u, f);
    }
  }

  /** The hardware grants user code nothing in the upper half. */
  lemma UpperClosed(s: Vm, g: Shape, procs: seq<Mm>, current: nat, va: nat, write: bool)
    requires System(s, g, procs, current) && UPPER <= va < U64
    ensures !UserAccess(s.mem, s.cr3, PageOf(va), write)
  {
    var p := PageOf(va);
    UpperPage(va);
    if p.i4 >= 510 {
      KernelClosed(s.mem, g.role, s.initPml4, s.cr3, p, write);
    } else {
      AccessByEntry(s, g, p, write);
      assert ProcOk(g.role, g.maps.user, procs[current]);
      assert (s.cr3, p) in g.maps.user ==> InVmas(procs[current].vm, p);
    }
  }

  /** A load or store in the upper half, the tables under slot 510 included, ends in a fault and changes nothing. */
  method UpperAccess(s: Vm, ghost g: Shape, procs: seq<Mm>, current: nat, va: nat, ghost write: bool) returns (out: Access)
    requires System(s, g, procs, current) && UPPER <= va < U64
    ensures !UserAccess(s.mem, s.cr3, PageOf(va), write)
    ensures out == if va >= KERNBASE then Denied else Segv
  {
    UpperClosed(s, g, procs, current, va, write);
    var r, s1, g1 := HandlePgFault(s, g, procs, current, va, Walk(s.mem, s.cr3, PageOf(va)).Some?);
    out := if r.KernelFault? then Denied else Segv;
  }

  // ------------------------------------------------- frames an access takes

  /** A load finds no frames: its page is absent, and its vma cannot be filled. */
  ghost predicate ReadStarves(s: Vm, g: Shape, vm: seq<Vma>, va: nat) {
    (s.cr3, PageOf(va)) !in g.maps.user && Unfillable(s, g, vm, va)
  }

  /** A store finds no frames: the same, or its page is shared copy-on-write and no frame is free. */
  ghost predicate WriteStarves(s: Vm, g: Shape, vm: seq<Vma>, va: nat) {
    var u, key := g.maps.user, (s.cr3, PageOf(va));
    if key in u then !Writable(u[key]) && s.alloc.free == [] else Unfillable(s, g, vm, va)
  }

  /** Frames that suffice for an access of a process with the pages `P`. */
  ghost function AccessNeed(P: set<Page>, vm: seq<Vma>, va: nat, write: bool): int {
    var i := FirstVma(vm, va);
    if PageOf(va) in P then (if write then 1 else 0)
    else if i == |vm| then 0
    else VmaNeed(P, vm[i])
  }

  lemma NeedSuffices(s: Vm, g: Shape, vm: seq<Vma>, va: nat)
    ensures AccessNeed(Pages(g.maps.user, s.cr3), vm, va, false) <= |s.alloc.free| <==> !ReadStarves(s, g, vm, va)
    ensures AccessNeed(Pages(g.maps.user, s.cr3), vm, va, true) <= |s.alloc.free| ==> !WriteStarves(s, g, vm, va)
    ensures (s.cr3, PageOf(va)) !in g.maps.user && !WriteStarves(s, g, vm, va) ==> AccessNeed(Pages(g.maps.user, s.cr3), vm, va, true) <= |s.alloc.free|
    ensures (s.cr3, PageOf(va)) in g.maps.user ==> AccessNeed(Pages(g.maps.user, s.cr3), vm, va, true) == 1
  {
    assert PageOf(va) in Pages(g.maps.user, s.cr3) <==> (s.cr3, PageOf(va)) in g.maps.user;
  }

  /** A fill takes no more frames than it needs. */
  lemma FillTakes(P: set<Page>, v: Vma)
    ensures Cost(P + VmaFill(v)) - Cost(P) <= VmaNeed(P, v)
  {
    assert P + {} == P;
  }

  lemma NeedCovers(s: Vm, g: Shape, procs: seq<Mm>, current: nat, va: nat, write: bool)
    requires current < |procs|
    ensures var vm, P := procs[current].vm, Pages(g.maps.user, s.cr3);
            var i := FirstVma(vm, va);
            && (PageOf(va) in P <==> (s.cr3, PageOf(va)) in g.maps.user)
            && (PageOf(va) !in P && i < |vm| ==> Cost(P + VmaFill(vm[i])) - Cost(P) <= AccessNeed(P, vm, va, write))
  {
    var vm, P := procs[current].vm, Pages(g.maps.user, s.cr3);
    var i := FirstVma(vm, va);
    if i < |vm| {
      FillTakes(P, vm[i]);
    }
  }

  method UserRead(s: Vm, ghost g: Shape, procs: seq<Mm>, current: nat, va: nat) returns (out: Access, s': Vm, ghost g': Shape)
    requires System(s, g, procs, current) && va < USER_END
    ensures !out.Written? && !out.Denied?
    ensures !out.NoFrames? ==> System(s', g', procs, current) && SameSight(s, g, s', g') && s' == s.(mem := s'.mem, alloc := s'.alloc)
    ensures |View(g.maps.user, s.mem, (s.cr3, PageOf(va)))| == 512
    ensures out.Value? ==> out.v == View(g.maps.user, s.mem, (s.cr3, PageOf(va)))[WordOf(va)]
    ensures !out.NoFrames? ==> Touched(g.maps.user, g'.maps.user, s.cr3, procs[current].vm, va)
    ensures !out.NoFrames? ==> (out.Value? <==> (s.cr3, PageOf(va)) in g'.maps.user)
    ensures !out.NoFrames? ==>
              (out.Segv? <==> (s.cr3, PageOf(va)) !in g.maps.user && forall v :: v in procs[current].vm ==> !(v.start <= va < v.end))
    ensures out.NoFrames? <==> ReadStarves(s, g, procs[current].vm, va)
    ensures !out.NoFrames? ==> |s'.alloc.free| >= |s.alloc.free| - AccessNeed(Pages(g.maps.user, s.cr3), procs[current].vm, va, false)
    ensures !out.NoFrames? ==> Stray(s', g') == Stray(s, g)
  {
    UserHalf(va);
    NeedCovers(s, g, procs, current, va, false);
    NoVma(procs[current].vm, va);
    var p := PageOf(va);
    s', g' := s, g;
    ViewSize(s, g, (s.cr3, p));
    AccessByEntry(s, g, p, false);
    if !UserAccess(s.mem, s.cr3, p, false) {
      var r, s1, g1 := HandlePgFault(s, g, procs, current, va, false);
      if r.NoMemoryLeft? { return NoFrames, s1, g1; }
      if r.SegFault? { return Segv, s, g; }
      assert SeesSame(g.maps.user, s.mem, g1.maps.user, s1.mem, (s.cr3, p));
      s', g' := s1, g1;
      AccessByEntry(s', g', p, false);
      if !UserAccess(s'.mem, s'.cr3, p, false) { return Livelock, s', g'; }
    }
    var v := Load(s', g', va);
    out := Value(v);
  }

  method UserWrite(s: Vm, ghost g: Shape, procs: seq<Mm>, current: nat, va: nat, v: nat) returns (out: Access, s': Vm, ghost g': Shape)
    requires System(s, g, procs, current) && va < USER_END
    ensures !out.Value? && !out.Denied?
    ensures !out.NoFrames? ==> System(s', g', procs, current) && s' == s.(mem := s'.mem, alloc := s'.alloc)
    ensures out.Written? ==> WroteWord(s, g, s', g', (s.cr3, PageOf(va)), WordOf(va), v)
    ensures out.Segv? || out.Livelock? ==> SameSight(s, g, s', g')
    ensures !out.NoFrames? ==> Touched(g.maps.user, g'.maps.user, s.cr3, procs[current].vm, va)
    ensures !out.NoFrames? ==> (out.Written? <==> (s.cr3, PageOf(va)) in g'.maps.user)
    ensures !out.NoFrames? ==>
              (out.Segv? <==> (s.cr3, PageOf(va)) !in g.maps.user && forall v :: v in procs[current].vm ==> !(v.start <= va < v.end))
    ensures out.NoFrames? <==> WriteStarves(s, g, procs[current].vm, va)
    ensures !out.NoFrames? ==> |s'.alloc.free| >= |s.alloc.free| - AccessNeed(Pages(g.maps.user, s.cr3), procs[current].vm, va, true)
    ensures !out.NoFrames? ==> Stray(s', g') == Stray(s, g)
  {
    UserHalf(va);
    NeedCovers(s, g, procs, current, va, true);
    NoVma(procs[current].vm, va);
    var p := PageOf(va);
    s', g' := s, g;
    AccessByEntry(s, g, p, true);
    if !UserAccess(s.mem, s.cr3, p, true) {
      WalkIsLookup(s.mem, g.role, s.initPml4, g.maps, s.cr3, p);
      var r, s1, g1 := HandlePgFault(s, g, procs, current, va, Walk(s.mem, s.cr3, p).Some?);
      if r.NoMemoryLeft? { return NoFrames, s1, g1; }
      if r.SegFault? { return Segv, s, g; }
      s', g' := s1, g1;
      AccessByEntry(s', g', p, true);
      if !UserAccess(s'.mem, s'.cr3, p, true) { return Livelock, s', g'; }
    }
    s' := StoreGranted(s, g, s', g', procs, current, va, v);
    out := Written;
  }

  lemma WroteAfter(s: Vm, g: Shape, s1: Vm, g1: Shape, s2: Vm, key: Key, i: Index, v: nat)
    requires SameSight(s, g, s1, g1) && WroteWord(s1, g1, s2, g1, key, i, v)
    ensures WroteWord(s, g, s2, g1, key, i, v)
  {
    assert SeesSame(g.maps.user, s.mem, g1.maps.user, s1.mem, key);
    forall k: Key | k != key
      ensures SeesSame(g.maps.user, s.mem, g1.maps.user, s2.mem, k)
    {
      assert SeesSame(g.maps.user, s.mem, g1.maps.user, s1.mem, k) && SeesSame(g1.maps.user, s1.mem, g1.maps.user, s2.mem, k);
    }
  }
}
