/**
 The running system, and the system it is meant to look like: one where every
 process has memory of its own and fork copies all of it at once.
 */
module Kernel {
  import opened Bits
  import opened Machine
  import opened Pointers
  import opened PageTable
  import opened Paging
  import opened Cow
  import opened Demand
  import opened Layout
  import opened Fork
  import opened Process
  import opened User
  import opened Footprint

  datatype Event = SwitchTo(pid: nat) | Read(va: nat) | Write(va: nat, v: nat) | ForkCall | BrkCall(addr: nat)

  /**
   Why the kernel stops: out of frames or window addresses, a missing page
   table in fork, a user access to kernel addresses, or one outside all vmas
   (handle_pg_fault panics, and panic does not return).
   */
  datatype Reason = Exhausted | MissingTable | Protected | OutsideVmas

  /** `Spins`: the access does not complete after its fault; `SpinsForEver` says that no retry completes either. */
  datatype Output = Done | Loaded(v: nat) | Child(pid: nat) | Break(r: BrkResult) | Spins | Halt(why: Reason)

  // ------------------------------------------------------- the eager system

  type Contents = s: seq<nat> | |s| == 512 witness seq(512, i => 0)
  type PageMem = map<Page, Contents>

  function PageAt(m: PageMem, p: Page): Contents {
    if p in m then m[p] else ZeroFrame()
  }

  function PokePage(m: PageMem, p: Page, i: Index, v: nat): PageMem {
    var page: Contents := PageAt(m, p)[i := v];
    m[p := page]
  }

  /**
   A process with memory of its own: the pages that are not all zero, the
   layout, and the pages that have been touched.
   */
  datatype Proc = Proc(mem: PageMem, mm: Mm, present: set<Page>) {

    /** The first access to an absent page in a range touches the pages of the fill. */
    ghost function Touch(va: nat): Proc {
      var i := FirstVma(mm.vm, va);
      if PageOf(va) in present || i == |mm.vm| then this
      else this.(present := present + VmaFill(mm.vm[i]))
    }

    /** What becomes of an access to user address `va`, if it completes with `done`. */
    ghost function Access(va: nat, done: Output): Output {
      if va >= KERNBASE then Halt(Protected)
      else if va >= USER_END then Halt(OutsideVmas)
      else if PageOf(va) in Touch(va).present then done
      else if FirstVma(mm.vm, va) == |mm.vm| then Halt(OutsideVmas)
      else Spins
    }

    /** Frames that suffice for an event; the child's kernel pages take at most six. */
    ghost function Need(ev: Event): int {
      match ev
      case Read(va) => if va < USER_END then AccessNeed(present, mm.vm, va, false) else 0
      case Write(va, v) => if va < USER_END then AccessNeed(present, mm.vm, va, true) else 0
      case ForkCall => 6 + ForkCost(present)
      case _ => 0
    }
  }

  /** Kernel window addresses an event takes. */
  function Addresses(ev: Event): nat {
    if ev.ForkCall? then 9 * PGSIZE else 0
  }

  datatype Eager = Eager(procs: seq<Proc>, current: nat) {

    ghost predicate Running() {
      current < |procs| && |procs[current].mm.vm| >= 2
    }

    /** The answer to an event, when frames and window addresses do not run out. */
    ghost function Answer(ev: Event): Output
      requires Running()
    {
      var me := procs[current];
      match ev
      case SwitchTo(pid) => Done
      case Read(va) => me.Access(va, Loaded(PageAt(me.mem, PageOf(va))[WordOf(va)]))
      case Write(va, v) => me.Access(va, Done)
      case ForkCall => if Covered(me.present, me.mm.vm) then Child(|procs|) else Halt(MissingTable)
      case BrkCall(addr) => Break(BrkOf(me.mm, addr).1)
    }

    ghost function Next(ev: Event): Eager
      requires Running()
    {
      var me := procs[current];
      match ev
      case SwitchTo(pid) => if pid < |procs| then this.(current := pid) else this
      case Read(va) => this.(procs := procs[current := me.Touch(va)])
      case Write(va, v) =>
        var mem := if me.Access(va, Done).Done? then PokePage(me.mem, PageOf(va), WordOf(va), v) else me.mem;
        this.(procs := procs[current := me.Touch(va).(mem := mem)])
      case ForkCall => this.(procs := procs + [me])
      case BrkCall(addr) => this.(procs := procs[current := me.(mm := BrkOf(me.mm, addr).0)])
    }
  }

  /** The eager system after a sequence of events, and its answers to them. */
  ghost function EagerRun(e: Eager, evs: seq<Event>): (Eager, seq<Output>) {
    if evs == [] then (e, [])
    else
      var n := |evs| - 1;
      var (e1, outs) := EagerRun(e, evs[..n]);
      if e1.Running() then (e1.Next(evs[n]), outs + [e1.Answer(evs[n])]) else (e1, outs)
  }

  lemma {:induction false} AnswersBounded(e: Eager, evs: seq<Event>)
    ensures |EagerRun(e, evs).1| <= |evs|
  {
    if evs != [] {
      AnswersBounded(e, evs[..|evs| - 1]);
    }
  }

  /** Each answer of a run is the eager system's at that point. */
  lemma {:induction false} AnswerAt(e: Eager, evs: seq<Event>, i: nat)
    requires |EagerRun(e, evs).1| == |evs| && i < |evs|
    ensures var e1 := EagerRun(e, evs[..i]).0; e1.Running() && EagerRun(e, evs).1[i] == e1.Answer(evs[i])
  {
    var n := |evs| - 1;
    AnswersBounded(e, evs[..n]);
    if i < n {
      AnswerAt(e, evs[..n], i);
      assert evs[..n][..i] == evs[..i];
    }
  }

  // --------------------------------------------------- agreement of the two

  ghost predicate PageAgrees(m: PageMem, u: UserMap, mem: Memory, r: nat, p: Page) {
    PageAt(m, p) == View(u, mem, (r, p))
  }

  ghost predicate MemAgrees(m: PageMem, u: UserMap, mem: Memory, r: nat) {
    forall p: Page {:trigger PageAgrees(m, u, mem, r, p)} :: PageAgrees(m, u, mem, r, p)
  }

  ghost predicate PresentAgrees(present: set<Page>, u: UserMap, r: nat) {
    forall p: Page {:trigger p in present} {:trigger (r, p) in u} :: p in present <==> (r, p) in u
  }

  /** A process sees in every page what its own memory holds, and has the same layout and present pages. */
  ghost predicate ProcAgrees(e: Proc, u: UserMap, mem: Memory, mm: Mm) {
    MemAgrees(e.mem, u, mem, mm.pml4) && e.mm == mm.(pml4 := 0) && PresentAgrees(e.present, u, mm.pml4)
  }

  ghost predicate Agrees(e: Eager, u: UserMap, mem: Memory, procs: seq<Mm>, current: nat) {
    && |e.procs| == |procs| && e.current == current
    && (forall i {:trigger ProcAgrees(e.procs[i], u, mem, procs[i])} :: 0 <= i < |procs| ==> ProcAgrees(e.procs[i], u, mem, procs[i]))
  }

  lemma PresentPages(present: set<Page>, u: UserMap, r: nat)
    requires PresentAgrees(present, u, r)
    ensures present == Pages(u, r)
  {
    forall p: Page ensures p in present <==> p in Pages(u, r) {
      assert p in present <==> (r, p) in u;
    }
  }

  lemma AgreesRunning(e: Eager, s: Vm, g: Shape, procs: seq<Mm>, current: nat)
    requires System(s, g, procs, current) && Agrees(e, g.maps.user, s.mem, procs, current)
    ensures e.Running() && e.procs[current].mm == procs[current].(pml4 := 0)
  {
    assert ProcAgrees(e.procs[current], g.maps.user, s.mem, procs[current]);
    assert ProcOk(g.role, g.maps.user, procs[current]);
  }

  /** The memory of one process as it stands: the pages its tables map. */
  ghost function Snapshot(u: UserMap, mem: Memory, r: nat): PageMem
    requires forall key :: |View(u, mem, key)| == 512
  {
    map key | key in u && key.0 == r :: key.1 := View(u, mem, key)
  }

  ghost function ProcOf(u: UserMap, mem: Memory, mm: Mm): Proc
    requires forall key :: |View(u, mem, key)| == 512
  {
    Proc(Snapshot(u, mem, mm.pml4), mm.(pml4 := 0), Pages(u, mm.pml4))
  }

  lemma ProcOfAgrees(u: UserMap, mem: Memory, mm: Mm)
    requires forall key :: |View(u, mem, key)| == 512
    ensures ProcAgrees(ProcOf(u, mem, mm), u, mem, mm)
  {
    var m := Snapshot(u, mem, mm.pml4);
    forall p: Page ensures PageAgrees(m, u, mem, mm.pml4, p) {
      assert (mm.pml4, p) in u ==> p in m;
    }
  }

  /** Every state of the system stands for an eager one. */
  lemma SystemAgrees(s: Vm, g: Shape, procs: seq<Mm>, current: nat) returns (e: Eager)
    requires System(s, g, procs, current)
    ensures Agrees(e, g.maps.user, s.mem, procs, current)
  {
    var u := g.maps.user;
    forall key ensures |View(u, s.mem, key)| == 512 {
      ViewSize(s, g, key);
    }
    e := Eager(seq(|procs|, i requires 0 <= i < |procs| => ProcOf(u, s.mem, procs[i])), current);
    forall i | 0 <= i < |procs| ensures ProcAgrees(e.procs[i], u, s.mem, procs[i]) {
      ProcOfAgrees(u, s.mem, procs[i]);
    }
  }

  /** An access that no process sees touches pages of the current process only. */
  lemma TouchAgrees(p: Proc, u: UserMap, mem: Memory, u': UserMap, mem': Memory, mm: Mm, va: nat)
    requires ProcAgrees(p, u, mem, mm) && SameViews(u, mem, u', mem') && Touched(u, u', mm.pml4, mm.vm, va) && WellFormed(mm)
    ensures ProcAgrees(p.Touch(va), u', mem', mm)
    ensures PageOf(va) in p.Touch(va).present <==> (mm.pml4, PageOf(va)) in u'
  {
    MemSame(p.mem, u, mem, u', mem', mm.pml4);
    PresentTouched(p, u, u', mm, va);
  }

  lemma MemSame(m: PageMem, u: UserMap, mem: Memory, u': UserMap, mem': Memory, r: nat)
    requires MemAgrees(m, u, mem, r) && SameViews(u, mem, u', mem')
    ensures MemAgrees(m, u', mem', r)
  {
    forall p: Page ensures PageAgrees(m, u', mem', r, p) {
      assert PageAgrees(m, u, mem, r, p) && SeesSame(u, mem, u', mem', (r, p));
    }
  }

  lemma PresentTouched(p: Proc, u: UserMap, u': UserMap, mm: Mm, va: nat)
    requires p.mm == mm.(pml4 := 0) && PresentAgrees(p.present, u, mm.pml4) && Touched(u, u', mm.pml4, mm.vm, va) && WellFormed(mm)
    ensures PresentAgrees(p.Touch(va).present, u', mm.pml4)
  {
    assert PageOf(va) in p.present <==> (mm.pml4, PageOf(va)) in u;
    var i := FirstVma(mm.vm, va);
    forall q: Page ensures q in p.Touch(va).present <==> (mm.pml4, q) in u' {
      assert q in p.present <==> (mm.pml4, q) in u;
      if i < |mm.vm| {
        VmaBounds(mm, i);
        FillIsSet(mm.vm[i], q);
      }
    }
  }

  /** The other processes' present pages stay. */
  lemma PresentElsewhere(present: set<Page>, u: UserMap, u': UserMap, r: nat, vm: seq<Vma>, va: nat, o: nat)
    requires PresentAgrees(present, u, o) && Touched(u, u', r, vm, va) && o != r
    ensures PresentAgrees(present, u', o)
  {
    forall q: Page ensures q in present <==> (o, q) in u' {
      assert q in present <==> (o, q) in u;
    }
  }

  lemma AgreesTouch(e: Eager, s: Vm, g: Shape, s': Vm, g': Shape, procs: seq<Mm>, current: nat, va: nat)
    requires System(s, g, procs, current) && Agrees(e, g.maps.user, s.mem, procs, current)
    requires SameSight(s, g, s', g') && Touched(g.maps.user, g'.maps.user, s.cr3, procs[current].vm, va)
    ensures e.Running() && Agrees(e.Next(Read(va)), g'.maps.user, s'.mem, procs, current)
    ensures PageOf(va) in e.procs[current].Touch(va).present <==> (s.cr3, PageOf(va)) in g'.maps.user
  {
    AgreesRunning(e, s, g, procs, current);
    assert ProcOk(g.role, g.maps.user, procs[current]);
    var u, u', e' := g.maps.user, g'.maps.user, e.Next(Read(va));
    assert ProcAgrees(e.procs[current], u, s.mem, procs[current]);
    TouchAgrees(e.procs[current], u, s.mem, u', s'.mem, procs[current], va);
    forall i | 0 <= i < |procs| ensures ProcAgrees(e'.procs[i], u', s'.mem, procs[i]) {
      assert ProcAgrees(e.procs[i], u, s.mem, procs[i]);
      if i != current {
        MemSame(e.procs[i].mem, u, s.mem, u', s'.mem, procs[i].pml4);
        PresentElsewhere(e.procs[i].present, u, u', s.cr3, procs[current].vm, va, procs[i].pml4);
      }
    }
  }

  /** The current process's memory after a store, and another's. */
  lemma MemWrote(m: PageMem, s: Vm, g: Shape, s': Vm, g': Shape, r: nat, va: nat, v: nat)
    requires MemAgrees(m, g.maps.user, s.mem, r) && WroteWord(s, g, s', g', (s.cr3, PageOf(va)), WordOf(va), v)
    ensures MemAgrees(if r == s.cr3 then PokePage(m, PageOf(va), WordOf(va), v) else m, g'.maps.user, s'.mem, r)
  {
    var u, u' := g.maps.user, g'.maps.user;
    var m' := if r == s.cr3 then PokePage(m, PageOf(va), WordOf(va), v) else m;
    forall p: Page ensures PageAgrees(m', u', s'.mem, r, p) {
      assert PageAgrees(m, u, s.mem, r, p);
      assert r != s.cr3 || p != PageOf(va) ==> SeesSame(u, s.mem, u', s'.mem, (r, p));
    }
  }

  lemma AgreesWrite(e: Eager, s: Vm, g: Shape, s': Vm, g': Shape, procs: seq<Mm>, current: nat, va: nat, v: nat)
    requires System(s, g, procs, current) && Agrees(e, g.maps.user, s.mem, procs, current) && va < USER_END
    requires WroteWord(s, g, s', g', (s.cr3, PageOf(va)), WordOf(va), v)
    requires Touched(g.maps.user, g'.maps.user, s.cr3, procs[current].vm, va) && (s.cr3, PageOf(va)) in g'.maps.user
    ensures e.Running() && e.Answer(Write(va, v)) == Done && Agrees(e.Next(Write(va, v)), g'.maps.user, s'.mem, procs, current)
  {
    AgreesRunning(e, s, g, procs, current);
    assert ProcOk(g.role, g.maps.user, procs[current]);
    var u, u' := g.maps.user, g'.maps.user;
    assert ProcAgrees(e.procs[current], u, s.mem, procs[current]);
    PresentTouched(e.procs[current], u, u', procs[current], va);
    assert PageOf(va) in e.procs[current].Touch(va).present;
    var e' := e.Next(Write(va, v));
    forall i | 0 <= i < |procs| ensures ProcAgrees(e'.procs[i], u', s'.mem, procs[i]) {
      assert ProcAgrees(e.procs[i], u, s.mem, procs[i]);
      MemWrote(e.procs[i].mem, s, g, s', g', procs[i].pml4, va, v);
      if i != current {
        assert procs[i].pml4 != s.cr3;
        PresentElsewhere(e.procs[i].present, u, u', s.cr3, procs[current].vm, va, procs[i].pml4);
      }
    }
  }

  lemma ForkAgrees(p: Proc, s: Vm, g: Shape, s': Vm, g': Shape, mm: Mm, mm': Mm, c: nat)
    requires ProcAgrees(p, g.maps.user, s.mem, mm) && SeenByChild(s, g, s', g', c) && KeysForked(g.maps.user, g'.maps.user, s.cr3, c)
    requires if mm'.pml4 == c then mm.pml4 == s.cr3 && mm' == mm.(pml4 := c) else mm' == mm
    ensures ProcAgrees(p, g'.maps.user, s'.mem, mm')
  {
    var u, u' := g.maps.user, g'.maps.user;
    forall q: Page ensures PageAgrees(p.mem, u', s'.mem, mm'.pml4, q) {
      assert PageAgrees(p.mem, u, s.mem, mm.pml4, q);
      assert mm'.pml4 != c ==> SeesSame(u, s.mem, u', s'.mem, (mm.pml4, q));
    }
    forall q: Page ensures q in p.present <==> (mm'.pml4, q) in u' {
      assert q in p.present <==> (mm.pml4, q) in u;
    }
  }

  lemma AgreesFork(e: Eager, s: Vm, g: Shape, s': Vm, g': Shape, procs: seq<Mm>, current: nat, child: Mm)
    requires System(s, g, procs, current) && Agrees(e, g.maps.user, s.mem, procs, current)
    requires System(s', g', procs + [child], current) && SeenByChild(s, g, s', g', child.pml4)
    requires KeysForked(g.maps.user, g'.maps.user, s.cr3, child.pml4) && child == procs[current].(pml4 := child.pml4)
    ensures e.Running() && Agrees(e.Next(ForkCall), g'.maps.user, s'.mem, procs + [child], current)
  {
    AgreesRunning(e, s, g, procs, current);
    var u, u', e', procs' := g.maps.user, g'.maps.user, e.Next(ForkCall), procs + [child];
    forall i | 0 <= i < |procs'| ensures ProcAgrees(e'.procs[i], u', s'.mem, procs'[i]) {
      var j := if i < |procs| then i else current;
      assert ProcAgrees(e.procs[j], u, s.mem, procs[j]);
      assert i < |procs| ==> procs'[i].pml4 != procs'[|procs|].pml4;
      ForkAgrees(e.procs[j], s, g, s', g', procs[j], procs'[i], child.pml4);
    }
  }

  lemma AgreesRead(e: Eager, s: Vm, g: Shape, procs: seq<Mm>, current: nat, p: Page)
    requires System(s, g, procs, current) && Agrees(e, g.maps.user, s.mem, procs, current)
    ensures PageAt(e.procs[current].mem, p) == View(g.maps.user, s.mem, (s.cr3, p))
  {
    assert ProcAgrees(e.procs[current], g.maps.user, s.mem, procs[current]);
    assert PageAgrees(e.procs[current].mem, g.maps.user, s.mem, procs[current].pml4, p);
  }

  /** The answer for what came of an access that found its frames. */
  function Told(r: Access): Output {
    match r
    case Value(v) => Loaded(v)
    case Written => Done
    case Livelock => Spins
    case _ => Halt(OutsideVmas)
  }

  lemma LoadAnswer(e: Eager, s: Vm, g: Shape, s': Vm, g': Shape, procs: seq<Mm>, current: nat, va: nat, r: Access)
    requires System(s, g, procs, current) && Agrees(e, g.maps.user, s.mem, procs, current) && va < USER_END
    requires SameSight(s, g, s', g') && Touched(g.maps.user, g'.maps.user, s.cr3, procs[current].vm, va)
    requires r.Value? || r.Segv? || r.Livelock?
    requires r.Value? <==> (s.cr3, PageOf(va)) in g'.maps.user
    requires r.Segv? <==> (s.cr3, PageOf(va)) !in g.maps.user && forall v :: v in procs[current].vm ==> !(v.start <= va < v.end)
    requires |View(g.maps.user, s.mem, (s.cr3, PageOf(va)))| == 512
    requires r.Value? ==> r.v == View(g.maps.user, s.mem, (s.cr3, PageOf(va)))[WordOf(va)]
    ensures e.Running() && e.Answer(Read(va)) == Told(r) && Agrees(e.Next(Read(va)), g'.maps.user, s'.mem, procs, current)
  {
    NoVma(procs[current].vm, va);
    AgreesRunning(e, s, g, procs, current);
    AgreesRead(e, s, g, procs, current, PageOf(va));
    AgreesTouch(e, s, g, s', g', procs, current, va);
  }

  lemma StoreAnswer(e: Eager, s: Vm, g: Shape, s': Vm, g': Shape, procs: seq<Mm>, current: nat, va: nat, v: nat, r: Access)
    requires System(s, g, procs, current) && Agrees(e, g.maps.user, s.mem, procs, current) && va < USER_END
    requires Touched(g.maps.user, g'.maps.user, s.cr3, procs[current].vm, va)
    requires r.Written? || r.Segv? || r.Livelock?
    requires if r.Written? then WroteWord(s, g, s', g', (s.cr3, PageOf(va)), WordOf(va), v) else SameSight(s, g, s', g')
    requires r.Written? <==> (s.cr3, PageOf(va)) in g'.maps.user
    requires r.Segv? <==> (s.cr3, PageOf(va)) !in g.maps.user && forall v :: v in procs[current].vm ==> !(v.start <= va < v.end)
    ensures e.Running() && e.Answer(Write(va, v)) == Told(r) && Agrees(e.Next(Write(va, v)), g'.maps.user, s'.mem, procs, current)
  {
    AgreesRunning(e, s, g, procs, current);
    if r.Written? {
      AgreesWrite(e, s, g, s', g', procs, current, va, v);
    } else {
      AgreesTouch(e, s, g, s', g', procs, current, va);
    }
  }

  /** What an access needs, by the pages that are mapped. */
  lemma NeedIs(e: Eager, s: Vm, g: Shape, procs: seq<Mm>, current: nat, ev: Event)
    requires System(s, g, procs, current) && Agrees(e, g.maps.user, s.mem, procs, current)
    requires (ev.Read? || ev.Write?) && ev.va < USER_END
    ensures e.procs[current].Need(ev) == AccessNeed(Pages(g.maps.user, s.cr3), procs[current].vm, ev.va, ev.Write?)
  {
    AgreesPresent(e, s, g, procs, current);
    AgreesRunning(e, s, g, procs, current);
  }

  // ------------------------------------------------------ steps of processes

  lemma SystemSwitch(s: Vm, g: Shape, procs: seq<Mm>, current: nat, pid: nat)
    requires System(s, g, procs, current) && pid < |procs|
    ensures System(s.(cr3 := procs[pid].pml4), g, procs, pid)
  {
    assert ProcOk(g.role, g.maps.user, procs[pid]);
    SwitchOk(s, g, procs[pid].pml4);
  }

  /** A grown heap still holds every page it held. */
  lemma ProcBrk(role: Roles, u: UserMap, mm: Mm, mm': Mm)
    requires ProcOk(role, u, mm) && WellFormed(mm') && HeapVma(mm).end <= HeapVma(mm').end
    requires mm' == mm.(brk := mm'.brk, vm := mm.vm[|mm.vm| - 2 := HeapVma(mm')])
    ensures ProcOk(role, u, mm')
  {
    forall p: Page | (mm.pml4, p) in u ensures InVmas(mm'.vm, p) {
      assert InVmas(mm.vm, p);
      var i :| 0 <= i < |mm.vm| && Touches(mm.vm[i], UserAddr(p));
      assert Touches(mm'.vm[i], UserAddr(p));
    }
  }

  lemma SystemBrk(s: Vm, g: Shape, procs: seq<Mm>, current: nat, mm': Mm)
    requires System(s, g, procs, current) && WellFormed(mm') && |procs[current].vm| >= 2
    requires var mm := procs[current]; HeapVma(mm).end <= HeapVma(mm').end && mm' == mm.(brk := mm'.brk, vm := mm.vm[|mm.vm| - 2 := HeapVma(mm')])
    ensures System(s, g, procs[current := mm'], current)
  {
    assert ProcOk(g.role, g.maps.user, procs[current]);
    ProcBrk(g.role, g.maps.user, procs[current], mm');
    var procs' := procs[current := mm'];
    forall i | 0 <= i < |procs'| ensures ProcOk(g.role, g.maps.user, procs'[i]) {
      assert ProcOk(g.role, g.maps.user, procs[i]);
    }
  }

  lemma AgreesBrk(e: Eager, s: Vm, g: Shape, procs: seq<Mm>, current: nat, addr: nat)
    requires System(s, g, procs, current) && Agrees(e, g.maps.user, s.mem, procs, current) && |procs[current].vm| >= 2
    ensures e.Running() && e.Answer(BrkCall(addr)) == Break(BrkOf(procs[current], addr).1)
    ensures Agrees(e.Next(BrkCall(addr)), g.maps.user, s.mem, procs[current := BrkOf(procs[current], addr).0], current)
  {
    AgreesRunning(e, s, g, procs, current);
    var procs', e' := procs[current := BrkOf(procs[current], addr).0], e.Next(BrkCall(addr));
    forall i | 0 <= i < |procs'| ensures ProcAgrees(e'.procs[i], g.maps.user, s.mem, procs'[i]) {
      assert ProcAgrees(e.procs[i], g.maps.user, s.mem, procs[i]);
    }
  }

  lemma AgreesSwitch(e: Eager, u: UserMap, mem: Memory, procs: seq<Mm>, current: nat, pid: nat)
    requires Agrees(e, u, mem, procs, current) && current < |procs| && pid < |procs| && e.Running()
    ensures Agrees(e.Next(SwitchTo(pid)), u, mem, procs, pid)
  {
    var e' := e.Next(SwitchTo(pid));
    forall i | 0 <= i < |procs| ensures ProcAgrees(e'.procs[i], u, mem, procs[i]) {
      assert ProcAgrees(e.procs[i], u, mem, procs[i]);
    }
  }

  /** User code can only name addresses of the two canonical halves. */
  predicate Legal(ev: Event) {
    match ev
    case Read(va) => va < USER_END || UPPER <= va < U64
    case Write(va, v) => va < USER_END || UPPER <= va < U64
    case BrkCall(addr) => addr <= MINUS_ONE
    case _ => true
  }

  /** The kernel, about to handle an event, lacks the frames or window addresses for it. */
  ghost predicate Starves(s: Vm, g: Shape, vm: seq<Vma>, ev: Event) {
    match ev
    case Read(va) => va < USER_END && ReadStarves(s, g, vm, va)
    case Write(va, v) => va < USER_END && WriteStarves(s, g, vm, va)
    case ForkCall => ForkNeed(s, g) > |s.alloc.free| || !WindowRoom(s)
    case _ => false
  }

  /** What an event may take of the frames and the window. */
  ghost predicate Takes(s: Vm, g: Shape, s': Vm, g': Shape, p: Proc, ev: Event) {
    && |s'.alloc.free| >= |s.alloc.free| - p.Need(ev) && s'.freeAddr == s.freeAddr + Addresses(ev)
    && NoLeak(s, g, s', g', Forks([ev]))
  }

  /** Every frame allocated since is a table, or a user page maps it, or it is one of `n` kernel pages. */
  ghost predicate NoLeak(s: Vm, g: Shape, s': Vm, g': Shape, n: nat) {
    Stray(s, g) <= Stray(s', g') && |Stray(s', g')| == |Stray(s, g)| + n
  }

  function Forks(evs: seq<Event>): nat {
    if evs == [] then 0 else Forks(evs[..|evs| - 1]) + if evs[|evs| - 1].ForkCall? then 1 else 0
  }

  /** The kernel half always has its PDPT, so a page of it lacks at most two tables. */
  lemma SpaceSmall(s: Vm, g: Shape)
    requires Sound(s, g) && WindowRoom(s)
    ensures SpaceNeed(s, g) <= 6
  {
    KernelAddr(s.freeAddr);
    AlignedNext(s.freeAddr);
    KernelAddr(s.freeAddr + PGSIZE);
    var p := PageOf(s.freeAddr);
    WalkTables(s.mem, g.role, s.initPml4, s.initPml4, p);
    assert IsPresent(Word(s.mem, s.initPml4, 511));
    assert PathAt(s.initPml4, p, 4) == PathAt(s.initPml4, PageOf(s.freeAddr + PGSIZE), 4);
  }

  /** With the frames the eager process calls for, and the window addresses, the kernel does not starve. */
  lemma NeedFeeds(e: Eager, s: Vm, g: Shape, procs: seq<Mm>, current: nat, ev: Event)
    requires System(s, g, procs, current) && Agrees(e, g.maps.user, s.mem, procs, current) && e.Running()
    requires e.procs[current].Need(ev) <= |s.alloc.free| && s.freeAddr + Addresses(ev) <= U64
    ensures !Starves(s, g, procs[current].vm, ev)
  {
    assert ProcAgrees(e.procs[current], g.maps.user, s.mem, procs[current]);
    PresentPages(e.procs[current].present, g.maps.user, s.cr3);
    match ev
    case Read(va) => NeedSuffices(s, g, procs[current].vm, va);
    case Write(va, v) => NeedSuffices(s, g, procs[current].vm, va);
    case ForkCall => SpaceSmall(s, g);
    case _ =>
  }

  /** And it calls for no more than that: a fork for at most four frames more than it takes, a load for exactly those, a store for one more. */
  lemma NeedTight(e: Eager, s: Vm, g: Shape, procs: seq<Mm>, current: nat, ev: Event)
    requires System(s, g, procs, current) && Agrees(e, g.maps.user, s.mem, procs, current) && e.Running() && WindowRoom(s)
    ensures ev.Read? && e.procs[current].Need(ev) > |s.alloc.free| ==> Starves(s, g, procs[current].vm, ev)
    ensures ev.Write? && e.procs[current].Need(ev) > |s.alloc.free| ==> Starves(s, g, procs[current].vm, ev) || e.procs[current].Need(ev) == 1
    ensures ev.ForkCall? && e.procs[current].Need(ev) > |s.alloc.free| + 4 ==> Starves(s, g, procs[current].vm, ev)
    ensures ev.BrkCall? || ev.SwitchTo? ==> e.procs[current].Need(ev) == 0
  {
    assert ProcAgrees(e.procs[current], g.maps.user, s.mem, procs[current]);
    PresentPages(e.procs[current].present, g.maps.user, s.cr3);
    match ev
    case Read(va) => NeedSuffices(s, g, procs[current].vm, va);
    case Write(va, v) => NeedSuffices(s, g, procs[current].vm, va);
    case _ =>
  }

  /** The break of every process is inside its heap. */
  ghost predicate HeapsFit(procs: seq<Mm>) {
    forall i {:trigger procs[i]} :: 0 <= i < |procs| ==> HeapFits(procs[i])
  }

  /** Some process's break has run into its stack. */
  ghost predicate SomeCollided(procs: seq<Mm>) {
    exists i {:trigger procs[i]} :: 0 <= i < |procs| && Collided(procs[i])
  }

  /** One event: a collision shows in the answer, and lasts. */
  ghost predicate HeapStep(procs: seq<Mm>, procs': seq<Mm>, out: Output) {
    && (HeapsFit(procs) && out != Break(Collision) ==> HeapsFit(procs'))
    && (HeapsFit(procs) && out == Break(Collision) ==> SomeCollided(procs'))
    && (SomeCollided(procs) ==> SomeCollided(procs'))
  }

  /** The answer to an event in state `s`: the eager system's, unless frames or window addresses do not suffice. */
  ghost predicate Outcome(s: Vm, g: Shape, vm: seq<Vma>, e: Eager, ev: Event, out: Output)
    requires e.Running()
  {
    if Starves(s, g, vm, ev) then out == Halt(Exhausted) || out == Halt(MissingTable) == e.Answer(ev)
    else out == e.Answer(ev)
  }

  /** A load of the current process, with the fault it may take. */
  method ReadStep(s: Vm, ghost g: Shape, ghost e: Eager, procs: seq<Mm>, current: nat, va: nat)
    returns (out: Output, s': Vm, ghost g': Shape, ghost e': Eager)
    requires System(s, g, procs, current) && Agrees(e, g.maps.user, s.mem, procs, current) && Legal(Read(va))
    ensures System(s', g', procs, current) && Agrees(e', g'.maps.user, s'.mem, procs, current) && e.Running()
    ensures !out.Break? && Outcome(s, g, procs[current].vm, e, Read(va), out)
    ensures out.Halt? ==> s' == s && g' == g && e' == e
    ensures !out.Halt? ==> e' == e.Next(Read(va)) && Takes(s, g, s', g', e.procs[current], Read(va))
  {
    AgreesRunning(e, s, g, procs, current);
    s', g', e' := s, g, e;
    if va >= USER_END {
      var u := UpperAccess(s, g, procs, current, va, false);
      return Halt(if u.Denied? then Protected else OutsideVmas), s', g', e';
    }
    var r, s1, g1 := UserRead(s, g, procs, current, va);
    if r.NoFrames? {
      return Halt(Exhausted), s', g', e';
    }
    LoadAnswer(e, s, g, s1, g1, procs, current, va, r);
    NeedIs(e, s, g, procs, current, Read(va));
    OneFork(Read(va));
    out := Told(r);
    if !r.Segv? {
      s', g', e' := s1, g1, e.Next(Read(va));
    }
  }

  method WriteStep(s: Vm, ghost g: Shape, ghost e: Eager, procs: seq<Mm>, current: nat, va: nat, v: nat)
    returns (out: Output, s': Vm, ghost g': Shape, ghost e': Eager)
    requires System(s, g, procs, current) && Agrees(e, g.maps.user, s.mem, procs, current) && Legal(Write(va, v))
    ensures System(s', g', procs, current) && Agrees(e', g'.maps.user, s'.mem, procs, current) && e.Running()
    ensures !out.Break? && Outcome(s, g, procs[current].vm, e, Write(va, v), out)
    ensures out.Halt? ==> s' == s && g' == g && e' == e
    ensures !out.Halt? ==> e' == e.Next(Write(va, v)) && Takes(s, g, s', g', e.procs[current], Write(va, v))
  {
    AgreesRunning(e, s, g, procs, current);
    s', g', e' := s, g, e;
    if va >= USER_END {
      var u := UpperAccess(s, g, procs, current, va, true);
      return Halt(if u.Denied? then Protected else OutsideVmas), s', g', e';
    }
    var r, s1, g1 := UserWrite(s, g, procs, current, va, v);
    if r.NoFrames? {
      return Halt(Exhausted), s', g', e';
    }
    StoreAnswer(e, s, g, s1, g1, procs, current, va, v, r);
    NeedIs(e, s, g, procs, current, Write(va, v));
    OneFork(Write(va, v));
    out := Told(r);
    if !r.Segv? {
      s', g', e' := s1, g1, e.Next(Write(va, v));
    }
  }

  /** fork by the current process. */
  method ForkStep(s: Vm, ghost g: Shape, ghost e: Eager, procs: seq<Mm>, current: nat)
    returns (out: Output, s': Vm, procs': seq<Mm>, ghost g': Shape, ghost e': Eager)
    requires System(s, g, procs, current) && Agrees(e, g.maps.user, s.mem, procs, current)
    ensures System(s', g', procs', current) && Agrees(e', g'.maps.user, s'.mem, procs', current) && e.Running()
    ensures !out.Break? && Outcome(s, g, procs[current].vm, e, ForkCall, out)
    ensures out.Halt? ==> s' == s && procs' == procs && g' == g && e' == e
    ensures !out.Halt? ==> e' == e.Next(ForkCall) && Takes(s, g, s', g', e.procs[current], ForkCall)
    ensures !out.Halt? ==> |procs'| == |procs| + 1 && procs'[..|procs|] == procs
    ensures !out.Halt? ==> procs'[|procs|] == procs[current].(pml4 := procs'[|procs|].pml4)
  {
    AgreesRunning(e, s, g, procs, current);
    AgreesPresent(e, s, g, procs, current);
    s', procs', g', e' := s, procs, g, e;
    var r, child, s1, g1 := ForkProcess(s, g, procs, current);
    if r.NoTable? {
      return Halt(MissingTable), s', procs', g', e';
    }
    if r.NoMemory? {
      return Halt(Exhausted), s', procs', g', e';
    }
    SpaceSmall(s, g);
    OneFork(ForkCall);
    AgreesFork(e, s, g, s1, g1, procs, current, child);
    out := Child(|procs|);
    s', procs', g', e' := s1, procs + [child], g1, e.Next(ForkCall);
  }

  /** The state a run begins in. */
  datatype Start = Start(s: Vm, g: Shape, e: Eager, procs: seq<Mm>)

  /** The answers are the eager run's, which leads to the eager state `e`, and the frames have been paid for. */
  ghost predicate Ran(k0: Start, s: Vm, g: Shape, e: Eager, procs: seq<Mm>, evs: seq<Event>, outs: seq<Output>) {
    && |outs| <= |evs| && (e, outs) == EagerRun(k0.e, evs[..|outs|]) && HeapsTrack(k0.procs, procs, outs)
    && Paid(k0.s, k0.g, s, g, k0.e, evs[..|outs|])
  }

  lemma RanNext(k0: Start, s: Vm, g: Shape, e: Eager, procs: seq<Mm>, s': Vm, g': Shape, procs': seq<Mm>, evs: seq<Event>, outs: seq<Output>, out: Output)
    requires |outs| < |evs| && Ran(k0, s, g, e, procs, evs, outs) && e.Running() && out == e.Answer(evs[|outs|])
    requires Takes(s, g, s', g', e.procs[e.current], evs[|outs|]) && HeapStep(procs, procs', out)
    ensures Ran(k0, s', g', e.Next(evs[|outs|]), procs', evs, outs + [out])
  {
    EagerRunNext(k0.e, evs, |outs|);
    HeapsTrackNext(k0.procs, procs, procs', outs, out);
    PaidNext(k0.s, k0.g, s, g, s', g', k0.e, evs, |outs|);
  }

  /** When the kernel stops, the object keeps the state it stopped in. */
  class KernelState {
    var vm: Vm
    var procs: seq<Mm>
    var current: nat
    ghost var shape: Shape
    /** The eager system this one stands for. */
    ghost var eager: Eager

    ghost predicate Valid()
      reads this
    {
      && System(vm, shape, procs, current)
      && Agrees(eager, shape.maps.user, vm.mem, procs, current)
    }

    constructor (s: Vm, ps: seq<Mm>, cur: nat, ghost g: Shape)
      requires System(s, g, ps, cur)
      ensures Valid() && vm == s && procs == ps && current == cur && shape == g
    {
      ghost var e := SystemAgrees(s, g, ps, cur);
      vm, procs, current, shape, eager := s, ps, cur, g, e;
    }

    method Switch(pid: nat)
      requires Valid()
      modifies this
      ensures Valid() && old(eager).Running() && eager == old(eager).Next(SwitchTo(pid))
      ensures procs == old(procs) && shape == old(shape)
      ensures current == if pid < |procs| then pid else old(current)
      ensures vm == old(vm).(cr3 := vm.cr3)
    {
      AgreesRunning(eager, vm, shape, procs, current);
      if pid < |procs| {
        SystemSwitch(vm, shape, procs, current, pid);
        AgreesSwitch(eager, shape.maps.user, vm.mem, procs, current, pid);
        vm, current, eager := vm.(cr3 := procs[pid].pml4), pid, eager.Next(SwitchTo(pid));
      }
    }

    method LoadWord(va: nat) returns (out: Output)
      requires Valid() && Legal(Read(va))
      modifies this
      ensures Valid() && procs == old(procs) && current == old(current) < |procs| && old(eager).Running()
      ensures !out.Break? && Outcome(old(vm), old(shape), procs[current].vm, old(eager), Read(va), out)
      ensures out.Halt? ==> unchanged(this)
      ensures !out.Halt? ==> eager == old(eager).Next(Read(va)) && Takes(old(vm), old(shape), vm, shape, old(eager).procs[current], Read(va))
    {
      out, vm, shape, eager := ReadStep(vm, shape, eager, procs, current, va);
    }

    method StoreWordAt(va: nat, v: nat) returns (out: Output)
      requires Valid() && Legal(Write(va, v))
      modifies this
      ensures Valid() && procs == old(procs) && current == old(current) < |procs| && old(eager).Running()
      ensures !out.Break? && Outcome(old(vm), old(shape), procs[current].vm, old(eager), Write(va, v), out)
      ensures out.Halt? ==> unchanged(this)
      ensures !out.Halt? ==> eager == old(eager).Next(Write(va, v)) && Takes(old(vm), old(shape), vm, shape, old(eager).procs[current], Write(va, v))
    {
      out, vm, shape, eager := WriteStep(vm, shape, eager, procs, current, va, v);
    }

    method ForkCurrent() returns (out: Output)
      requires Valid()
      modifies this
      ensures Valid() && old(eager).Running() && current == old(current) < |old(procs)|
      ensures !out.Break? && Outcome(old(vm), old(shape), old(procs)[current].vm, old(eager), ForkCall, out)
      ensures out.Halt? ==> unchanged(this)
      ensures !out.Halt? ==> eager == old(eager).Next(ForkCall) && Takes(old(vm), old(shape), vm, shape, old(eager).procs[current], ForkCall)
      ensures !out.Halt? ==> |procs| == |old(procs)| + 1 && procs[..|old(procs)|] == old(procs)
      ensures !out.Halt? ==> procs[|old(procs)|] == procs[current].(pml4 := procs[|old(procs)|].pml4)
    {
      out, vm, procs, shape, eager := ForkStep(vm, shape, eager, procs, current);
    }

    method BrkCurrent(addr: nat) returns (r: BrkResult)
      requires Valid() && addr <= MINUS_ONE
      modifies this
      ensures Valid() && old(eager).Running() && Break(r) == old(eager).Answer(BrkCall(addr)) && eager == old(eager).Next(BrkCall(addr))
      ensures current == old(current) < |procs| && vm == old(vm) && shape == old(shape)
      ensures WellFormed(old(procs)[current]) && (procs[current], r) == BrkOf(old(procs)[current], addr)
      ensures procs == old(procs)[current := procs[current]]
    {
      assert ProcOk(shape.role, shape.maps.user, procs[current]);
      var mm, r1 := SysBrk(procs[current], addr);
      SystemBrk(vm, shape, procs, current, mm);
      AgreesBrk(eager, vm, shape, procs, current, addr);
      r := r1;
      procs, eager := procs[current := mm], eager.Next(BrkCall(addr));
    }

    method Step(ev: Event) returns (out: Output)
      requires Valid() && Legal(ev)
      modifies this
      ensures Valid() && old(eager).Running() && old(current) < |old(procs)|
      ensures Outcome(old(vm), old(shape), old(procs)[old(current)].vm, old(eager), ev, out)
      ensures out.Halt? ==> unchanged(this)
      ensures !out.Halt? ==> eager == old(eager).Next(ev) && Takes(old(vm), old(shape), vm, shape, old(eager).procs[old(current)], ev)
      ensures HeapStep(old(procs), procs, out)
    {
      AgreesRunning(eager, vm, shape, procs, current);
      OneFork(ev);
      match ev
      case SwitchTo(pid) =>
        Switch(pid);
        out := Done;
        StraySame(old(vm), shape, vm, shape);
        HeapSame(procs, out);
      case Read(va) =>
        out := LoadWord(va);
        HeapSame(procs, out);
      case Write(va, v) =>
        out := StoreWordAt(va, v);
        HeapSame(procs, out);
      case ForkCall =>
        out := ForkCurrent();
        if out.Halt? {
          HeapSame(procs, out);
        } else {
          HeapFork(old(procs), procs, current, out);
        }
      case BrkCall(addr) =>
        var r := BrkCurrent(addr);
        out := Break(r);
        HeapBrk(old(procs), procs, current, addr, out);
    }

    /** A run that began in the state `k0` has answered `outs` so far. */
    ghost predicate Progress(k0: Start, evs: seq<Event>, outs: seq<Output>)
      reads this
    {
      Ran(k0, vm, shape, eager, procs, evs, outs)
    }

    method RunNext(evs: seq<Event>, ghost k0: Start, outs: seq<Output>) returns (out: Output)
      requires Valid() && |outs| < |evs| && Legal(evs[|outs|]) && Progress(k0, evs, outs)
      modifies this
      ensures Valid() && (out.Halt? ==> unchanged(this))
      ensures !out.Halt? ==> Progress(k0, evs, outs + [out])
      ensures out.Halt? ==> eager.Running() && current < |procs| && Outcome(vm, shape, procs[current].vm, eager, evs[|outs|], out)
    {
      ghost var s, g, e, before, cur := vm, shape, eager, procs, current;
      AgreesRunning(e, s, g, before, cur);
      out := Step(evs[|outs|]);
      if !out.Halt? {
        RanNext(k0, s, g, e, before, vm, shape, procs, evs, outs, out);
      }
    }

    /**
     Whatever processes do, in whatever order, every answer is the one of the
     system where fork copies all memory at once, until that one stops too or
     the frames or window addresses left do not suffice for the next event. They
     suffice for all events when there are as many at the start as the eager run
     calls for. A process's break has left its heap exactly when some brk call
     has reported a collision.
     */
    method Run(evs: seq<Event>) returns (outs: seq<Output>, ghost why: Reason)
      requires Valid() && forall i :: 0 <= i < |evs| ==> Legal(evs[i])
      modifies this
      ensures Valid() && |outs| <= |evs| && (eager, outs) == EagerRun(old(eager), evs[..|outs|])
      ensures Paid(old(vm), old(shape), vm, shape, old(eager), evs[..|outs|])
      ensures |outs| < |evs| ==> eager.Running() && current < |procs| && Outcome(vm, shape, procs[current].vm, eager, evs[|outs|], Halt(why))
      ensures |outs| < |evs| && Suffices(old(vm), old(eager), evs) ==> eager.Answer(evs[|outs|]) == Halt(why)
      ensures HeapsFit(old(procs)) ==> (HeapsFit(procs) <==> Break(Collision) !in outs)
    {
      outs, why := [], Exhausted;
      ghost var k0 := Start(vm, shape, eager, procs);
      while |outs| < |evs|
        invariant Valid() && Progress(k0, evs, outs)
        decreases |evs| - |outs|
      {
        var out := RunNext(evs, k0, outs);
        if out.Halt? {
          why := out.why;
          HeapsTrackEnd(k0.procs, procs, outs);
          if Suffices(k0.s, k0.e, evs) {
            SufficesNext(k0.s, k0.g, vm, shape, k0.e, procs, current, evs, outs);
          }
          return;
        }
        outs := outs + [out];
      }
      HeapsTrackEnd(k0.procs, procs, outs);
    }
  }

  /** Frames the events of an eager run call for. */
  ghost function Budget(e: Eager, evs: seq<Event>): int {
    if evs == [] then 0
    else
      var n := |evs| - 1;
      var e1 := EagerRun(e, evs[..n]).0;
      Budget(e, evs[..n]) + if e1.Running() then e1.procs[e1.current].Need(evs[n]) else 0
  }

  function AllAddresses(evs: seq<Event>): nat {
    if evs == [] then 0 else AllAddresses(evs[..|evs| - 1]) + Addresses(evs[|evs| - 1])
  }

  /**
   The events have taken no more frames than they call for, and exactly their
   window addresses. No frame is lost: those allocated since are tables, or user
   pages map them, but for one kernel stack for each fork.
   */
  ghost predicate Paid(s0: Vm, g0: Shape, s: Vm, g: Shape, e: Eager, evs: seq<Event>) {
    && |s.alloc.free| >= |s0.alloc.free| - Budget(e, evs) && s.freeAddr == s0.freeAddr + AllAddresses(evs)
    && NoLeak(s0, g0, s, g, Forks(evs))
  }

  lemma OneFork(ev: Event)
    ensures Forks([ev]) == if ev.ForkCall? then 1 else 0
  {
    assert [ev][..0] == [] && Forks([]) == 0;
  }

  lemma PaidNext(s0: Vm, g0: Shape, s: Vm, g: Shape, s': Vm, g': Shape, e: Eager, evs: seq<Event>, n: nat)
    requires n < |evs| && Paid(s0, g0, s, g, e, evs[..n])
    requires var e1 := EagerRun(e, evs[..n]).0; e1.Running() && Takes(s, g, s', g', e1.procs[e1.current], evs[n])
    ensures Paid(s0, g0, s', g', e, evs[..n + 1])
  {
    assert evs[..n + 1][..n] == evs[..n];
    OneFork(evs[n]);
  }

  /** The frames and window addresses of `s` are all the events call for. */
  ghost predicate Suffices(s: Vm, e: Eager, evs: seq<Event>) {
    Budget(e, evs) <= |s.alloc.free| && s.freeAddr + AllAddresses(evs) <= U64
  }

  lemma NeedNat(p: Proc, ev: Event)
    ensures p.Need(ev) >= 0
  {
    if (ev.Read? || ev.Write?) && ev.va < USER_END {
      var i := FirstVma(p.mm.vm, ev.va);
      if i < |p.mm.vm| {
        FillTakes(p.present, p.mm.vm[i]);
        CostMono(p.present, p.present + VmaFill(p.mm.vm[i]));
      }
    }
  }

  lemma {:induction false} BudgetPrefix(e: Eager, evs: seq<Event>, n: nat)
    requires n <= |evs|
    ensures Budget(e, evs[..n]) <= Budget(e, evs) && AllAddresses(evs[..n]) <= AllAddresses(evs)
    decreases |evs| - n
  {
    if n < |evs| {
      assert evs[..n + 1][..n] == evs[..n];
      var e1 := EagerRun(e, evs[..n]).0;
      if e1.Running() {
        NeedNat(e1.procs[e1.current], evs[n]);
      }
      BudgetPrefix(e, evs, n + 1);
    } else {
      assert evs[..n] == evs;
    }
  }

  /** So the next event does not starve. */
  lemma SufficesNext(s0: Vm, g0: Shape, s: Vm, g: Shape, e0: Eager, procs: seq<Mm>, current: nat, evs: seq<Event>, outs: seq<Output>)
    requires |outs| < |evs| && Suffices(s0, e0, evs) && Paid(s0, g0, s, g, e0, evs[..|outs|])
    requires System(s, g, procs, current) && var e := EagerRun(e0, evs[..|outs|]).0;
             e.Running() && Agrees(e, g.maps.user, s.mem, procs, current)
    ensures !Starves(s, g, procs[current].vm, evs[|outs|])
  {
    var n := |outs|;
    var e := EagerRun(e0, evs[..n]).0;
    assert evs[..n + 1][..n] == evs[..n];
    BudgetPrefix(e0, evs, n + 1);
    NeedFeeds(e, s, g, procs, current, evs[n]);
  }

  lemma AgreesPresent(e: Eager, s: Vm, g: Shape, procs: seq<Mm>, current: nat)
    requires System(s, g, procs, current) && Agrees(e, g.maps.user, s.mem, procs, current)
    ensures e.procs[current].present == Pages(g.maps.user, s.cr3)
  {
    assert ProcAgrees(e.procs[current], g.maps.user, s.mem, procs[current]);
    PresentPages(e.procs[current].present, g.maps.user, s.cr3);
  }

  lemma EagerRunNext(e: Eager, evs: seq<Event>, n: nat)
    requires n < |evs| && EagerRun(e, evs[..n]).0.Running()
    ensures var (e1, outs) := EagerRun(e, evs[..n]); EagerRun(e, evs[..n + 1]) == (e1.Next(evs[n]), outs + [e1.Answer(evs[n])])
  {
    assert evs[..n + 1][..n] == evs[..n];
  }

  /** If all heaps held their breaks at first, they do now unless a collision was reported. */
  ghost predicate HeapsTrack(procs0: seq<Mm>, procs: seq<Mm>, outs: seq<Output>) {
    HeapsFit(procs0) ==> if Break(Collision) in outs then SomeCollided(procs) else HeapsFit(procs)
  }

  lemma HeapsTrackNext(procs0: seq<Mm>, procs: seq<Mm>, procs': seq<Mm>, outs: seq<Output>, out: Output)
    requires HeapsTrack(procs0, procs, outs) && HeapStep(procs, procs', out)
    ensures HeapsTrack(procs0, procs', outs + [out])
    ensures out != Break(Collision) ==> HeapsTrack(procs0, procs', outs)
  {
  }

  lemma HeapsTrackEnd(procs0: seq<Mm>, procs: seq<Mm>, outs: seq<Output>)
    requires HeapsTrack(procs0, procs, outs)
    ensures HeapsFit(procs0) ==> (HeapsFit(procs) <==> Break(Collision) !in outs)
  {
  }

  lemma HeapSame(procs: seq<Mm>, out: Output)
    requires out != Break(Collision)
    ensures HeapStep(procs, procs, out)
  {
  }

  lemma HeapFork(procs: seq<Mm>, procs': seq<Mm>, current: nat, out: Output)
    requires current < |procs| && |procs'| == |procs| + 1 && procs'[..|procs|] == procs && out != Break(Collision)
    requires procs'[|procs|] == procs[current].(pml4 := procs'[|procs|].pml4)
    ensures HeapStep(procs, procs', out)
  {
    assert forall i :: 0 <= i < |procs| ==> procs'[i] == procs[i];
  }

  lemma HeapBrk(procs: seq<Mm>, procs': seq<Mm>, current: nat, addr: nat, out: Output)
    requires current < |procs| && |procs'| == |procs| && WellFormed(procs[current]) && addr <= MINUS_ONE
    requires var (mm, r) := BrkOf(procs[current], addr); procs' == procs[current := mm] && out == Break(r)
    ensures HeapStep(procs, procs', out)
  {
    BrkFits(procs[current], addr);
    if SomeCollided(procs) {
      var i :| 0 <= i < |procs| && Collided(procs[i]);
      assert Collided(procs'[i]);
    }
    assert HeapFits(procs[current]) ==> HeapFits(procs'[current]) || Collided(procs'[current]);
  }

  // --------------------------------------------- when an access makes progress

  /** The page of `va` starts below the end of the vma's fill. */
  predicate Reaches(v: Vma, va: nat) {
    AlignDown(va) < FillEnd(v.start, ToInt(v.end - v.start))
  }

  lemma PresentAfter(p: Proc, va: nat, i: nat)
    requires va < USER_END && WellFormed(p.mm) && i == FirstVma(p.mm.vm, va) < |p.mm.vm|
    ensures PageOf(va) in p.Touch(va).present <==> PageOf(va) in p.present || Reaches(p.mm.vm[i], va)
    ensures FitsInt(p.mm.vm[i]) ==> PageOf(va) in p.Touch(va).present
  {
    VmaBounds(p.mm, i);
    FillIsSet(p.mm.vm[i], PageOf(va));
    ReachesPage(p.mm.vm[i], va);
  }

  /** A user access completes exactly when its page is present or starts below the end of the fill. */
  lemma AccessCompletes(p: Proc, va: nat, done: Output)
    requires va < USER_END && WellFormed(p.mm) && !done.Spins? && !done.Halt?
    ensures var i := FirstVma(p.mm.vm, va);
            p.Access(va, done) == done <==> PageOf(va) in p.present || (i < |p.mm.vm| && Reaches(p.mm.vm[i], va))
    ensures FirstVma(p.mm.vm, va) < |p.mm.vm| && FitsInt(p.mm.vm[FirstVma(p.mm.vm, va)]) ==> p.Access(va, done) == done
  {
    var i := FirstVma(p.mm.vm, va);
    if i < |p.mm.vm| {
      PresentAfter(p, va, i);
    }
  }

  /** An access to the stack completes, wherever it is. */
  lemma StackCompletes(p: Proc, va: nat, done: Output)
    requires WellFormed(p.mm) && STACK_BASE <= va < USER_STACK_TOP && !done.Spins? && !done.Halt?
    ensures p.Access(va, done) == done
  {
    var n := |p.mm.vm| - 1;
    FirstVmaIs(p.mm.vm, va, n);
    AccessCompletes(p, va, done);
  }

  /** So does one to a heap below 2 GiB, and to a segment. */
  lemma RangeCompletes(p: Proc, va: nat, i: nat, done: Output)
    requires WellFormed(p.mm) && i < |p.mm.vm| && p.mm.vm[i].start <= va < p.mm.vm[i].end && !done.Spins? && !done.Halt?
    requires forall v :: v in p.mm.vm ==> v.end - v.start < 0x8000_0000
    ensures p.Access(va, done) == done
  {
    VmaBounds(p.mm, i);
    NoVma(p.mm.vm, va);
    assert p.mm.vm[i] in p.mm.vm;
    AccessCompletes(p, va, done);
  }

  /** Outside all ranges it stops the kernel. */
  lemma OutsideStops(p: Proc, va: nat, done: Output)
    requires va < USER_END && (forall v :: v in p.mm.vm ==> !(v.start <= va < v.end)) && PageOf(va) !in p.present && !done.Halt?
    ensures p.Access(va, done) == Halt(OutsideVmas)
  {
    NoVma(p.mm.vm, va);
  }

  /** The fill of a range that is filled already needs one frame to try with, if it has a page at all. */
  lemma FillAgain(P: set<Page>, v: Vma)
    ensures VmaNeed(P + VmaFill(v), v) == if VmaFill(v) == {} then 0 else 1
  {
    var lo, n := AlignDown(v.start), PageCount(v.start, ToInt(v.end - v.start));
    assert P + FillSet(lo, n) + FillSet(lo, n) == P + FillSet(lo, n);
    if n > 0 {
      assert FillPage(lo, n - 1) in FillSet(lo, n);
    }
  }

  /** An access that does not complete changes nothing when it is tried again, and does not complete then; a retry takes at most one frame to try with. */
  lemma SpinsAgain(e: Eager, ev: Event)
    requires e.Running() && e.Answer(ev) == Spins
    ensures var e1 := e.Next(ev);
            && e1.Running() && e1.Answer(ev) == Spins && e1.Next(ev) == e1
            && 0 <= e1.procs[e1.current].Need(ev) <= 1
  {
    var me := e.procs[e.current];
    FillAgain(me.present, me.mm.vm[FirstVma(me.mm.vm, ev.va)]);
  }

  function Repeat<T>(x: T, n: nat): seq<T> {
    if n == 0 then [] else Repeat(x, n - 1) + [x]
  }

  lemma RunOneMore(e: Eager, evs: seq<Event>, ev: Event)
    requires EagerRun(e, evs).0.Running()
    ensures var (e1, outs) := EagerRun(e, evs); EagerRun(e, evs + [ev]) == (e1.Next(ev), outs + [e1.Answer(ev)])
  {
    assert (evs + [ev])[..|evs|] == evs;
  }

  /** However often it is tried. */
  lemma {:induction false} SpinsForEver(e: Eager, ev: Event, n: nat)
    requires e.Running() && e.Answer(ev) == Spins
    ensures EagerRun(e, Repeat(ev, n + 1)) == (e.Next(ev), Repeat(Spins, n + 1))
  {
    if n > 0 {
      SpinsForEver(e, ev, n - 1);
      SpinsAgain(e, ev);
    } else {
      assert EagerRun(e, Repeat(ev, 0)) == (e, Repeat(Spins, 0));
    }
    RunOneMore(e, Repeat(ev, n), ev);
  }

  /** An access to a heap of exactly 2 GiB never completes, wherever it is, unless its page was there before. */
  lemma TwoGigHeapSpins(p: Proc, va: nat, done: Output)
    requires va < USER_END && WellFormed(p.mm) && p.mm.startBrk <= va < HeapVma(p.mm).end && PageOf(va) !in p.present
    requires HeapVma(p.mm).end == p.mm.startBrk + 0x8000_0000
    ensures p.Access(va, done) == Spins
  {
    HeapIsFirst(p.mm, va);
    var v := HeapVma(p.mm);
    FillIsSet(v, PageOf(va));
    NothingFilled(p.mm.startBrk, PageOf(va));
  }

  /** An address of the heap is in no other vma. */
  lemma HeapIsFirst(mm: Mm, va: nat)
    requires WellFormed(mm) && mm.startBrk <= va < HeapVma(mm).end
    ensures FirstVma(mm.vm, va) == |mm.vm| - 2
  {
    FirstVmaIs(mm.vm, va, |mm.vm| - 2);
  }

  /** A process as load_elf leaves it: an empty heap, its break there, and no page outside its vmas. */
  ghost predicate FreshHeap(p: Proc) {
    && WellFormed(p.mm) && HeapVma(p.mm).end == p.mm.startBrk == p.mm.brk
    && (forall q: Page {:trigger q in p.present} :: q in p.present ==> InVmas(p.mm.vm, q))
  }

  /** Nothing of a fresh heap's future range is present. */
  lemma NothingAhead(p: Proc, q: Page)
    requires FreshHeap(p) && p.mm.startBrk <= UserAddr(q) < STACK_BASE
    ensures q !in p.present
  {
    assert !InVmas(p.mm.vm, q);
  }

  /** The process after brk has moved the end of its heap by whole pages. */
  lemma HeapGrows(mm: Mm, addr: nat)
    requires WellFormed(mm) && HeapVma(mm).end == mm.startBrk == mm.brk < addr < STACK_BASE && addr % PGSIZE == 0
    ensures var (mm', r) := BrkOf(mm, addr);
            r == Grown && WellFormed(mm') && HeapVma(mm') == Vma(mm.startBrk, addr, Heap) && mm'.startBrk == mm.startBrk
  {
    BrkWellFormed(mm, addr);
    assert AlignUp(addr) == addr;
  }

  lemma TwoEvents(e: Eager, a: Event, b: Event)
    requires e.Running() && e.Next(a).Running()
    ensures EagerRun(e, [a, b]).1 == [e.Answer(a), e.Next(a).Answer(b)]
  {
    assert [a, b][..1] == [a] && [a][..0] == [];
    assert EagerRun(e, []) == (e, []);
    assert EagerRun(e, [a]) == (e.Next(a), [] + [e.Answer(a)]);
  }

  /** After a brk by 2 GiB, a load from the new heap never completes. */
  lemma BrkThenSpin(e: Eager, va: nat)
    requires e.Running() && FreshHeap(e.procs[e.current])
    requires var b := e.procs[e.current].mm.startBrk; b <= va < b + 0x8000_0000 < STACK_BASE
    ensures var b := e.procs[e.current].mm.startBrk;
            EagerRun(e, [BrkCall(b + 0x8000_0000), Read(va)]).1 == [Break(Grown), Spins]
  {
    var me := e.procs[e.current];
    var addr := me.mm.startBrk + 0x8000_0000;
    HeapGrows(me.mm, addr);
    var e1 := e.Next(BrkCall(addr));
    var p := e1.procs[e1.current];
    UserPage(va);
    AlignDownMono(me.mm.startBrk, va);
    NothingAhead(me, PageOf(va));
    TwoGigHeapSpins(p, va, Loaded(PageAt(p.mem, PageOf(va))[WordOf(va)]));
    TwoEvents(e, BrkCall(addr), Read(va));
  }

  /** A whole page-table range of the heap that nothing has touched. */
  lemma UntouchedTable(p: Proc, a: nat)
    requires FreshHeap(p) && p.mm.startBrk <= a && a + 0x20_0000 <= STACK_BASE && a % 0x20_0000 == 0
    ensures !Near(p.present, PageOf(a), 1)
  {
    forall q: Page | q in p.present ensures !Together(q, PageOf(a), 1) {
      if Together(q, PageOf(a), 1) {
        UnderTable(q, a);
        NothingAhead(p, q);
      }
    }
  }

  /** Pages under the table that begins at `a` lie in its 2 MiB. */
  lemma UnderTable(q: Page, a: nat)
    requires a < USER_END && a % 0x20_0000 == 0 && Together(q, PageOf(a), 1)
    ensures a <= UserAddr(q) < a + 0x20_0000
  {
    UserPage(a);
    var p := PageOf(a);
    Remainder(p.i4 * 0x4_0000 + p.i3 * 0x200 + p.i2, p.i1 * 0x1000, a);
  }

  lemma Remainder(k: nat, r: nat, a: nat)
    requires r < 0x20_0000 && a % 0x20_0000 == 0 && 0x20_0000 * k + r <= a < 0x20_0000 * k + r + 0x1000 && r % 0x1000 == 0
    ensures r == 0 && a == 0x20_0000 * k
  {
    assert a / 0x20_0000 == k;
  }

  lemma PageAligned(a: nat)
    requires a % 0x20_0000 == 0
    ensures a % PGSIZE == 0
  {
    assert a == 0x1000 * (0x200 * (a / 0x20_0000));
  }

  /** The next address with a page table of its own. */
  function TableStart(b: nat): (a: nat)
    ensures b <= a < b + 0x20_0000 && a % 0x20_0000 == 0
  {
    (b + 0x1F_FFFF) - (b + 0x1F_FFFF) % 0x20_0000
  }

  /** A heap of 4 MiB holds a whole page-table range. */
  lemma HeapUncovered(p: Proc, mm: Mm)
    requires FreshHeap(p) && WellFormed(mm) && HeapVma(mm) == Vma(p.mm.startBrk, p.mm.startBrk + 0x40_0000, Heap)
    requires p.mm.startBrk + 0x40_0000 < STACK_BASE
    ensures !Covered(p.present, mm.vm)
  {
    var a, i := TableStart(p.mm.startBrk), |mm.vm| - 2;
    UntouchedTable(p, a);
    PageAligned(a);
    assert Touches(mm.vm[i], a);
    assert PageIn(mm.vm, i, a);
  }

  /** After a brk by 4 MiB whose new heap is not touched, fork misses a page table. */
  lemma BrkThenFork(e: Eager)
    requires e.Running() && FreshHeap(e.procs[e.current]) && e.procs[e.current].mm.startBrk + 0x40_0000 < STACK_BASE
    ensures var b := e.procs[e.current].mm.startBrk;
            EagerRun(e, [BrkCall(b + 0x40_0000), ForkCall]).1 == [Break(Grown), Halt(MissingTable)]
  {
    var me := e.procs[e.current];
    var addr := me.mm.startBrk + 0x40_0000;
    HeapGrows(me.mm, addr);
    HeapUncovered(me, BrkOf(me.mm, addr).0);
    TwoEvents(e, BrkCall(addr), ForkCall);
  }
}
