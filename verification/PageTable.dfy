/**
 Four-level page tables as a tree of frames in physical memory, and the
 hardware walk of section 4.5 of the Intel SDM, Volume 3A.
 */
module PageTable {
  import opened Options
  import opened Bits
  import opened Machine
  import opened Pointers

  /** Physical memory: frames of 512 words, by physical base address. */
  type Memory = map<nat, seq<nat>>

  const PAGE_P := 1
  const PAGE_RW := 2
  const PAGE_U := 4
  const PAGE_COW := 512
  const RW_USER := 7

  predicate IsPresent(w: nat) { w % 2 == 1 }
  predicate IsRw(w: nat) { (w / 2) % 2 == 1 }
  predicate IsUser(w: nat) { (w / 4) % 2 == 1 }
  predicate IsCow(w: nat) { (w / 512) % 2 == 1 }

  /** The frame a table word points to: the word without its flag bits. */
  function Base(w: nat): nat { w - w % PGSIZE }

  lemma BaseAdd(b: nat, x: nat)
    requires b % PGSIZE == 0 && x < PGSIZE
    ensures Base(b + x) == b && (b + x) % 2 == x % 2
  {
  }

  function Word(mem: Memory, f: nat, i: nat): nat {
    if f in mem && i < |mem[f]| then mem[f][i] else 0
  }

  function Store(mem: Memory, f: nat, i: Index, w: nat): (mem': Memory)
    requires f in mem && |mem[f]| == 512
    ensures mem'.Keys == mem.Keys && |mem'[f]| == 512
    ensures forall g, j :: Word(mem', g, j) == if g == f && j == i then w else Word(mem, g, j)
  {
    var frame: seq<nat> := mem[f][i := w];
    mem[f := frame]
  }

  /** The frame that word `i` of table `f` leads to. */
  function Next(mem: Memory, f: nat, i: Index): Option<nat> {
    var w := Word(mem, f, i);
    if IsPresent(w) then Some(Base(w)) else None
  }

  function WalkPdpt(mem: Memory, r: nat, a: Index): Option<nat> {
    Next(mem, r, a)
  }

  function WalkPd(mem: Memory, r: nat, a: Index, b: Index): Option<nat> {
    match WalkPdpt(mem, r, a) case None => None case Some(f) => Next(mem, f, b)
  }

  function WalkPt(mem: Memory, r: nat, a: Index, b: Index, c: Index): Option<nat> {
    match WalkPd(mem, r, a, b) case None => None case Some(f) => Next(mem, f, c)
  }

  function PtFor(mem: Memory, r: nat, p: Page): Option<nat> {
    WalkPt(mem, r, p.i4, p.i3, p.i2)
  }

  function Leaf(mem: Memory, f: nat, i: Index): Option<nat> {
    var w := Word(mem, f, i);
    if IsPresent(w) then Some(w) else None
  }

  /** The hardware walk of page `p` from root `r`: the leaf word it ends at. */
  function Walk(mem: Memory, r: nat, p: Page): Option<nat> {
    match PtFor(mem, r, p) case None => None case Some(f) => Leaf(mem, f, p.i1)
  }

  /** Where a supervisor access to `va` lands: a frame and a word in it. */
  function Resolve(mem: Memory, r: nat, va: nat): Option<(nat, Index)> {
    match Walk(mem, r, PageOf(va)) case None => None case Some(w) => Some((Base(w), WordOf(va)))
  }

  /** A root whose slot 510 is present and refers to itself. */
  ghost predicate SelfRef(mem: Memory, r: nat) {
    Next(mem, r, 510) == Some(r)
  }

  function At(t: Option<nat>, i: Index): Option<(nat, Index)> {
    match t case None => None case Some(f) => Some((f, i))
  }

  /** The pointer the kernel builds to the word that describes `va` in its level-`n` table. */
  function Pointer(va: nat, n: nat): nat {
    if n == 4 then GetPMLT(va) else if n == 3 then GetPDPT(va) else if n == 2 then GetPDT(va) else GetPhys(va)
  }

  /** The word the walk of page `p` from `r` reads in its level-`n` table, if it gets there. */
  function Location(mem: Memory, r: nat, p: Page, n: nat): Option<(nat, Index)> {
    if n == 4 then Some((r, p.i4))
    else if n == 3 then At(WalkPdpt(mem, r, p.i4), p.i3)
    else if n == 2 then At(WalkPd(mem, r, p.i4, p.i3), p.i2)
    else At(PtFor(mem, r, p), p.i1)
  }

  /**
   Through slot 510, each constructed pointer resolves to exactly the table
   word that the walk of the address itself reads at that level, and fails to
   resolve exactly when that walk does not get so far.
   */
  lemma SelfMap(mem: Memory, r: nat, va: nat, n: nat)
    requires va < U64 && SelfRef(mem, r) && 1 <= n <= 4
    ensures Resolve(mem, r, Pointer(va, n)) == Location(mem, r, PageOf(va), n)
  {
    GetPMLTDigits(va);
    GetPDPTDigits(va);
    GetPDTDigits(va);
    GetPhysDigits(va);
  }

  // ---------------------------------------------------------------- the tree

  /**
   What a table frame is: a PML4, or the table reached from root `o` by the
   given indices. The tables of the kernel half belong to the boot PML4.
   */
  datatype Role =
    | Root
    | PdptOf(o: nat, a: Index)
    | PdOf(o: nat, a: Index, b: Index)
    | PtOf(o: nat, a: Index, b: Index, c: Index)

  type Roles = map<nat, Role>

  /** Word `i` of a table with this role leads to a table of its own. */
  predicate Inner(t: Role, i: Index) {
    match t
    case Root => i < 510
    case PtOf(_, _, _, _) => false
    case _ => true
  }

  function Child(f: nat, t: Role, i: Index): Role
    requires !t.PtOf?
  {
    match t
    case Root => PdptOf(f, i)
    case PdptOf(o, a) => PdOf(o, a, i)
    case PdOf(o, a, b) => PtOf(o, a, b, i)
  }

  /** Index of the PML4 slot a table hangs under, when it is not a root. */
  function Slot(t: Role, i: Index): Index {
    match t
    case Root => i
    case PdptOf(_, a) => a
    case PdOf(_, a, _) => a
    case PtOf(_, a, _, _) => a
  }

  ghost predicate IsRoot(role: Roles, r: nat) {
    r in role && role[r].Root?
  }

  /** Walking a table's own indices from its root arrives at the table. */
  ghost predicate Linked(mem: Memory, role: Roles, t: Role, f: nat) {
    match t
    case Root => true
    case PdptOf(o, a) => a != 510 && IsRoot(role, o) && WalkPdpt(mem, o, a) == Some(f)
    case PdOf(o, a, b) => a != 510 && IsRoot(role, o) && WalkPd(mem, o, a, b) == Some(f)
    case PtOf(o, a, b, c) => a != 510 && IsRoot(role, o) && WalkPt(mem, o, a, b, c) == Some(f)
  }

  /** A present word below a table leads to the table with the child's role and is writable; user ones carry P, U and RW. */
  ghost predicate ChildOk(role: Roles, f: nat, t: Role, i: Index, w: nat)
    requires !t.PtOf?
  {
    && Base(w) in role
    && role[Base(w)] == Child(f, t, i)
    && IsRw(w)
    && (Slot(t, i) < 510 ==> w == Base(w) + RW_USER)
  }

  ghost predicate FrameOk(mem: Memory, f: nat) {
    f in mem && |mem[f]| == 512 && f % PGSIZE == 0
  }

  /** Slot 510 refers to the root itself and slot 511 to the one kernel half. */
  ghost predicate RootOk(mem: Memory, k: nat, r: nat) {
    Word(mem, r, 510) == r + PAGE_P + PAGE_RW && Word(mem, r, 511) == Word(mem, k, 511)
  }

  ghost predicate InnerOk(mem: Memory, role: Roles, f: nat, i: Index)
    requires f in role
  {
    Inner(role[f], i) && IsPresent(Word(mem, f, i)) ==> ChildOk(role, f, role[f], i, Word(mem, f, i))
  }

  // The triggers below name the property itself: an instance is used where a proof asks for it.
  ghost predicate Tree(mem: Memory, role: Roles, k: nat) {
    && IsRoot(role, k)
    && (forall f: nat {:trigger FrameOk(mem, f)} :: f in role ==> FrameOk(mem, f))
    && (forall f: nat {:trigger Linked(mem, role, role[f], f)} :: f in role ==> Linked(mem, role, role[f], f))
    && (forall r: nat {:trigger RootOk(mem, k, r)} :: IsRoot(role, r) ==> RootOk(mem, k, r))
    && IsPresent(Word(mem, k, 511)) && ChildOk(role, k, Root, 511, Word(mem, k, 511))
    && Word(mem, k, 511) == Base(Word(mem, k, 511)) + PAGE_P + PAGE_RW
    && (forall f: nat, i: Index {:trigger InnerOk(mem, role, f, i)} :: f in role ==> InnerOk(mem, role, f, i))
  }

  /** The present leaf words: per address space below slot 510, and one shared kernel half. */
  datatype Maps = Maps(user: map<(nat, Page), nat>, kern: map<Page, nat>)

  function Lookup(m: Maps, o: nat, p: Page): Option<nat> {
    if p.i4 == 511 then (if p in m.kern then Some(m.kern[p]) else None)
    else if (o, p) in m.user then Some(m.user[(o, p)]) else None
  }

  /** The root that owns the pages under slot `a` of address space `r`. */
  function Own(k: nat, r: nat, a: Index): nat {
    if a == 511 then k else r
  }

  ghost predicate LeafOk(mem: Memory, m: Maps, t: Role, f: nat, i: Index)
    requires t.PtOf?
  {
    Lookup(m, t.o, Page(t.a, t.b, t.c, i)) == Leaf(mem, f, i)
  }

  ghost predicate Backed(mem: Memory, role: Roles, k: nat, o: nat, p: Page) {
    if p.i4 == 511 then PtFor(mem, k, p).Some? else p.i4 < 510 && IsRoot(role, o) && PtFor(mem, o, p).Some?
  }

  /** `m` lists exactly the present leaf words of the tree. */
  ghost predicate Leaves(mem: Memory, role: Roles, k: nat, m: Maps) {
    && (forall f: nat, i: Index {:trigger LeafOk(mem, m, role[f], f, i)} ::
          f in role && role[f].PtOf? ==> LeafOk(mem, m, role[f], f, i))
    && (forall o: nat, p {:trigger Backed(mem, role, k, o, p)} :: Lookup(m, o, p).Some? ==> Backed(mem, role, k, o, p))
    && (forall p :: p in m.kern ==> p.i4 == 511)
    && (forall o: nat, p :: (o, p) in m.user ==> p.i4 < 510)
  }

  /** The tables a walk passes through have the roles its indices name. */
  lemma ChainRoles(mem: Memory, role: Roles, k: nat, r: nat, a: Index, b: Index, c: Index)
    requires Tree(mem, role, k) && IsRoot(role, r) && a != 510
    ensures var o := Own(k, r, a);
            && (WalkPdpt(mem, r, a).Some? ==> var f := WalkPdpt(mem, r, a).value; f in role && role[f] == PdptOf(o, a))
            && (WalkPd(mem, r, a, b).Some? ==> var f := WalkPd(mem, r, a, b).value; f in role && role[f] == PdOf(o, a, b))
            && (WalkPt(mem, r, a, b, c).Some? ==> var f := WalkPt(mem, r, a, b, c).value; f in role && role[f] == PtOf(o, a, b, c))
    ensures WalkPdpt(mem, r, a) == WalkPdpt(mem, Own(k, r, a), a)
  {
    assert RootOk(mem, k, r);
    assert InnerOk(mem, role, r, a);
    if WalkPdpt(mem, r, a).Some? {
      var f := WalkPdpt(mem, r, a).value;
      assert InnerOk(mem, role, f, b);
      if WalkPd(mem, r, a, b).Some? {
        var g := WalkPd(mem, r, a, b).value;
        assert InnerOk(mem, role, g, c);
      }
    }
  }

  /** The table that the level-`n` word of page `p` leads to. */
  function PathAt(o: nat, p: Page, n: nat): Role {
    if n == 4 then PdptOf(o, p.i4) else if n == 3 then PdOf(o, p.i4, p.i3) else PtOf(o, p.i4, p.i3, p.i2)
  }

  /** The tables between root `o` and page `p`. */
  function Path(o: nat, p: Page): set<Role> {
    {PathAt(o, p, 4), PathAt(o, p, 3), PathAt(o, p, 2)}
  }

  function Lacks(tables: set<Role>, t: Role): nat {
    if t in tables then 0 else 1
  }

  /** How many of them are not there. */
  function Missing(tables: set<Role>, o: nat, p: Page): nat {
    Lacks(tables, PathAt(o, p, 4)) + Lacks(tables, PathAt(o, p, 3)) + Lacks(tables, PathAt(o, p, 2))
  }

  /** Adding the tables of a path one after the other. */
  lemma PathSteps(tables: set<Role>, o: nat, p: Page)
    ensures Lacks(tables + {PathAt(o, p, 4)}, PathAt(o, p, 3)) == Lacks(tables, PathAt(o, p, 3))
    ensures Lacks(tables + {PathAt(o, p, 4)} + {PathAt(o, p, 3)}, PathAt(o, p, 2)) == Lacks(tables, PathAt(o, p, 2))
    ensures tables + {PathAt(o, p, 4)} + {PathAt(o, p, 3)} + {PathAt(o, p, 2)} == tables + Path(o, p)
  {
  }

  lemma ValuesWith(role: Roles, n: nat, t: Role)
    requires n !in role
    ensures role[n := t].Values == role.Values + {t}
  {
    var role' := role[n := t];
    assert role'[n] == t;
    forall v | v in role.Values ensures v in role'.Values {
      var f :| f in role && role[f] == v;
      assert role'[f] == v;
    }
  }

  /** A walk gets as far as there are tables with the roles it passes through. */
  lemma WalkTables(mem: Memory, role: Roles, k: nat, r: nat, p: Page)
    requires Tree(mem, role, k) && IsRoot(role, r) && p.i4 != 510
    ensures var o := Own(k, r, p.i4);
            && (WalkPdpt(mem, r, p.i4).Some? <==> PathAt(o, p, 4) in role.Values)
            && (WalkPd(mem, r, p.i4, p.i3).Some? <==> PathAt(o, p, 3) in role.Values)
            && (PtFor(mem, r, p).Some? <==> PathAt(o, p, 2) in role.Values)
  {
    var o := Own(k, r, p.i4);
    ChainRoles(mem, role, k, r, p.i4, p.i3, p.i2);
    if PathAt(o, p, 4) in role.Values {
      var f :| f in role && role[f] == PathAt(o, p, 4);
      assert Linked(mem, role, role[f], f);
    }
    if PathAt(o, p, 3) in role.Values {
      var f :| f in role && role[f] == PathAt(o, p, 3);
      assert Linked(mem, role, role[f], f);
    }
    if PathAt(o, p, 2) in role.Values {
      var f :| f in role && role[f] == PathAt(o, p, 2);
      assert Linked(mem, role, role[f], f);
    }
  }

  /** The hardware walk and the leaf maps agree in every address space. */
  lemma WalkIsLookup(mem: Memory, role: Roles, k: nat, m: Maps, r: nat, p: Page)
    requires Tree(mem, role, k) && Leaves(mem, role, k, m) && IsRoot(role, r) && p.i4 != 510
    ensures Walk(mem, r, p) == Lookup(m, Own(k, r, p.i4), p)
  {
    ChainRoles(mem, role, k, r, p.i4, p.i3, p.i2);
    assert Lookup(m, Own(k, r, p.i4), p).Some? ==> Backed(mem, role, k, Own(k, r, p.i4), p);
    if PtFor(mem, r, p).Some? {
      var f := PtFor(mem, r, p).value;
      assert LeafOk(mem, m, role[f], f, p.i1);
    }
  }

  /**
   Kernel-half coherence: every page under slot 511 has one translation in all
   address spaces, and slot 510 of each refers to its own root.
   */
  lemma KernelHalfShared(mem: Memory, role: Roles, k: nat, m: Maps, r: nat, s: nat, p: Page)
    requires Tree(mem, role, k) && Leaves(mem, role, k, m) && IsRoot(role, r) && IsRoot(role, s)
    ensures p.i4 == 511 ==> Walk(mem, r, p) == Walk(mem, s, p)
    ensures SelfRef(mem, r)
  {
    assert RootOk(mem, k, r) && FrameOk(mem, r);
    BaseAdd(r, 3);
    if p.i4 == 511 {
      WalkIsLookup(mem, role, k, m, r, p);
      WalkIsLookup(mem, role, k, m, s, p);
    }
  }

  /** A table word lets user code through: present, user, and writable if it is a write. */
  predicate Grants(w: nat, write: bool) {
    IsPresent(w) && IsUser(w) && (write ==> IsRw(w))
  }

  /** The hardware's check of a user access: every word on the walk must grant it. */
  predicate UserAccess(mem: Memory, r: nat, p: Page, write: bool) {
    var w4 := Word(mem, r, p.i4);
    var w3 := Word(mem, Base(w4), p.i3);
    var w2 := Word(mem, Base(w3), p.i2);
    var w1 := Word(mem, Base(w2), p.i1);
    Grants(w4, write) && Grants(w3, write) && Grants(w2, write) && Grants(w1, write)
  }

  /** Bits of a frame address with flags below 4096: those of the flags. */
  lemma FlagsShow(b: nat, x: nat)
    requires b % PGSIZE == 0 && x < PGSIZE
    ensures IsPresent(b + x) == IsPresent(x) && IsRw(b + x) == IsRw(x) && IsUser(b + x) == IsUser(x) && IsCow(b + x) == IsCow(x)
  {
    var n := b / PGSIZE;
    ShiftFlags(n * 2048, x, 2);
    ShiftFlags(n * 1024, x, 4);
    ShiftFlags(n * 8, x, 512);
  }

  lemma ShiftFlags(q: nat, x: nat, d: nat)
    requires q % 2 == 0 && (d == 2 || d == 4 || d == 512)
    ensures ((q * d + x) / d) % 2 == (x / d) % 2
  {
    assert (q * d + x) / d == q + x / d;
  }

  lemma TableWordGrants(b: nat)
    requires b % PGSIZE == 0
    ensures Grants(b + RW_USER, true) && !IsUser(b + PAGE_P + PAGE_RW)
  {
    FlagsShow(b, RW_USER);
    FlagsShow(b, PAGE_P + PAGE_RW);
  }

  /** Below slot 510 the leaf word alone decides what user code may do. */
  lemma LeafDecides(mem: Memory, role: Roles, k: nat, m: Maps, r: nat, p: Page, write: bool)
    requires Tree(mem, role, k) && Leaves(mem, role, k, m) && IsRoot(role, r) && p.i4 < 510
    ensures UserAccess(mem, r, p, write) <==> Lookup(m, r, p).Some? && Grants(Lookup(m, r, p).value, write)
  {
    ChainRoles(mem, role, k, r, p.i4, p.i3, p.i2);
    WalkIsLookup(mem, role, k, m, r, p);
    assert InnerOk(mem, role, r, p.i4);
    if WalkPdpt(mem, r, p.i4).Some? {
      var f := WalkPdpt(mem, r, p.i4).value;
      assert FrameOk(mem, f);
      TableWordGrants(f);
      assert InnerOk(mem, role, f, p.i3);
      if WalkPd(mem, r, p.i4, p.i3).Some? {
        var h := WalkPd(mem, r, p.i4, p.i3).value;
        assert FrameOk(mem, h);
        TableWordGrants(h);
        assert InnerOk(mem, role, h, p.i2);
        if PtFor(mem, r, p).Some? {
          assert FrameOk(mem, PtFor(mem, r, p).value);
          TableWordGrants(PtFor(mem, r, p).value);
        }
      }
    }
  }

  /** User code reaches nothing under slots 510 and 511: neither the tables nor the kernel. */
  lemma KernelClosed(mem: Memory, role: Roles, k: nat, r: nat, p: Page, write: bool)
    requires Tree(mem, role, k) && IsRoot(role, r) && p.i4 >= 510
    ensures !UserAccess(mem, r, p, write)
  {
    assert RootOk(mem, k, r) && FrameOk(mem, r) && FrameOk(mem, Base(Word(mem, k, 511)));
    TableWordGrants(r);
    TableWordGrants(Base(Word(mem, k, 511)));
  }

  /** Steps from a root down to a table with this role. */
  function Depth(t: Role): nat {
    match t case Root => 0 case PdptOf(_, _) => 1 case PdOf(_, _, _) => 2 case PtOf(_, _, _, _) => 3
  }

  /** A present word above the page tables is writable and leads at most one level down, slot 510 of a root included. */
  lemma TableWord(mem: Memory, role: Roles, k: nat, f: nat, i: Index)
    requires Tree(mem, role, k) && f in role && !role[f].PtOf? && IsPresent(Word(mem, f, i))
    ensures IsRw(Word(mem, f, i)) && Base(Word(mem, f, i)) in role && Depth(role[Base(Word(mem, f, i))]) <= Depth(role[f]) + 1
    ensures role[f].Root? && i == 510 ==> Base(Word(mem, f, i)) == f
  {
    assert InnerOk(mem, role, f, i) && FrameOk(mem, f);
    if role[f].Root? {
      assert RootOk(mem, k, f);
      FlagsShow(f, PAGE_P + PAGE_RW);
      BaseAdd(f, PAGE_P + PAGE_RW);
    }
  }

  /** An address in slot 510 that is mapped shows a table, by a word that is writable. */
  lemma TableEntry(mem: Memory, role: Roles, k: nat, r: nat, p: Page)
    requires Tree(mem, role, k) && IsRoot(role, r) && p.i4 == 510 && Walk(mem, r, p).Some?
    ensures IsRw(Walk(mem, r, p).value)
  {
    TableWord(mem, role, k, r, 510);
    TableWord(mem, role, k, r, p.i3);
    TableWord(mem, role, k, Base(Word(mem, r, p.i3)), p.i2);
    TableWord(mem, role, k, PtFor(mem, r, p).value, p.i1);
  }

  // ------------------------------------------------- steps that edit the tree

  /** mem' has the same table frames as mem. */
  ghost predicate SameFrames(mem: Memory, mem': Memory, role: Roles) {
    forall f: nat :: f in role ==> f in mem && f in mem' && mem'[f] == mem[f]
  }

  lemma SameWalk(mem: Memory, mem': Memory, role: Roles, k: nat, r: nat, a: Index, b: Index, c: Index)
    requires Tree(mem, role, k) && SameFrames(mem, mem', role) && IsRoot(role, r) && a != 510
    ensures WalkPdpt(mem', r, a) == WalkPdpt(mem, r, a)
    ensures WalkPd(mem', r, a, b) == WalkPd(mem, r, a, b)
    ensures WalkPt(mem', r, a, b, c) == WalkPt(mem, r, a, b, c)
  {
    ChainRoles(mem, role, k, r, a, b, c);
  }

  lemma SameLink(mem: Memory, mem': Memory, role: Roles, k: nat, f: nat)
    requires Tree(mem, role, k) && SameFrames(mem, mem', role) && f in role
    ensures Linked(mem', role, role[f], f)
  {
    assert Linked(mem, role, role[f], f);
    match role[f]
    case Root =>
    case PdptOf(o, a) => SameWalk(mem, mem', role, k, o, a, 0, 0);
    case PdOf(o, a, b) => SameWalk(mem, mem', role, k, o, a, b, 0);
    case PtOf(o, a, b, c) => SameWalk(mem, mem', role, k, o, a, b, c);
  }

  /** Writes outside the table frames change no walk. */
  lemma SameTree(mem: Memory, mem': Memory, role: Roles, k: nat)
    requires Tree(mem, role, k) && SameFrames(mem, mem', role)
    ensures Tree(mem', role, k)
  {
    forall f: nat | f in role
      ensures FrameOk(mem', f) && Linked(mem', role, role[f], f)
    {
      assert FrameOk(mem, f);
      SameLink(mem, mem', role, k, f);
    }
    forall r: nat | IsRoot(role, r)
      ensures RootOk(mem', k, r)
    {
      assert RootOk(mem, k, r);
    }
    forall f: nat, i: Index | f in role
      ensures InnerOk(mem', role, f, i)
    {
      assert InnerOk(mem, role, f, i);
    }
  }

  lemma SameLeaves(mem: Memory, mem': Memory, role: Roles, k: nat, m: Maps)
    requires Tree(mem, role, k) && Leaves(mem, role, k, m) && SameFrames(mem, mem', role)
    ensures Leaves(mem', role, k, m)
  {
    forall o: nat, p: Page | Lookup(m, o, p).Some?
      ensures Backed(mem', role, k, o, p)
    {
      assert Backed(mem, role, k, o, p);
      SameWalk(mem, mem', role, k, Own(k, o, p.i4), p.i4, p.i3, p.i2);
    }
    forall f: nat, i: Index | f in role && role[f].PtOf?
      ensures LeafOk(mem', m, role[f], f, i)
    {
      assert LeafOk(mem, m, role[f], f, i);
    }
  }

  /** An absent inner word can be pointed at a fresh zeroed frame. */
  ghost predicate CanAdd(mem: Memory, role: Roles, f: nat, i: Index, n: nat) {
    && f in role && FrameOk(mem, f) && Inner(role[f], i) && !IsPresent(Word(mem, f, i))
    && n !in role && FrameOk(mem, n)
    && (forall j :: Word(mem, n, j) == 0)
  }

  /** Walks that succeeded before a table was added are not changed by it. */
  lemma AddedWalk(mem: Memory, role: Roles, k: nat, f: nat, i: Index, n: nat, w: nat, r: nat, a: Index, b: Index, c: Index)
    requires Tree(mem, role, k) && CanAdd(mem, role, f, i, n) && IsRoot(role, r) && a != 510
    ensures var mem' := Store(mem, f, i, w);
            && (WalkPdpt(mem, r, a).Some? ==> WalkPdpt(mem', r, a) == WalkPdpt(mem, r, a))
            && (WalkPd(mem, r, a, b).Some? ==> WalkPd(mem', r, a, b) == WalkPd(mem, r, a, b))
            && (WalkPt(mem, r, a, b, c).Some? ==> WalkPt(mem', r, a, b, c) == WalkPt(mem, r, a, b, c))
  {
  }

  lemma AddedLink(mem: Memory, role: Roles, k: nat, f: nat, i: Index, n: nat, w: nat, g: nat)
    requires Tree(mem, role, k) && CanAdd(mem, role, f, i, n) && g in role
    ensures Linked(Store(mem, f, i, w), role[n := Child(f, role[f], i)], role[g], g)
  {
    assert Linked(mem, role, role[g], g);
    match role[g]
    case Root =>
    case PdptOf(o, a) => AddedWalk(mem, role, k, f, i, n, w, o, a, 0, 0);
    case PdOf(o, a, b) => AddedWalk(mem, role, k, f, i, n, w, o, a, b, 0);
    case PtOf(o, a, b, c) => AddedWalk(mem, role, k, f, i, n, w, o, a, b, c);
  }

  lemma AddTableTree(mem: Memory, role: Roles, k: nat, f: nat, i: Index, n: nat, w: nat)
    requires Tree(mem, role, k) && CanAdd(mem, role, f, i, n)
    requires IsPresent(w) && IsRw(w) && Base(w) == n && (Slot(role[f], i) < 510 ==> w == n + RW_USER)
    ensures Tree(Store(mem, f, i, w), role[n := Child(f, role[f], i)], k)
  {
    var mem', role' := Store(mem, f, i, w), role[n := Child(f, role[f], i)];
    forall g: nat | g in role'
      ensures FrameOk(mem', g) && Linked(mem', role', role'[g], g)
    {
      assert g in role ==> FrameOk(mem, g);
      AddedLink(mem, role, k, f, i, n, w, if g == n then f else g);
      assert Linked(mem, role, role[f], f);
    }
    forall r: nat | IsRoot(role', r)
      ensures RootOk(mem', k, r)
    {
      assert RootOk(mem, k, r);
    }
    forall g: nat, j: Index | g in role'
      ensures InnerOk(mem', role', g, j)
    {
      assert g in role ==> InnerOk(mem, role, g, j);
    }
  }

  /** A page table about to be added has no leaf listed under it. */
  lemma NothingBelow(mem: Memory, role: Roles, k: nat, m: Maps, f: nat, i: Index, j: Index)
    requires Tree(mem, role, k) && Leaves(mem, role, k, m)
    requires f in role && role[f].PdOf? && !IsPresent(Word(mem, f, i))
    ensures Lookup(m, role[f].o, Page(role[f].a, role[f].b, i, j)) == None
  {
    var t, p := role[f], Page(role[f].a, role[f].b, i, j);
    assert Linked(mem, role, t, f);
    ChainRoles(mem, role, k, t.o, t.a, t.b, i);
    assert Lookup(m, t.o, p).Some? ==> Backed(mem, role, k, t.o, p);
  }

  lemma AddTableLeaves(mem: Memory, role: Roles, k: nat, m: Maps, f: nat, i: Index, n: nat, w: nat)
    requires Tree(mem, role, k) && Leaves(mem, role, k, m) && CanAdd(mem, role, f, i, n)
    ensures Leaves(Store(mem, f, i, w), role[n := Child(f, role[f], i)], k, m)
  {
    var mem', role' := Store(mem, f, i, w), role[n := Child(f, role[f], i)];
    forall o: nat, p: Page | Lookup(m, o, p).Some?
      ensures Backed(mem', role', k, o, p)
    {
      assert Backed(mem, role, k, o, p);
      AddedWalk(mem, role, k, f, i, n, w, Own(k, o, p.i4), p.i4, p.i3, p.i2);
    }
    forall g: nat, j: Index | g in role' && role'[g].PtOf?
      ensures LeafOk(mem', m, role'[g], g, j)
    {
      if g == n {
        NothingBelow(mem, role, k, m, f, i, j);
      } else {
        assert LeafOk(mem, m, role[g], g, j);
      }
    }
  }

  /** The root under which a table hangs. */
  function Above(f: nat, t: Role): nat {
    if t.Root? then f else t.o
  }

  /** Adding a table under one root, or in the kernel half, leaves the tables of other user pages alone. */
  lemma AddedElsewhere(mem: Memory, role: Roles, k: nat, f: nat, i: Index, n: nat, w: nat, r: nat, p: Page)
    requires Tree(mem, role, k) && CanAdd(mem, role, f, i, n) && IsRoot(role, r) && p.i4 < 510
    requires r != Above(f, role[f]) || Slot(role[f], i) == 511
    ensures WalkPdpt(Store(mem, f, i, w), r, p.i4) == WalkPdpt(mem, r, p.i4)
    ensures WalkPd(Store(mem, f, i, w), r, p.i4, p.i3) == WalkPd(mem, r, p.i4, p.i3)
    ensures PtFor(Store(mem, f, i, w), r, p) == PtFor(mem, r, p)
  {
    ChainRoles(mem, role, k, r, p.i4, p.i3, p.i2);
  }

  /** Only leaf words change: every table stays where it is. */
  lemma LeafWalk(mem: Memory, role: Roles, k: nat, f: nat, i: Index, w: nat, r: nat, a: Index, b: Index, c: Index)
    requires Tree(mem, role, k) && f in role && FrameOk(mem, f) && role[f].PtOf? && IsRoot(role, r) && a != 510
    ensures var mem' := Store(mem, f, i, w);
            && WalkPdpt(mem', r, a) == WalkPdpt(mem, r, a)
            && WalkPd(mem', r, a, b) == WalkPd(mem, r, a, b)
            && WalkPt(mem', r, a, b, c) == WalkPt(mem, r, a, b, c)
  {
    ChainRoles(mem, role, k, r, a, b, c);
  }

  lemma LeafLink(mem: Memory, role: Roles, k: nat, f: nat, i: Index, w: nat, g: nat)
    requires Tree(mem, role, k) && f in role && FrameOk(mem, f) && role[f].PtOf? && g in role
    ensures Linked(Store(mem, f, i, w), role, role[g], g)
  {
    assert Linked(mem, role, role[g], g);
    match role[g]
    case Root =>
    case PdptOf(o, a) => LeafWalk(mem, role, k, f, i, w, o, a, 0, 0);
    case PdOf(o, a, b) => LeafWalk(mem, role, k, f, i, w, o, a, b, 0);
    case PtOf(o, a, b, c) => LeafWalk(mem, role, k, f, i, w, o, a, b, c);
  }

  lemma SetLeafTree(mem: Memory, role: Roles, k: nat, f: nat, i: Index, w: nat)
    requires Tree(mem, role, k) && f in role && FrameOk(mem, f) && role[f].PtOf?
    ensures Tree(Store(mem, f, i, w), role, k)
  {
    var mem' := Store(mem, f, i, w);
    forall g: nat | g in role
      ensures FrameOk(mem', g) && Linked(mem', role, role[g], g)
    {
      assert FrameOk(mem, g);
      LeafLink(mem, role, k, f, i, w, g);
    }
    forall r: nat | IsRoot(role, r)
      ensures RootOk(mem', k, r)
    {
      assert RootOk(mem, k, r);
    }
    forall g: nat, j: Index | g in role
      ensures InnerOk(mem', role, g, j)
    {
      assert InnerOk(mem, role, g, j);
    }
  }

  /** The leaf maps after word `w` was written as the leaf of page `p`. */
  function SetLeaf(m: Maps, o: nat, p: Page, w: nat): (m': Maps)
    ensures forall o': nat, p' {:trigger Lookup(m', o', p')} ::
              Lookup(m', o', p') == if p' == p && (p.i4 == 511 || o' == o) then (if IsPresent(w) then Some(w) else None) else Lookup(m, o', p')
  {
    if p.i4 == 511 then m.(kern := if IsPresent(w) then m.kern[p := w] else m.kern - {p})
    else m.(user := if IsPresent(w) then m.user[(o, p) := w] else m.user - {(o, p)})
  }

  /** No two page tables have the same role. */
  lemma OnePt(mem: Memory, role: Roles, k: nat, f: nat, g: nat)
    requires Tree(mem, role, k) && f in role && g in role && role[f].PtOf? && role[g].PtOf?
    requires role[f].a == role[g].a && role[f].b == role[g].b && role[f].c == role[g].c
    requires role[f].a == 511 || role[f].o == role[g].o
    ensures f == g
  {
    var t, u := role[f], role[g];
    assert Linked(mem, role, t, f) && Linked(mem, role, u, g);
    ChainRoles(mem, role, k, t.o, t.a, t.b, t.c);
    ChainRoles(mem, role, k, u.o, u.a, u.b, u.c);
  }

  lemma SetLeafLeaves(mem: Memory, role: Roles, k: nat, m: Maps, f: nat, i: Index, w: nat)
    requires Tree(mem, role, k) && Leaves(mem, role, k, m) && f in role && FrameOk(mem, f) && role[f].PtOf?
    ensures var t := role[f];
            Leaves(Store(mem, f, i, w), role, k, SetLeaf(m, t.o, Page(t.a, t.b, t.c, i), w))
  {
    var t := role[f];
    var mem', m' := Store(mem, f, i, w), SetLeaf(m, t.o, Page(t.a, t.b, t.c, i), w);
    assert Linked(mem, role, t, f);
    ChainRoles(mem, role, k, t.o, t.a, t.b, t.c);
    forall o: nat, p: Page | Lookup(m', o, p).Some?
      ensures Backed(mem', role, k, o, p)
    {
      assert Lookup(m, o, p).Some? ==> Backed(mem, role, k, o, p);
      LeafWalk(mem, role, k, f, i, w, Own(k, o, p.i4), p.i4, p.i3, p.i2);
    }
    forall g: nat, j: Index | g in role && role[g].PtOf?
      ensures LeafOk(mem', m', role[g], g, j)
    {
      assert LeafOk(mem, m, role[g], g, j);
      var u := role[g];
      if j == i && u.a == t.a && u.b == t.b && u.c == t.c && (t.a == 511 || u.o == t.o) {
        OnePt(mem, role, k, f, g);
      }
    }
  }

  /** A frame holding only the self reference and the shared kernel slot becomes a root. */
  lemma AddRoot(mem: Memory, role: Roles, k: nat, m: Maps, n: nat)
    requires Tree(mem, role, k) && Leaves(mem, role, k, m)
    requires n !in role && FrameOk(mem, n) && RootOk(mem, k, n)
    requires forall i :: 0 <= i < 510 ==> Word(mem, n, i) == 0
    ensures Tree(mem, role[n := Root], k) && Leaves(mem, role[n := Root], k, m)
  {
    var role' := role[n := Root];
    forall g: nat | g in role'
      ensures FrameOk(mem, g) && Linked(mem, role', role'[g], g)
    {
      assert g in role ==> FrameOk(mem, g) && Linked(mem, role, role[g], g);
    }
    forall r: nat | IsRoot(role', r)
      ensures RootOk(mem, k, r)
    {
      assert IsRoot(role, r) ==> RootOk(mem, k, r);
    }
    forall g: nat, j: Index | g in role'
      ensures InnerOk(mem, role', g, j)
    {
      assert g in role ==> InnerOk(mem, role, g, j);
    }
    forall o: nat, p: Page | Lookup(m, o, p).Some?
      ensures Backed(mem, role', k, o, p)
    {
      assert Backed(mem, role, k, o, p);
    }
    forall g: nat, j: Index | g in role' && role'[g].PtOf?
      ensures LeafOk(mem, m, role'[g], g, j)
    {
      assert LeafOk(mem, m, role[g], g, j);
    }
  }
}
