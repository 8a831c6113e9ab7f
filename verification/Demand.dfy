/**
 Demand-zero mapping (`kmmap` in `sys/mm.c`) and the steps of the page-fault
 handler, on the machine state together with the ownership invariant.
 */
module Demand {
  import opened Options
  import opened Bits
  import opened Machine
  import opened Pointers
  import opened PageTable
  import opened Paging
  import opened Cow
  import opened Footprint

  /** User addresses: the lower canonical half. */
  const USER_END := 0x8000_0000_0000

  /** The first canonical address of the upper half. */
  const UPPER := 0xFFFF_8000_0000_0000

  /** Address of a page of the user half. */
  function UserAddr(p: Page): nat {
    p.i4 * 0x80_0000_0000 + p.i3 * 0x4000_0000 + p.i2 * 0x20_0000 + p.i1 * 0x1000
  }

  lemma UserPage(va: nat)
    requires va < USER_END
    ensures PageOf(va).i4 < 256 && UserAddr(PageOf(va)) == AlignDown(va) && va < U64
  {
    var high, off := Digits(va);
    assert high == 0 && off == va % PGSIZE;
  }

  lemma UpperPage(va: nat)
    requires UPPER <= va < U64
    ensures PageOf(va).i4 >= 256
  {
    var high, off := Digits(va);
    assert high == 0xFFFF;
  }

  lemma UserHalf(va: nat)
    requires va < USER_END
    ensures PageOf(va).i4 < 256 && va < U64
  {
    UserPage(va);
  }

  /** Distinct page addresses are distinct pages. */
  lemma UserPageInjective(a: nat, b: nat)
    requires a < USER_END && b < USER_END && PageOf(a) == PageOf(b)
    ensures AlignDown(a) == AlignDown(b)
  {
    UserPage(a);
    UserPage(b);
  }

  lemma PageOfUserAddr(p: Page)
    requires p.i4 < 256
    ensures PageOf(UserAddr(p)) == p && UserAddr(p) % PGSIZE == 0 && UserAddr(p) < USER_END
  {
    FromDigits(0, p, 0);
  }

  /** Page addresses are a page apart. */
  lemma NextPage(p: Page, q: Page)
    requires p.i4 < 256 && q.i4 < 256
    ensures UserAddr(q) <= UserAddr(p) < UserAddr(q) + PGSIZE <==> p == q
  {
    PageOfUserAddr(p);
    PageOfUserAddr(q);
  }

  /** The memory invariant: tables, kernel window, and exact ownership of user frames. */
  ghost predicate Sound(s: Vm, g: Shape) {
    && Ok(s, g)
    && Window(s, g)
    && Exact(g.maps.user, s.alloc.counts, g.role)
    && Used(g.maps.user, g.role.Values)
  }

  // ------------------------------------------------------ tables and pages

  /** The mapped pages of space `r`. */
  ghost function Pages(u: UserMap, r: nat): set<Page> {
    set key | key in u && key.0 == r :: key.1
  }

  /** Some mapped page lies under this table. */
  ghost predicate InUse(u: UserMap, t: Role)
    requires !t.Root?
  {
    exists p: Page :: (t.o, p) in u && t in Path(t.o, p)
  }

  /** Every user table leads to a mapped page. */
  ghost predicate Used(u: UserMap, tables: set<Role>) {
    forall t: Role {:trigger t in tables} :: UserTable(t) && t in tables ==> InUse(u, t)
  }

  lemma UsedKept(u: UserMap, u': UserMap, tables: set<Role>, tables': set<Role>)
    requires Used(u, tables) && UserTablesSame(tables, tables') && forall key :: key in u ==> key in u'
    ensures Used(u', tables')
  {
    forall t: Role | UserTable(t) && t in tables' ensures InUse(u', t) {
      assert t in tables;
      var p: Page :| (t.o, p) in u && t in Path(t.o, p);
      assert (t.o, p) in u';
    }
  }

  lemma UsedMapped(u: UserMap, u': UserMap, tables: set<Role>, r: nat, p: Page)
    requires Used(u, tables) && (r, p) in u' && forall key :: key in u ==> key in u'
    ensures Used(u', tables + Path(r, p))
  {
    forall t: Role | UserTable(t) && t in tables + Path(r, p) ensures InUse(u', t) {
      if t in tables {
        var q: Page :| (t.o, q) in u && t in Path(t.o, q);
        assert (t.o, q) in u';
      }
    }
  }

  lemma MappedPath(s: Vm, g: Shape, r: nat, q: Page)
    requires Ok(s, g) && (r, q) in g.maps.user
    ensures Path(r, q) <= g.role.Values
  {
    assert Lookup(g.maps, r, q).Some? ==> Backed(s.mem, g.role, s.initPml4, r, q);
    WalkTables(s.mem, g.role, s.initPml4, r, q);
  }

  /** A user table is there exactly when a mapped page lies under it. */
  lemma TableInUse(s: Vm, g: Shape, r: nat, p: Page, n: nat)
    requires Sound(s, g) && p.i4 < 510 && 2 <= n <= 4
    ensures PathAt(r, p, n) in g.role.Values <==> Near(Pages(g.maps.user, r), p, n - 1)
  {
    var u, t := g.maps.user, PathAt(r, p, n);
    if t in g.role.Values {
      var q: Page :| (t.o, q) in u && t in Path(t.o, q);
      assert q in Pages(u, r) && Together(q, p, n - 1);
    }
    if Near(Pages(u, r), p, n - 1) {
      var q: Page :| q in Pages(u, r) && Together(q, p, n - 1);
      MappedPath(s, g, r, q);
      assert t in Path(r, q);
    }
  }

  /** So what a page lacks is decided by the pages that are there. */
  lemma MissingIsNew(s: Vm, g: Shape, r: nat, p: Page)
    requires Sound(s, g) && p.i4 < 510
    ensures Missing(g.role.Values, r, p) == NewTables(Pages(g.maps.user, r), p)
  {
    TableInUse(s, g, r, p, 4);
    TableInUse(s, g, r, p, 3);
    TableInUse(s, g, r, p, 2);
  }

  ghost predicate SameSight(s: Vm, g: Shape, s': Vm, g': Shape) {
    SameViews(g.maps.user, s.mem, g'.maps.user, s'.mem)
  }

  /** Kernel-side steps disturb neither ownership nor what processes see. */
  lemma PreservesUser(s: Vm, g: Shape, s': Vm, g': Shape)
    requires Sound(s, g) && Preserves(s, g, s', g')
    ensures Exact(g'.maps.user, s'.alloc.counts, g'.role) && Used(g'.maps.user, g'.role.Values) && SameSight(s, g, s', g')
  {
    var u := g.maps.user;
    UsedKept(u, u, g.role.Values, g'.role.Values);
    forall key | key in u
      ensures TargetSame(u, s.alloc.counts, g.role, s'.alloc.counts, g'.role, key) && SeesSame(u, s.mem, u, s'.mem, key)
    {
      TargetKept(s, g, s', g', key);
    }
    ExactFrame(u, s.alloc.counts, g.role, s'.alloc.counts, g'.role);
    forall key ensures SeesSame(u, s.mem, u, s'.mem, key) {
    }
  }

  lemma TargetKept(s: Vm, g: Shape, s': Vm, g': Shape, key: Key)
    requires Exact(g.maps.user, s.alloc.counts, g.role) && key in g.maps.user
    requires AllKept(s.alloc.counts, s.mem, g.role, s'.alloc.counts, s'.mem, g'.role)
    ensures var f := Base(g.maps.user[key]);
            && Counted(s.alloc.counts, f) && f !in g.role && f !in g'.role && f in s'.alloc.counts
            && s'.alloc.counts[f] == s.alloc.counts[f] && FrameSame(s.mem, s'.mem, f)
  {
    assert EntryOk(g.maps.user, s.alloc.counts, g.role, key);
    var f := Base(g.maps.user[key]);
    assert key in Refs(g.maps.user, f);
    assert Kept(s.alloc.counts, s.mem, g.role, s'.alloc.counts, s'.mem, g'.role, f);
  }

  /** Mapping a page keeps every allocated data frame. */
  lemma MapsToKept(s: Vm, g: Shape, s': Vm, g': Shape, p: Page, w: nat)
    requires Ok(s, g) && MapsTo(s, g, s', g', p, w)
    ensures AllKept(s.alloc.counts, s.mem, g.role, s'.alloc.counts, s'.mem, g'.role)
    ensures forall r: nat :: IsRoot(g.role, r) ==> IsRoot(g'.role, r)
  {
    forall f: nat ensures Kept(s.alloc.counts, s.mem, g.role, s'.alloc.counts, s'.mem, g'.role, f) {
      assert FrameGrown(g.role, s.alloc.counts, g'.role, s'.alloc.counts, f);
      assert f in s.alloc.counts ==> FrameOk(s.mem, f);
      assert f in s.mem && f !in g'.role ==> FrameSame(s.mem, s'.mem, f);
    }
    forall r: nat | IsRoot(g.role, r) ensures IsRoot(g'.role, r) {
      assert FrameGrown(g.role, s.alloc.counts, g'.role, s'.alloc.counts, r);
    }
  }

  lemma UserMapWindow(s: Vm, g: Shape, s': Vm, g': Shape, p: Page, w: nat)
    requires Window(s, g) && MapsTo(s, g, s', g', p, w) && p.i4 < 510
    ensures Window(s', g')
  {
    forall q: Page | q in g'.maps.kern ensures Below(q, s'.freeAddr) {
      assert q in g.maps.kern;
    }
  }

  /** A step of user-half work: the invariant holds again, roots stay roots, all spaces but `e` keep their tables. */
  ghost predicate UserStep(s: Vm, g: Shape, s': Vm, g': Shape, e: Option<nat>) {
    && Sound(s', g')
    && s' == s.(mem := s'.mem, alloc := s'.alloc)
    && (forall r: nat :: IsRoot(g.role, r) ==> IsRoot(g'.role, r))
    && SamePts(s.mem, s'.mem, g.role, e)
  }

  lemma UserStepTrans(s: Vm, g: Shape, s1: Vm, g1: Shape, s2: Vm, g2: Shape, e1: Option<nat>, e: Option<nat>)
    requires UserStep(s, g, s1, g1, e1) && UserStep(s1, g1, s2, g2, e) && (e1 == None || e1 == e)
    ensures UserStep(s, g, s2, g2, e)
  {
    forall r: nat, p: Page | IsRoot(g.role, r) && p.i4 < 510 && e != Some(r)
      ensures PtSame(s.mem, s2.mem, r, p)
    {
      assert PtSame(s.mem, s1.mem, r, p) && PtSame(s1.mem, s2.mem, r, p);
    }
  }

  /** A step no process can notice. */
  ghost predicate Invisible(s: Vm, g: Shape, s': Vm, g': Shape, e: Option<nat>) {
    UserStep(s, g, s', g', e) && SameSight(s, g, s', g')
  }

  lemma InvisibleTrans(s: Vm, g: Shape, s1: Vm, g1: Shape, s2: Vm, g2: Shape, e1: Option<nat>, e: Option<nat>)
    requires Invisible(s, g, s1, g1, e1) && Invisible(s1, g1, s2, g2, e) && (e1 == None || e1 == e)
    ensures Invisible(s, g, s2, g2, e)
  {
    UserStepTrans(s, g, s1, g1, s2, g2, e1, e);
    SameViewsTrans(g.maps.user, s.mem, g1.maps.user, s1.mem, g2.maps.user, s2.mem);
  }

  /** A step no process can notice, and that leaves the user mappings as they are. */
  ghost predicate Quiet(s: Vm, g: Shape, s': Vm, g': Shape) {
    Invisible(s, g, s', g', None) && g'.maps.user == g.maps.user
  }

  lemma QuietTrans(s: Vm, g: Shape, s1: Vm, g1: Shape, s2: Vm, g2: Shape)
    requires Quiet(s, g, s1, g1) && Quiet(s1, g1, s2, g2)
    ensures Quiet(s, g, s2, g2)
  {
    InvisibleTrans(s, g, s1, g1, s2, g2, None, None);
  }

  /** An allocated frame nobody maps and that is no table. */
  ghost predicate Loose(s: Vm, g: Shape, b: nat) {
    && b in s.alloc.counts && s.alloc.counts[b] == 1 && b !in g.role && Refs(g.maps.user, b) == {}
    && FrameOk(s.mem, b)
  }

  /** All of them: the allocated frames that are neither tables nor mapped by a user page. */
  ghost function Stray(s: Vm, g: Shape): set<nat> {
    set f | f in Bare(s, g) && Refs(g.maps.user, f) == {}
  }

  lemma StraySame(s: Vm, g: Shape, s': Vm, g': Shape)
    requires Bare(s', g') == Bare(s, g) && g'.maps.user == g.maps.user
    ensures Stray(s', g') == Stray(s, g)
  {
  }

  lemma StrayTaken(s: Vm, g: Shape, s': Vm, g': Shape, b: nat)
    requires Bare(s', g') == Bare(s, g) + {b} && g'.maps.user == g.maps.user && Refs(g.maps.user, b) == {}
    ensures Stray(s', g') == Stray(s, g) + {b}
  {
  }

  /** A stray frame that a user page maps is stray no more. */
  lemma StrayMapped(s: Vm, g: Shape, s': Vm, g': Shape, key: Key, b: nat)
    requires Bare(s', g') == Bare(s, g) && key !in g.maps.user && b % PGSIZE == 0 && g'.maps.user == g.maps.user[key := b + RW_USER]
    ensures Stray(s', g') == Stray(s, g) - {b}
  {
    var u, u' := g.maps.user, g'.maps.user;
    BaseAdd(b, RW_USER);
    assert key in Refs(u', b);
    forall f: nat | f != b ensures Refs(u', f) == Refs(u, f) {
      RefsSame(u, u', key, f);
    }
  }

  lemma StrayDropped(s: Vm, g: Shape, b: nat)
    requires Loose(s, g, b)
    ensures Stray(s.(alloc := s.alloc.Release(b).0), g) == Stray(s, g) - {b}
  {
  }

  /** get_free_page followed by zero_page. */
  method ClearPage(s: Vm, ghost g: Shape) returns (ok: bool, b: nat, s': Vm, ghost g': Shape)
    requires Sound(s, g)
    ensures ok ==> Quiet(s, g, s', g')
    ensures ok ==> Loose(s', g', b) && s'.mem[b] == ZeroFrame()
    ensures ok ==> Temp(s') !in g'.maps.kern
    ensures ok <==> s.alloc.free != []
    ensures ok ==> |s'.alloc.free| == |s.alloc.free| - 1
    ensures ok ==> b !in Stray(s, g) && Stray(s', g') == Stray(s, g) + {b}
  {
    var (alloc, r) := s.alloc.Take();
    if r.OutOfMemory? {
      return false, 0, s, g;
    }
    b := r.base;
    var s1 := s.(alloc := alloc);
    TookPage(s, g, b);
    FreeUnmapped(g.maps.user, s.alloc.counts, g.role, b);
    BareTaken(s, g, b);
    ok := true;
    s', g' := ZeroPage(s1, g, b);
    ZeroPreserves(s, g, s', g', b);
    PreservesUser(s, g, s', g');
    StrayTaken(s, g, s', g', b);
    assert FrameOk(s'.mem, b);
  }

  /** Mapping a loose frame writable at an unmapped user page of the current space. */
  lemma MapLoose(s: Vm, g: Shape, s': Vm, g': Shape, p: Page, b: nat)
    requires Sound(s, g) && Loose(s, g, b) && Ok(s', g') && p.i4 < 510 && (s.cr3, p) !in g.maps.user
    requires MapsTo(s, g, s', g', p, b + RW_USER)
    ensures UserStep(s, g, s', g', Some(s.cr3)) && g'.maps.user == g.maps.user[(s.cr3, p) := b + RW_USER]
    ensures FrameSame(s.mem, s'.mem, b)
    ensures forall key :: key != (s.cr3, p) ==> SeesSame(g.maps.user, s.mem, g'.maps.user, s'.mem, key)
    ensures View(g'.maps.user, s'.mem, (s.cr3, p)) == s.mem[b]
    ensures s.mem[b] == ZeroFrame() ==> SameSight(s, g, s', g')
  {
    MapLooseSound(s, g, s', g', p, b);
    MapsToKept(s, g, s', g', p, b + RW_USER);
    LooseViews(s, g, s', g', (s.cr3, p), b);
  }

  lemma LooseViews(s: Vm, g: Shape, s': Vm, g': Shape, k: Key, b: nat)
    requires Exact(g.maps.user, s.alloc.counts, g.role) && Loose(s, g, b) && k !in g.maps.user && g'.maps.user == g.maps.user[k := b + RW_USER]
    requires AllKept(s.alloc.counts, s.mem, g.role, s'.alloc.counts, s'.mem, g'.role)
    ensures FrameSame(s.mem, s'.mem, b)
    ensures forall key :: key != k ==> SeesSame(g.maps.user, s.mem, g'.maps.user, s'.mem, key)
    ensures View(g'.maps.user, s'.mem, k) == s.mem[b]
    ensures s.mem[b] == ZeroFrame() ==> SameSight(s, g, s', g')
  {
    var u := g.maps.user;
    BaseAdd(b, RW_USER);
    assert Kept(s.alloc.counts, s.mem, g.role, s'.alloc.counts, s'.mem, g'.role, b);
    forall key | key in u ensures FrameSame(s.mem, s'.mem, Base(u[key])) {
      TargetKept(s, g, s', g', key);
    }
  }

  lemma MapLooseSound(s: Vm, g: Shape, s': Vm, g': Shape, p: Page, b: nat)
    requires Sound(s, g) && Loose(s, g, b) && Ok(s', g') && p.i4 < 510 && (s.cr3, p) !in g.maps.user
    requires MapsTo(s, g, s', g', p, b + RW_USER)
    ensures Sound(s', g') && g'.maps.user == g.maps.user[(s.cr3, p) := b + RW_USER]
  {
    var u := g.maps.user;
    BaseAdd(b, RW_USER);
    UserMapWindow(s, g, s', g', p, b + RW_USER);
    MapsToKept(s, g, s', g', p, b + RW_USER);
    assert Kept(s.alloc.counts, s.mem, g.role, s'.alloc.counts, s'.mem, g'.role, b);
    forall key | key in u ensures TargetSame(u, s.alloc.counts, g.role, s'.alloc.counts, g'.role, key) {
      TargetKept(s, g, s', g', key);
    }
    ExactFrame(u, s.alloc.counts, g.role, s'.alloc.counts, g'.role);
    MapFresh(u, s'.alloc.counts, g'.role, (s.cr3, p), b);
    UsedMapped(u, g'.maps.user, g.role.Values, s.cr3, p);
  }

  /** Giving back a loose frame. */
  lemma DropLoose(s: Vm, g: Shape, b: nat)
    requires Sound(s, g) && Loose(s, g, b)
    ensures var s' := s.(alloc := s.alloc.Release(b).0);
            Ok(s', g) ==> Invisible(s, g, s', g, None)
  {
    var u, s' := g.maps.user, s.(alloc := s.alloc.Release(b).0);
    forall key | key in u
      ensures TargetSame(u, s.alloc.counts, g.role, s'.alloc.counts, g.role, key)
    {
      assert Base(u[key]) == b ==> key in Refs(u, b);
    }
    ExactFrame(u, s.alloc.counts, g.role, s'.alloc.counts, g.role);
  }

  /** Free frames together with those that the mapped pages of space `r` and their tables would take if none was shared. */
  ghost function Held(s: Vm, g: Shape, r: nat): nat {
    |s.alloc.free| + Cost(Pages(g.maps.user, r))
  }

  /** One round of kmmap's loop: a cleared page at `va`, unless something is mapped there already. */
  method MapZero(s: Vm, ghost g: Shape, va: nat) returns (ok: bool, s': Vm, ghost g': Shape)
    requires Sound(s, g) && va < USER_END
    ensures ok ==> Invisible(s, g, s', g', Some(s.cr3)) && Entered(g.maps.user, g'.maps.user, (s.cr3, PageOf(va)))
    ensures ok <==> 1 + NewTables(Pages(g.maps.user, s.cr3), PageOf(va)) <= |s.alloc.free|
    ensures ok ==> Held(s', g', s.cr3) == Held(s, g, s.cr3) && Stray(s', g') == Stray(s, g)
  {
    var okb, b, s1, g1 := ClearPage(s, g);
    if !okb {
      return false, s, g;
    }
    ok, s', g' := MapCleared(s1, g1, va, b);
    if ok {
      InvisibleTrans(s, g, s1, g1, s', g', None, Some(s.cr3));
    }
  }

  /** The key is mapped, to a writable page if it was not before, and no other key has changed. */
  ghost predicate Entered(u: UserMap, u': UserMap, key: Key) {
    && key in u'
    && u' == (if key in u then u else u[key := u'[key]])
    && (key !in u ==> Writable(u'[key]))
  }

  lemma PagesEntered(u: UserMap, u': UserMap, key: Key)
    requires Entered(u, u', key)
    ensures Pages(u', key.0) == Pages(u, key.0) + {key.1}
  {
    forall p: Page ensures p in Pages(u', key.0) <==> p in Pages(u, key.0) || p == key.1 {
      assert p in Pages(u, key.0) <==> (key.0, p) in u;
      assert p in Pages(u', key.0) <==> (key.0, p) in u';
    }
  }

  /** Frame `b` has been mapped at `p`, or given back where something was mapped already. */
  ghost predicate Placed(s: Vm, g: Shape, s': Vm, g': Shape, p: Page, b: nat) {
    && Ok(s', g')
    && if (s.cr3, p) in g.maps.user then g' == g && s' == s.(alloc := s.alloc.Release(b).0) else MapsTo(s, g, s', g', p, b + RW_USER)
  }

  /** map_page of a frame at a user address. */
  method Place(s: Vm, ghost g: Shape, va: nat, b: nat) returns (ok: bool, s': Vm, ghost g': Shape)
    requires Ok(s, g) && va < USER_END && b !in g.role && b % PGSIZE == 0
    ensures ok <==> Missing(g.role.Values, s.cr3, PageOf(va)) <= |s.alloc.free|
    ensures ok ==> Placed(s, g, s', g', PageOf(va), b)
  {
    UserHalf(va);
    BaseAdd(b, 0);
    ok, s', g' := MapPage(s, g, b, va, RW_USER);
  }

  /** The second half: map_page of the cleared frame, which gives it back if the page is mapped. */
  method MapCleared(s: Vm, ghost g: Shape, va: nat, b: nat) returns (ok: bool, s': Vm, ghost g': Shape)
    requires Sound(s, g) && Loose(s, g, b) && s.mem[b] == ZeroFrame() && va < USER_END
    ensures ok ==> Invisible(s, g, s', g', Some(s.cr3)) && Entered(g.maps.user, g'.maps.user, (s.cr3, PageOf(va)))
    ensures ok <==> NewTables(Pages(g.maps.user, s.cr3), PageOf(va)) <= |s.alloc.free|
    ensures ok ==> Held(s', g', s.cr3) == Held(s, g, s.cr3) + 1 && Stray(s', g') == Stray(s, g) - {b}
  {
    UserHalf(va);
    MissingIsNew(s, g, s.cr3, PageOf(va));
    ok, s', g' := Place(s, g, va, b);
    if ok {
      ClearedMapped(s, g, s', g', PageOf(va), b);
      PageCost(g.maps.user, g'.maps.user, s.cr3, PageOf(va));
    }
  }

  /** A page more costs its frame and its new tables. */
  lemma PageCost(u: UserMap, u': UserMap, r: nat, p: Page)
    requires Entered(u, u', (r, p))
    ensures Cost(Pages(u', r)) == Cost(Pages(u, r)) + if (r, p) in u then 0 else 1 + NewTables(Pages(u, r), p)
  {
    PagesEntered(u, u', (r, p));
    OneMore(Pages(u, r), p);
    assert p in Pages(u, r) <==> (r, p) in u;
  }

  lemma ClearedMapped(s: Vm, g: Shape, s': Vm, g': Shape, p: Page, b: nat)
    requires Sound(s, g) && Loose(s, g, b) && s.mem[b] == ZeroFrame() && p.i4 < 510 && Placed(s, g, s', g', p, b)
    ensures Invisible(s, g, s', g', Some(s.cr3)) && Entered(g.maps.user, g'.maps.user, (s.cr3, p))
    ensures Stray(s', g') == Stray(s, g) - {b}
  {
    if (s.cr3, p) in g.maps.user {
      DropLoose(s, g, b);
      StrayDropped(s, g, b);
    } else {
      ClearedNew(s, g, s', g', p, b);
    }
  }

  lemma ClearedNew(s: Vm, g: Shape, s': Vm, g': Shape, p: Page, b: nat)
    requires Sound(s, g) && Loose(s, g, b) && s.mem[b] == ZeroFrame() && Ok(s', g') && p.i4 < 510 && (s.cr3, p) !in g.maps.user
    requires MapsTo(s, g, s', g', p, b + RW_USER)
    ensures Invisible(s, g, s', g', Some(s.cr3)) && Entered(g.maps.user, g'.maps.user, (s.cr3, p))
    ensures Stray(s', g') == Stray(s, g) - {b}
  {
    MapLoose(s, g, s', g', p, b);
    BareGrown(s, g, s', g');
    StrayMapped(s, g, s', g', (s.cr3, p), b);
    BaseAdd(b, RW_USER);
  }

  /** The page count kmmap computes from the first and last byte, as an int; the sum for the last byte is modulo 2^64. */
  function NumPages(sAddr: nat, size: int): int {
    ToInt(((sAddr + size - 1) % U64) / PGSIZE - sAddr / PGSIZE + 1)
  }

  /** num_pages is the number of pages the byte range reaches into. */
  lemma NumPagesExact(sAddr: nat, size: int)
    requires sAddr < USER_END && -0x8000_0000 <= size < 0x8000_0000
    ensures var n := NumPages(sAddr, size);
            (n <= 0 ==> sAddr + size <= AlignDown(sAddr)) &&
            (n > 0 ==> AlignDown(sAddr) + (n - 1) * PGSIZE < sAddr + size <= AlignDown(sAddr) + n * PGSIZE)
  {
    var x := sAddr + size - 1;
    if x >= 0 {
      assert x % U64 == x;
      assert x / PGSIZE - sAddr / PGSIZE + 1 == NumPages(sAddr, size);
    } else {
      WrapPages(x);
    }
  }

  /** A negative sum wraps around, and its page number comes out negative once cut to an int. */
  lemma WrapPages(x: int)
    requires -0x8000_0001 <= x < 0
    ensures (x % U64) / PGSIZE == 0x10_0000_0000_0000 + x / PGSIZE
  {
    assert x % U64 == x + U64;
    assert U64 == PGSIZE * 0x10_0000_0000_0000;
  }

  predicate Writable(w: nat) {
    w == Base(w) + RW_USER
  }

  /** From u to u', only writable entries of space `r` for pages in [lo, hi) were added. */
  ghost predicate Grew(u: UserMap, u': UserMap, r: nat, lo: nat, hi: nat) {
    && (forall key :: key in u ==> key in u' && u'[key] == u[key])
    && (forall key :: key in u' && key !in u ==> key.0 == r && key.1.i4 < 256 && lo <= UserAddr(key.1) < hi && Writable(u'[key]))
  }

  /** Every page of space `r` that starts in [lo, hi) is mapped. */
  ghost predicate Filled(u: UserMap, r: nat, lo: nat, hi: nat) {
    forall q: Page {:trigger (r, q) in u} :: q.i4 < 256 && lo <= UserAddr(q) < hi ==> (r, q) in u
  }

  lemma GrewStep(u: UserMap, u1: UserMap, u2: UserMap, r: nat, lo: nat, hi: nat, q: Page)
    requires Grew(u, u1, r, lo, hi) && Filled(u1, r, lo, UserAddr(q)) && lo <= UserAddr(q) < hi && q.i4 < 256
    requires (r, q) in u2 && ((r, q) !in u1 ==> Writable(u2[(r, q)]))
    requires u2 == if (r, q) in u1 then u1 else u1[(r, q) := u2[(r, q)]]
    ensures Grew(u, u2, r, lo, hi) && Filled(u2, r, lo, UserAddr(q) + PGSIZE)
  {
    forall p: Page | p.i4 < 256 && lo <= UserAddr(p) < UserAddr(q) + PGSIZE
      ensures (r, p) in u2
    {
      NextPage(p, q);
    }
  }

  /** Page `i` from address `lo` on. */
  ghost function FillPage(lo: nat, i: nat): Page
    decreases i
  {
    if i == 0 then PageOf(lo) else FillPage(lo + PGSIZE, i - 1)
  }

  lemma {:induction false} FillPageIs(lo: nat, i: nat)
    ensures FillPage(lo, i) == PageOf(lo + i * PGSIZE)
    decreases i
  {
    if i > 0 {
      FillPageIs(lo + PGSIZE, i - 1);
    }
  }

  /** The `n` pages from address `lo` on. */
  ghost function FillSet(lo: nat, n: nat): set<Page> {
    if n == 0 then {} else FillSet(lo, n - 1) + {FillPage(lo, n - 1)}
  }

  /**
   Frames kmmap needs for these pages when those in `P` are mapped: one for each
   page and table that is missing. It takes a frame before it looks whether the
   page is mapped, so it needs one more if the last page is.
   */
  ghost function FillNeed(P: set<Page>, lo: nat, n: nat): int {
    if n == 0 then 0 else Cost(P + FillSet(lo, n)) - Cost(P) + if FillPage(lo, n - 1) in P then 1 else 0
  }

  /** They are the user pages that start in the range. */
  lemma {:induction false} FillSetIs(lo: nat, n: nat, p: Page)
    requires lo % PGSIZE == 0 && (n > 0 ==> lo + (n - 1) * PGSIZE < USER_END)
    ensures p in FillSet(lo, n) <==> p.i4 < 256 && lo <= UserAddr(p) < lo + n * PGSIZE
  {
    if n > 0 {
      var a := lo + (n - 1) * PGSIZE;
      FillSetIs(lo, n - 1, p);
      FillPageIs(lo, n - 1);
      UserPage(a);
      AlignedPage(lo, n - 1);
      if p.i4 < 256 {
        NextPage(p, PageOf(a));
      }
    }
  }

  lemma AlignedPage(lo: nat, i: nat)
    requires lo % PGSIZE == 0
    ensures AlignDown(lo + i * PGSIZE) == lo + i * PGSIZE
  {
  }

  lemma FillSetNext(lo: nat, i: nat)
    requires lo % PGSIZE == 0 && lo + i * PGSIZE < USER_END
    ensures FillSet(lo, i + 1) == FillSet(lo, i) + {FillPage(lo, i)}
    ensures FillPage(lo, i) !in FillSet(lo, i)
  {
    var a := lo + i * PGSIZE;
    FillPageIs(lo, i);
    FillSetIs(lo, i, PageOf(a));
    UserPage(a);
    AlignedPage(lo, i);
  }

  /** A round of the loop finds the frames it needs, `free` of them at first, exactly as long as the frames suffice so far. */
  lemma FillRound(P: set<Page>, lo: nat, i: nat, free: nat)
    requires lo % PGSIZE == 0 && lo + i * PGSIZE < USER_END && FillNeed(P, lo, i) <= free
    ensures var Pi, p := P + FillSet(lo, i), FillPage(lo, i);
            1 + NewTables(Pi, p) <= free + Cost(P) - Cost(Pi) <==> FillNeed(P, lo, i + 1) <= free
  {
    var Pi, p := P + FillSet(lo, i), FillPage(lo, i);
    FillSetNext(lo, i);
    assert P + FillSet(lo, i + 1) == Pi + {p};
    OneMore(Pi, p);
  }

  /** What suffices for all pages suffices for the first ones. */
  lemma {:induction false} FillPrefix(P: set<Page>, lo: nat, i: nat, n: nat, free: nat)
    requires lo % PGSIZE == 0 && i <= n && (n > 0 ==> lo + (n - 1) * PGSIZE < USER_END) && FillNeed(P, lo, n) <= free
    ensures FillNeed(P, lo, i) <= free
    decreases n
  {
    if i < n {
      FillShorter(P, lo, n - 1, free);
      FillPrefix(P, lo, i, n - 1, free);
    }
  }

  lemma FillShorter(P: set<Page>, lo: nat, i: nat, free: nat)
    requires lo % PGSIZE == 0 && lo + i * PGSIZE < USER_END && FillNeed(P, lo, i + 1) <= free
    ensures FillNeed(P, lo, i) <= free
  {
    if i > 0 {
      var Pi, p := P + FillSet(lo, i), FillPage(lo, i);
      FillSetNext(lo, i);
      assert P + FillSet(lo, i + 1) == Pi + {p};
      OneMore(Pi, p);
    }
  }

  /** The state of kmmap's loop: pages in [lo, a) are mapped, and nothing outside [lo, hi) was added. */
  ghost predicate Filling(s: Vm, g: Shape, s': Vm, g': Shape, lo: nat, hi: nat, a: nat) {
    && Invisible(s, g, s', g', Some(s.cr3))
    && Grew(g.maps.user, g'.maps.user, s.cr3, lo, hi)
    && Filled(g'.maps.user, s.cr3, lo, a)
    && lo <= a && a % PGSIZE == 0
    && Held(s', g', s.cr3) == Held(s, g, s.cr3) && Stray(s', g') == Stray(s, g)
  }

  method FillNext(ghost s0: Vm, ghost g0: Shape, s: Vm, ghost g: Shape, ghost lo: nat, ghost hi: nat, a: nat)
    returns (ok: bool, s': Vm, ghost g': Shape)
    requires Sound(s0, g0) && Filling(s0, g0, s, g, lo, hi, a) && a < hi <= USER_END
    ensures ok ==> Filling(s0, g0, s', g', lo, hi, a + PGSIZE) && Pages(g'.maps.user, s.cr3) == Pages(g.maps.user, s.cr3) + {PageOf(a)}
    ensures ok <==> 1 + NewTables(Pages(g.maps.user, s.cr3), PageOf(a)) <= |s.alloc.free|
  {
    ok, s', g' := MapZero(s, g, a);
    if ok {
      AlignedNext(a);
      UserPage(a);
      PagesEntered(g.maps.user, g'.maps.user, (s.cr3, PageOf(a)));
      GrewStep(g0.maps.user, g.maps.user, g'.maps.user, s0.cr3, lo, hi, PageOf(a));
      InvisibleTrans(s0, g0, s, g, s', g', Some(s0.cr3), Some(s0.cr3));
    }
  }

  /** Upper end of the pages kmmap maps. */
  function FillEnd(sAddr: nat, size: int): nat {
    if NumPages(sAddr, size) > 0 && sAddr + size >= 0 then sAddr + size else AlignDown(sAddr)
  }

  /** After `i` rounds, at address `a`: the pages so far are mapped, and the frames have sufficed. */
  ghost predicate FilledTo(s: Vm, g: Shape, s': Vm, g': Shape, lo: nat, hi: nat, i: nat, a: nat) {
    && a == lo + i * PGSIZE && Filling(s, g, s', g', lo, hi, a)
    && Pages(g'.maps.user, s.cr3) == Pages(g.maps.user, s.cr3) + FillSet(lo, i)
    && FillNeed(Pages(g.maps.user, s.cr3), lo, i) <= |s.alloc.free|
  }

  /** The frames a round finds. */
  lemma RoundFrames(P: set<Page>, P1: set<Page>, lo: nat, i: nat, a: nat, free: nat, free1: nat)
    requires lo % PGSIZE == 0 && a == lo + i * PGSIZE < USER_END && FillNeed(P, lo, i) <= free
    requires P1 == P + FillSet(lo, i) && free1 + Cost(P1) == free + Cost(P)
    ensures 1 + NewTables(P1, PageOf(a)) <= free1 <==> FillNeed(P, lo, i + 1) <= free
    ensures P1 + {PageOf(a)} == P + FillSet(lo, i + 1)
  {
    FillPageIs(lo, i);
    FillRound(P, lo, i, free);
    FillSetNext(lo, i);
  }

  method FillOne(ghost s0: Vm, ghost g0: Shape, s: Vm, ghost g: Shape, ghost lo: nat, ghost hi: nat, ghost i: nat, a: nat)
    returns (ok: bool, s': Vm, ghost g': Shape)
    requires Sound(s0, g0) && FilledTo(s0, g0, s, g, lo, hi, i, a) && lo % PGSIZE == 0 && a < hi <= USER_END
    ensures ok ==> FilledTo(s0, g0, s', g', lo, hi, i + 1, a + PGSIZE)
    ensures !ok ==> FillNeed(Pages(g0.maps.user, s0.cr3), lo, i + 1) > |s0.alloc.free|
  {
    RoundFrames(Pages(g0.maps.user, s0.cr3), Pages(g.maps.user, s.cr3), lo, i, a, |s0.alloc.free|, |s.alloc.free|);
    ok, s', g' := FillNext(s0, g0, s, g, lo, hi, a);
  }

  /** A round among `n`: if it fails, the frames do not suffice for them. */
  method FillStep(ghost s0: Vm, ghost g0: Shape, s: Vm, ghost g: Shape, ghost lo: nat, ghost n: nat, ghost hi: nat, ghost i: nat, a: nat)
    returns (ok: bool, s': Vm, ghost g': Shape)
    requires Sound(s0, g0) && FilledTo(s0, g0, s, g, lo, hi, i, a) && lo % PGSIZE == 0 && i < n && ReachesTo(lo, n, hi) && hi <= USER_END
    ensures ok ==> FilledTo(s0, g0, s', g', lo, hi, i + 1, a + PGSIZE)
    ensures !ok ==> FillNeed(Pages(g0.maps.user, s0.cr3), lo, n) > |s0.alloc.free|
  {
    RoundOf(Pages(g0.maps.user, s0.cr3), lo, i, n, hi, a, |s0.alloc.free|);
    ok, s', g' := FillOne(s0, g0, s, g, lo, hi, i, a);
  }

  /** The last of `n` pages from `lo` on is the last that starts below `hi`. */
  predicate ReachesTo(lo: nat, n: nat, hi: nat) {
    if n > 0 then lo + (n - 1) * PGSIZE < hi <= lo + n * PGSIZE else hi <= lo
  }

  /** A round starts below the end, and if its frames do not suffice, those for all rounds do not. */
  lemma RoundOf(P: set<Page>, lo: nat, i: nat, n: nat, hi: nat, a: nat, free: nat)
    requires lo % PGSIZE == 0 && ReachesTo(lo, n, hi) && hi <= USER_END && i < n && a == lo + i * PGSIZE
    ensures a < hi && (FillNeed(P, lo, i + 1) > free ==> FillNeed(P, lo, n) > free)
  {
    if FillNeed(P, lo, n) <= free {
      FillPrefix(P, lo, i + 1, n, free);
    }
  }

  /** The loop of kmmap: `n` pages from `lo` on, which reach as far as `hi`. */
  method FillPages(s: Vm, ghost g: Shape, lo: nat, n: nat, ghost hi: nat) returns (ok: bool, s': Vm, ghost g': Shape, addr: nat)
    requires Sound(s, g) && lo % PGSIZE == 0 && ReachesTo(lo, n, hi) && hi <= USER_END
    ensures ok ==> FilledTo(s, g, s', g', lo, hi, n, addr)
    ensures ok <==> FillNeed(Pages(g.maps.user, s.cr3), lo, n) <= |s.alloc.free|
  {
    ok, s', g', addr := true, s, g, lo;
    FilledNone(s, g, lo, hi);
    var i := 0;
    while i < n && ok
      invariant 0 <= i <= n
      invariant ok ==> FilledTo(s, g, s', g', lo, hi, i, addr)
      invariant !ok ==> FillNeed(Pages(g.maps.user, s.cr3), lo, n) > |s.alloc.free|
      decreases n - i
    {
      ok, s', g' := FillStep(s, g, s', g', lo, n, hi, i, addr);
      i, addr := i + 1, addr + PGSIZE;
    }
  }

  lemma FilledNone(s: Vm, g: Shape, lo: nat, hi: nat)
    requires Sound(s, g) && lo % PGSIZE == 0
    ensures FilledTo(s, g, s, g, lo, hi, 0, lo)
  {
    assert FillSet(lo, 0) == {};
  }

  /** The pages kmmap counts, none if the count is negative. */
  function PageCount(sAddr: nat, size: int): nat {
    if NumPages(sAddr, size) > 0 then NumPages(sAddr, size) else 0
  }

  /** kmmap: cleared writable pages over a byte range of the current space, keeping what is mapped already. */
  method KMmap(s: Vm, ghost g: Shape, sAddr: nat, size: int) returns (ok: bool, s': Vm, ghost g': Shape)
    requires Sound(s, g) && sAddr < USER_END && sAddr + size <= USER_END
    requires -0x8000_0000 <= size < 0x8000_0000
    ensures ok ==> Invisible(s, g, s', g', Some(s.cr3))
    ensures ok ==> Grew(g.maps.user, g'.maps.user, s.cr3, AlignDown(sAddr), FillEnd(sAddr, size))
    ensures ok ==> Filled(g'.maps.user, s.cr3, AlignDown(sAddr), FillEnd(sAddr, size))
    ensures ok <==> FillNeed(Pages(g.maps.user, s.cr3), AlignDown(sAddr), PageCount(sAddr, size)) <= |s.alloc.free|
    ensures ok ==> Held(s', g', s.cr3) == Held(s, g, s.cr3) && Stray(s', g') == Stray(s, g)
    ensures ok ==> Pages(g'.maps.user, s.cr3) == Pages(g.maps.user, s.cr3) + FillSet(AlignDown(sAddr), PageCount(sAddr, size))
  {
    NumPagesExact(sAddr, size);
    var addr;
    ok, s', g', addr := FillPages(s, g, AlignDown(sAddr), PageCount(sAddr, size), FillEnd(sAddr, size));
  }

  // ----------------------------------------------------- breaking a share

  /** The forward copy of memmove over one page, word by word. */
  method CopyWords(mem: Memory, src: nat, dst: nat) returns (mem': Memory)
    requires FrameOk(mem, src) && FrameOk(mem, dst) && src != dst
    ensures mem' == mem[dst := mem[src]]
  {
    mem' := mem;
    for i := 0 to 512
      invariant mem'.Keys == mem.Keys && |mem'[dst]| == 512
      invariant forall f :: f in mem && f != dst ==> mem'[f] == mem[f]
      invariant forall j :: 0 <= j < i ==> mem'[dst][j] == mem[src][j]
    {
      var frame: seq<nat> := mem'[dst][i := mem'[src][i]];
      mem' := mem'[dst := frame];
    }
    assert mem'[dst] == mem[src];
  }

  /** A loose frame mapped at the temporary window is still loose, and nobody sees a difference. */
  lemma TempMapped(s: Vm, g: Shape, s': Vm, g': Shape, b: nat, w: nat)
    requires Sound(s, g) && Loose(s, g, b) && Ok(s', g') && Temp(s) !in g.maps.kern
    requires MapsTo(s, g, s', g', Temp(s), w) && IsPresent(w) && IsRw(w)
    ensures Quiet(s, g, s', g')
    ensures Loose(s', g', b) && FrameSame(s.mem, s'.mem, b)
  {
    MapsToPreserves(s, g, s', g', Temp(s), w);
    PreservesUser(s, g, s', g');
    assert Kept(s.alloc.counts, s.mem, g.role, s'.alloc.counts, s'.mem, g'.role, b);
    assert FrameOk(s'.mem, b);
    forall q: Page | q in g'.maps.kern ensures Below(q, s'.freeAddr) {
      assert q in g.maps.kern || q == Temp(s);
    }
  }

  /** Overwriting a loose frame. */
  lemma FillLoose(s: Vm, g: Shape, b: nat, frame: seq<nat>)
    requires Sound(s, g) && Loose(s, g, b) && |frame| == 512
    ensures var s' := s.(mem := s.mem[b := frame]);
            Quiet(s, g, s', g) && Loose(s', g, b)
  {
    var u, s' := g.maps.user, s.(mem := s.mem[b := frame]);
    DataStore(s, g, b, frame);
    forall key ensures SeesSame(u, s.mem, u, s'.mem, key) {
      assert key in u && Base(u[key]) == b ==> key in Refs(u, b);
    }
    forall r: nat, p: Page | IsRoot(g.role, r) && p.i4 < 510
      ensures PtSame(s.mem, s'.mem, r, p)
    {
    }
    assert FrameOk(s'.mem, b);
  }

  /** Unmapping the temporary window. */
  lemma TempFreed(s: Vm, g: Shape, s': Vm, g': Shape)
    requires Sound(s, g) && Ok(s', g') && s' == s.(mem := s'.mem) && g' == Shape(g.role, Unmap(g.maps, Temp(s)))
    requires DataSame(s.mem, s'.mem, g.role) && SameWalks(s.mem, s'.mem, g.role)
    ensures Quiet(s, g, s', g')
    ensures forall b: nat :: Loose(s, g, b) ==> Loose(s', g', b) && FrameSame(s.mem, s'.mem, b)
  {
    forall f: nat ensures Kept(s.alloc.counts, s.mem, g.role, s'.alloc.counts, s'.mem, g'.role, f) {
      assert f in s.alloc.counts ==> FrameOk(s.mem, f);
      assert f in s.mem && f !in g.role ==> FrameSame(s.mem, s'.mem, f);
    }
    PreservesUser(s, g, s', g');
    forall q: Page | q in g'.maps.kern ensures Below(q, s'.freeAddr) {
      assert q in g.maps.kern;
    }
    forall b: nat | Loose(s, g, b) ensures Loose(s', g', b) && FrameSame(s.mem, s'.mem, b) {
      assert FrameOk(s'.mem, b);
    }
  }

  /** map_page of a loose frame at the temporary window, whose tables are all there. */
  method MapTemp(s: Vm, ghost g: Shape, b: nat) returns (s': Vm, ghost g': Shape)
    requires Sound(s, g) && Loose(s, g, b) && Temp(s) !in g.maps.kern
    ensures Quiet(s, g, s', g') && Loose(s', g', b) && |s'.alloc.free| == |s.alloc.free| && Stray(s', g') == Stray(s, g)
    ensures Mapping(s', g', Temp(s)) == Some(b + RW_USER) && FrameSame(s.mem, s'.mem, b)
  {
    TempTable(s, g);
    FlagWord(b, RW_USER);
    var ok;
    ok, s', g' := MapPage(s, g, b, s.tempAddr, RW_USER);
    BareGrown(s, g, s', g');
    StraySame(s, g, s', g');
    TempMapped(s, g, s', g', b, b + RW_USER);
  }

  /** Copies the page at `va` into a loose frame through the temporary window. */
  method CopyThroughTemp(s: Vm, ghost g: Shape, va: nat, b: nat) returns (s': Vm, ghost g': Shape)
    requires Sound(s, g) && Loose(s, g, b) && Temp(s) !in g.maps.kern
    requires va < USER_END && (s.cr3, PageOf(va)) in g.maps.user
    ensures Quiet(s, g, s', g') && Loose(s', g', b) && |s'.alloc.free| == |s.alloc.free| && Stray(s', g') == Stray(s, g)
    ensures s'.mem[b] == View(g.maps.user, s.mem, (s.cr3, PageOf(va)))
  {
    UserHalf(va);
    var s1, g1 := MapTemp(s, g, b);
    var src := FrameAt(s1, g1, va);
    var dst := FrameAt(s1, g1, s1.tempAddr);
    FlagWord(b, RW_USER);
    SourceFrame(s1, g1, (s1.cr3, PageOf(va)), b);
    var mem := CopyWords(s1.mem, src, dst);
    FillLoose(s1, g1, b, s1.mem[src]);
    s', g' := s1.(mem := mem), g1;
    StraySame(s1, g1, s', g');
    QuietTrans(s, g, s1, g1, s', g');
    assert SeesSame(g.maps.user, s.mem, g1.maps.user, s1.mem, (s.cr3, PageOf(va)));
  }

  /** A mapped frame exists and is not a loose one. */
  lemma SourceFrame(s: Vm, g: Shape, key: Key, b: nat)
    requires Sound(s, g) && Loose(s, g, b) && key in g.maps.user
    ensures FrameOk(s.mem, Base(g.maps.user[key])) && Base(g.maps.user[key]) != b
  {
    assert EntryOk(g.maps.user, s.alloc.counts, g.role, key);
    assert Base(g.maps.user[key]) == b ==> key in Refs(g.maps.user, b);
  }

  lemma FlagBits(b: nat)
    requires b % PGSIZE == 0
    ensures IsRw(b + RW_USER) && !IsCow(b + RW_USER) && !IsRw(b + COW_USER) && IsCow(b + COW_USER)
    ensures IsPresent(b + RW_USER) && IsPresent(b + COW_USER)
  {
    FlagsShow(b, RW_USER);
    FlagsShow(b, COW_USER);
  }

  /** Leaf words change under one user key only; every data frame stays. */
  ghost predicate Rewired(s: Vm, g: Shape, s': Vm, g': Shape, key: Key, w: nat) {
    && Ok(s', g') && s' == s.(mem := s'.mem)
    && g' == Shape(g.role, g.maps.(user := g.maps.user[key := w]))
    && DataSame(s.mem, s'.mem, g.role) && SameWalks(s.mem, s'.mem, g.role)
  }

  /** Overwrites the entry of a mapped user page of the current space. */
  method Rewire(s: Vm, ghost g: Shape, va: nat, w: nat) returns (s': Vm, ghost g': Shape)
    requires Ok(s, g) && va < USER_END && (s.cr3, PageOf(va)) in g.maps.user && IsPresent(w)
    ensures Rewired(s, g, s', g', (s.cr3, PageOf(va)), w)
  {
    UserHalf(va);
    MappedHasTable(s, g, PageOf(va));
    s', g' := WritePte(s, g, va, w);
  }

  lemma MappedHasTable(s: Vm, g: Shape, p: Page)
    requires Ok(s, g) && (s.cr3, p) in g.maps.user && p.i4 < 510
    ensures PtFor(s.mem, s.cr3, p).Some?
  {
    assert Lookup(g.maps, s.cr3, p).Some? ==> Backed(s.mem, g.role, s.initPml4, s.cr3, p);
  }

  /** Pointing a copy-on-write entry at a private copy and dropping the shared frame. */
  lemma BreakStep(s: Vm, g: Shape, s1: Vm, g1: Shape, key: Key, n: nat)
    requires Sound(s, g) && Loose(s, g, n) && key in g.maps.user
    requires g.maps.user[key] == Base(g.maps.user[key]) + COW_USER
    requires s.mem[n] == View(g.maps.user, s.mem, key)
    requires Rewired(s, g, s1, g1, key, n + RW_USER)
    ensures var s2 := s1.(alloc := s1.alloc.Release(Base(g.maps.user[key])).0);
            Invisible(s, g, s2, g1, None) && Stray(s2, g1) == Stray(s, g) - {n}
  {
    StrayMoved(s, g, s1, g1, key, n);
    var u, u', f := g.maps.user, g1.maps.user, Base(g.maps.user[key]);
    assert EntryOk(u, s.alloc.counts, g.role, key);
    BreakExact(u, s.alloc.counts, g.role, key, n);
    ReleaseOk(s1, g1, f);
    BaseAdd(n, RW_USER);
    forall k ensures SeesSame(u, s.mem, u', s1.mem, k) {
      if k in u {
        assert EntryOk(u, s.alloc.counts, g.role, k);
        assert FrameOk(s.mem, Base(u[k]));
        assert FrameSame(s.mem, s1.mem, Base(u[k]));
      }
      assert FrameSame(s.mem, s1.mem, n);
    }
    forall r: nat, p: Page | IsRoot(g.role, r) && p.i4 < 510
      ensures PtSame(s.mem, s1.mem, r, p)
    {
    }
  }

  /** The entry's old frame is still mapped, or free; its new one is stray no more. */
  lemma StrayMoved(s: Vm, g: Shape, s1: Vm, g1: Shape, key: Key, n: nat)
    requires Sound(s, g) && Loose(s, g, n) && key in g.maps.user && Rewired(s, g, s1, g1, key, n + RW_USER)
    ensures Stray(s1.(alloc := s1.alloc.Release(Base(g.maps.user[key])).0), g1) == Stray(s, g) - {n}
  {
    var u, u', f := g.maps.user, g1.maps.user, Base(g.maps.user[key]);
    var s2 := s1.(alloc := s1.alloc.Release(f).0);
    assert EntryOk(u, s.alloc.counts, g.role, key);
    RefsMoved(u, u', key, f, n);
    forall h: nat ensures h in Stray(s2, g1) <==> h in Stray(s, g) - {n} {
      if h != n && h != f {
        RefsSame(u, u', key, h);
      }
    }
  }

  lemma RefsMoved(u: UserMap, u': UserMap, key: Key, f: nat, n: nat)
    requires key in u && Base(u[key]) == f && Refs(u, n) == {} && n % PGSIZE == 0 && u' == u[key := n + RW_USER]
    ensures n != f && Refs(u', n) != {} && |Refs(u', f)| == |Refs(u, f)| - 1 && Refs(u, f) != {}
    ensures Base(u'[key]) == n
  {
    BaseAdd(n, RW_USER);
    assert key in Refs(u', n) && key in Refs(u, f);
    assert Refs(u', f) == Refs(u, f) - {key};
  }

  /** Dropping one reference frees the frame if it was the last. */
  lemma LastReference(s: Vm, g: Shape, key: Key)
    requires Exact(g.maps.user, s.alloc.counts, g.role) && key in g.maps.user
    ensures var f := Base(g.maps.user[key]);
            |s.alloc.Release(f).0.free| == |s.alloc.free| + if |Refs(g.maps.user, f)| > 1 then 0 else 1
  {
    assert EntryOk(g.maps.user, s.alloc.counts, g.role, key);
    var f := Base(g.maps.user[key]);
    assert key in Refs(g.maps.user, f);
    assert |Refs(g.maps.user, f)| > 0;
  }

  /** A fresh frame holding a copy of the page at `va`, still mapped at the temporary window. */
  method CopyOut(s: Vm, ghost g: Shape, va: nat) returns (ok: bool, n: nat, s': Vm, ghost g': Shape)
    requires Sound(s, g) && va < USER_END && (s.cr3, PageOf(va)) in g.maps.user
    ensures ok ==> Quiet(s, g, s', g') && Loose(s', g', n)
    ensures ok ==> s'.mem[n] == View(g'.maps.user, s'.mem, (s.cr3, PageOf(va)))
    ensures ok <==> s.alloc.free != []
    ensures ok ==> |s'.alloc.free| == |s.alloc.free| - 1
    ensures ok ==> n !in Stray(s, g) && Stray(s', g') == Stray(s, g) + {n}
  {
    var ok1, b, s1, g1 := ClearPage(s, g);
    if !ok1 {
      return false, b, s, g;
    }
    ok, n := true, b;
    s', g' := CopyThroughTemp(s1, g1, va, b);
    assert SeesSame(g1.maps.user, s1.mem, g'.maps.user, s'.mem, (s.cr3, PageOf(va)));
    QuietTrans(s, g, s1, g1, s', g');
  }

  /** A fresh frame holding a copy of the page at `va`. */
  method PrivateCopy(s: Vm, ghost g: Shape, va: nat) returns (ok: bool, n: nat, s': Vm, ghost g': Shape)
    requires Sound(s, g) && va < USER_END && (s.cr3, PageOf(va)) in g.maps.user
    ensures ok ==> Quiet(s, g, s', g') && Loose(s', g', n)
    ensures ok ==> s'.mem[n] == View(g'.maps.user, s'.mem, (s.cr3, PageOf(va)))
    ensures ok <==> s.alloc.free != []
    ensures ok ==> |s'.alloc.free| == |s.alloc.free| - 1
    ensures ok ==> n !in Stray(s, g) && Stray(s', g') == Stray(s, g) + {n}
  {
    var ok1, b, s1, g1 := CopyOut(s, g, va);
    if !ok1 {
      return false, b, s, g;
    }
    ok, n := true, b;
    s', g' := FreeTemp(s1, g1);
    TempFreed(s1, g1, s', g');
    StraySame(s1, g1, s', g');
    assert SeesSame(g1.maps.user, s1.mem, g'.maps.user, s'.mem, (s.cr3, PageOf(va)));
    QuietTrans(s, g, s1, g1, s', g');
  }

  /** The copy-on-write branch of the fault handler. */
  method BreakShare(s: Vm, ghost g: Shape, va: nat, pte: nat) returns (ok: bool, s': Vm, ghost g': Shape)
    requires Sound(s, g) && va < USER_END && (s.cr3, PageOf(va)) in g.maps.user
    requires pte == g.maps.user[(s.cr3, PageOf(va))] == Base(pte) + COW_USER
    ensures ok ==> Invisible(s, g, s', g', None)
    ensures ok ==> var key := (s.cr3, PageOf(va));
                   && key in g'.maps.user && g'.maps.user[key] == Base(g'.maps.user[key]) + RW_USER
                   && g'.maps.user == g.maps.user[key := g'.maps.user[key]]
    ensures ok <==> s.alloc.free != []
    ensures ok ==> |s'.alloc.free| == |s.alloc.free| - if |Refs(g.maps.user, Base(pte))| > 1 then 1 else 0
    ensures ok ==> Stray(s', g') == Stray(s, g)
  {
    var ok1, n, s1, g1 := PrivateCopy(s, g, va);
    if !ok1 {
      return false, s, g;
    }
    FlagWord(n, RW_USER);
    var s2, g2 := Rewire(s1, g1, va, n + RW_USER);
    BreakStep(s1, g1, s2, g2, (s.cr3, PageOf(va)), n);
    LastReference(s1, g1, (s.cr3, PageOf(va)));
    ok, s', g' := true, s2.(alloc := s2.alloc.Release(Base(pte)).0), g2;
    InvisibleTrans(s, g, s1, g1, s', g', None, None);
  }

  /** The hardware walk of page `p` from root `r` ends at frame `f`. */
  ghost predicate Translates(s: Vm, g: Shape, r: nat, p: Page, f: nat) {
    IsRoot(g.role, r) && p.i4 < 510 && Walk(s.mem, r, p).Some? && Base(Walk(s.mem, r, p).value) == f
  }

  lemma RefsAreWalks(s: Vm, g: Shape, r: nat, p: Page, f: nat)
    requires Ok(s, g)
    ensures (r, p) in Refs(g.maps.user, f) <==> Translates(s, g, r, p, f)
  {
    assert (r, p) in g.maps.user ==> Backed(s.mem, g.role, s.initPml4, r, p);
    if IsRoot(g.role, r) && p.i4 < 510 {
      WalkIsLookup(s.mem, g.role, s.initPml4, g.maps, r, p);
    }
  }

  lemma WriterAlone(s: Vm, g: Shape, r: nat, p: Page, f: nat)
    requires Sound(s, g) && (r, p) in Refs(g.maps.user, f)
    ensures f in s.alloc.counts && s.alloc.counts[f] == |Refs(g.maps.user, f)|
    ensures UserAccess(s.mem, r, p, true) ==> Refs(g.maps.user, f) == {(r, p)}
  {
    assert EntryOk(g.maps.user, s.alloc.counts, g.role, (r, p));
    RefsAreWalks(s, g, r, p, f);
    LeafDecides(s.mem, g.role, s.initPml4, g.maps, r, p, true);
    FlagsShow(f, COW_USER);
  }

  /**
   The count of a mapped frame is the number of pages, over all address spaces,
   that the hardware walk takes to it, and a page user code may write is the
   only one.
   */
  lemma CountsAreMappings(s: Vm, g: Shape, f: nat) returns (refs: set<Key>)
    requires Sound(s, g)
    ensures forall r: nat, p: Page :: (r, p) in refs <==> Translates(s, g, r, p, f)
    ensures refs != {} ==> f in s.alloc.counts && s.alloc.counts[f] == |refs|
    ensures forall r: nat, p: Page :: (r, p) in refs && UserAccess(s.mem, r, p, true) ==> refs == {(r, p)}
  {
    refs := Refs(g.maps.user, f);
    forall r: nat, p: Page ensures (r, p) in refs <==> Translates(s, g, r, p, f) {
      RefsAreWalks(s, g, r, p, f);
    }
    forall r: nat, p: Page | (r, p) in refs
      ensures f in s.alloc.counts && s.alloc.counts[f] == |refs|
      ensures UserAccess(s.mem, r, p, true) ==> refs == {(r, p)}
    {
      WriterAlone(s, g, r, p, f);
    }
    if refs != {} {
      var key :| key in refs;
      WriterAlone(s, g, key.0, key.1, f);
    }
  }
}
