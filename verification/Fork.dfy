/**
 The page-table half of `fork_process` in `sys/schedule.c`: the child's address
 space gets a copy of the stack pages that are present and shares every other
 present page copy-on-write.
 */
module Fork {
  import opened Options
  import opened Machine
  import opened Pointers
  import opened PageTable
  import opened Paging
  import opened Cow
  import opened Demand
  import opened Layout
  import opened Footprint

  lemma SwitchOk(s: Vm, g: Shape, r: nat)
    requires Ok(s, g) && IsRoot(g.role, r)
    ensures Ok(s.(cr3 := r), g)
  {
  }

  /** What one round of fork's loops does: the child's page `p` now reads as the parent's, nothing else changes. */
  ghost predicate Duplicated(s: Vm, g: Shape, s': Vm, g': Shape, c: nat, p: Page) {
    var u, u' := g.maps.user, g'.maps.user;
    && UserStep(s, g, s', g', Some(c))
    && (c, p) in u'
    && (forall key {:trigger key in u'} :: key != (c, p) ==> (key in u' <==> key in u))
    && (forall key {:trigger SeesSame(u, s.mem, u', s'.mem, key)} :: key != (c, p) ==> SeesSame(u, s.mem, u', s'.mem, key))
    && View(u', s'.mem, (c, p)) == View(u, s.mem, (s.cr3, p))
  }

  lemma RewiredRefl(s: Vm, g: Shape, key: Key)
    requires Ok(s, g) && key in g.maps.user
    ensures Rewired(s, g, s, g, key, g.maps.user[key])
  {
    assert g.maps.user[key := g.maps.user[key]] == g.maps.user;
  }

  /** The entry of the parent is made copy-on-write unless it is already. */
  method MakeCow(s: Vm, ghost g: Shape, va: nat, pte: nat) returns (paddr: nat, s': Vm, ghost g': Shape)
    requires Sound(s, g) && va < USER_END && (s.cr3, PageOf(va)) in g.maps.user && g.maps.user[(s.cr3, PageOf(va))] == pte
    ensures paddr == Base(pte) + COW_USER && Rewired(s, g, s', g', (s.cr3, PageOf(va)), paddr)
  {
    assert EntryOk(g.maps.user, s.alloc.counts, g.role, (s.cr3, PageOf(va)));
    assert FrameOk(s.mem, Base(pte));
    FlagBits(Base(pte));
    if IsRw(pte) {
      paddr := pte - PAGE_RW + PAGE_COW;
      s', g' := Rewire(s, g, va, paddr);
    } else {
      paddr := pte;
      RewiredRefl(s, g, (s.cr3, PageOf(va)));
      s', g' := s, g;
    }
  }

  /** The three writes of a sharing round: the parent's entry, the child's entry, the count. */
  ghost predicate Sharing(s: Vm, g: Shape, s1: Vm, g1: Shape, s3: Vm, g3: Shape, c: nat, p: Page) {
    && IsRoot(g.role, c) && c != s.cr3 && p.i4 < 510
    && (s.cr3, p) in g.maps.user && (c, p) !in g.maps.user
    && var w := Base(g.maps.user[(s.cr3, p)]) + COW_USER;
       Rewired(s, g, s1, g1, (s.cr3, p), w) && Ok(s3, g3) && MapsTo(s1.(cr3 := c), g1, s3, g3, p, w)
  }

  /** What they come to: two copy-on-write entries for one frame, the child's tables, and every mapped frame as it was. */
  ghost predicate Shared(s: Vm, g: Shape, s3: Vm, g3: Shape, c: nat, p: Page) {
    var u, key, child := g.maps.user, (s.cr3, p), (c, p);
    && key in u && child !in u
    && (forall k {:trigger k in u} :: k in u ==> ShareTarget(s, g, s3, g3, Base(u[k])))
    && g3.role.Values == g.role.Values + Path(c, p)
    && var w := Base(u[key]) + COW_USER;
       IsPresent(w) && Base(w) == Base(u[key]) && g3.maps.user == u[key := w][child := w]
  }

  lemma SharedMap(s: Vm, g: Shape, s1: Vm, g1: Shape, s3: Vm, g3: Shape, c: nat, p: Page)
    requires Sound(s, g) && Sharing(s, g, s1, g1, s3, g3, c, p)
    ensures Shared(s, g, s3, g3, c, p)
  {
    var u, f := g.maps.user, Base(g.maps.user[(s.cr3, p)]);
    assert EntryOk(u, s.alloc.counts, g.role, (s.cr3, p));
    assert FrameOk(s.mem, f);
    FlagWord(f, COW_USER);
    MapsToKept(s1.(cr3 := c), g1, s3, g3, p, f + COW_USER);
    forall key | key in u
      ensures ShareTarget(s, g, s3, g3, Base(u[key]))
    {
      ShareKeeps(s, g, s1, g1, s3, g3, key);
    }
  }

  /** After the share the counts are again those of the mappings. */
  lemma ShareCounted(s: Vm, g: Shape, s3: Vm, g3: Shape, c: nat, p: Page)
    requires Exact(g.maps.user, s.alloc.counts, g.role) && Shared(s, g, s3, g3, c, p)
    ensures Exact(g3.maps.user, s3.alloc.Share(Base(g.maps.user[(s.cr3, p)])).0.counts, g3.role)
  {
    var u, f := g.maps.user, Base(g.maps.user[(s.cr3, p)]);
    var u4, counts4 := g3.maps.user, s3.alloc.Share(f).0.counts;
    assert ShareTarget(s, g, s3, g3, f);
    ShareExact(u, s.alloc.counts, g.role, (s.cr3, p), (c, p));
    forall key | key in u4
      ensures TargetSame(u4, s.alloc.counts[f := s.alloc.counts[f] + 1], g.role, counts4, g3.role, key)
    {
      assert key in u ==> ShareTarget(s, g, s3, g3, Base(u[key]));
    }
    ExactFrame(u4, s.alloc.counts[f := s.alloc.counts[f] + 1], g.role, counts4, g3.role);
  }

  lemma SharedUsed(s: Vm, g: Shape, s3: Vm, g3: Shape, c: nat, p: Page)
    requires Used(g.maps.user, g.role.Values) && Shared(s, g, s3, g3, c, p)
    ensures Used(g3.maps.user, g3.role.Values)
  {
    UsedMapped(g.maps.user, g3.maps.user, g.role.Values, c, p);
  }

  lemma SharedWindow(s: Vm, g: Shape, s1: Vm, g1: Shape, s3: Vm, g3: Shape, c: nat, p: Page)
    requires Sound(s, g) && Sharing(s, g, s1, g1, s3, g3, c, p)
    ensures Ok(s3, g3) && Window(s3, g3) && IsRoot(g3.role, s.cr3)
  {
    RewiredWindow(s, g, s1, g1, (s.cr3, p), Base(g.maps.user[(s.cr3, p)]) + COW_USER);
    ChildWindow(s1, g1, c, s3, g3, p, Base(g.maps.user[(s.cr3, p)]) + COW_USER, s.cr3);
  }

  lemma RewiredWindow(s: Vm, g: Shape, s1: Vm, g1: Shape, key: Key, w: nat)
    requires Sound(s, g) && Rewired(s, g, s1, g1, key, w)
    ensures Ok(s1, g1) && Window(s1, g1) && g1.role == g.role && IsRoot(g1.role, s.cr3)
  {
  }

  lemma ChildWindow(s: Vm, g: Shape, c: nat, s': Vm, g': Shape, p: Page, w: nat, r: nat)
    requires Ok(s, g) && Window(s, g) && IsRoot(g.role, c) && p.i4 < 510 && IsRoot(g.role, r)
    requires MapsTo(s.(cr3 := c), g, s', g', p, w)
    ensures Window(s', g') && IsRoot(g'.role, r)
  {
    SwitchOk(s, g, c);
    MapsToKept(s.(cr3 := c), g, s', g', p, w);
    UserMapWindow(s.(cr3 := c), g, s', g', p, w);
  }

  /** The count is raised, and the parent's space is the current one again. */
  lemma ShareEnd(s: Vm, g: Shape, r: nat, f: nat)
    requires Ok(s, g) && Window(s, g) && IsRoot(g.role, r) && Exact(g.maps.user, s.alloc.Share(f).0.counts, g.role)
    requires Used(g.maps.user, g.role.Values)
    ensures Sound(s.(cr3 := r, alloc := s.alloc.Share(f).0), g)
  {
    ShareCounts(s, g, f);
    SwitchOk(s.(alloc := s.alloc.Share(f).0), g, r);
  }

  lemma ShareSound(s: Vm, g: Shape, s1: Vm, g1: Shape, s3: Vm, g3: Shape, c: nat, p: Page)
    requires Sound(s, g) && Sharing(s, g, s1, g1, s3, g3, c, p) && Shared(s, g, s3, g3, c, p)
    ensures var f := Base(g.maps.user[(s.cr3, p)]);
            Sound(s3.(cr3 := s.cr3, alloc := s3.alloc.Share(f).0), g3)
  {
    var f := Base(g.maps.user[(s.cr3, p)]);
    ShareCounted(s, g, s3, g3, c, p);
    SharedUsed(s, g, s3, g3, c, p);
    SharedWindow(s, g, s1, g1, s3, g3, c, p);
    ShareEnd(s3, g3, s.cr3, f);
  }

  lemma ShareStep(s: Vm, g: Shape, s1: Vm, g1: Shape, s3: Vm, g3: Shape, c: nat, p: Page)
    requires Sound(s, g) && Sharing(s, g, s1, g1, s3, g3, c, p)
    ensures var f := Base(g.maps.user[(s.cr3, p)]);
            Duplicated(s, g, s3.(cr3 := s.cr3, alloc := s3.alloc.Share(f).0), g3, c, p)
    ensures var f := Base(g.maps.user[(s.cr3, p)]);
            Stray(s3.(cr3 := s.cr3, alloc := s3.alloc.Share(f).0), g3) == Stray(s, g)
  {
    SharedMap(s, g, s1, g1, s3, g3, c, p);
    ShareBare(s, g, s1, g1, s3, g3, c, p);
    ShareStray(s, g, s3, g3, c, p);
    ShareSound(s, g, s1, g1, s3, g3, c, p);
    ShareViews(s, g, s3, g3, c, p);
    ShareElsewhere(s, g, s1, g1, s3, g3, c, p);
  }

  lemma ShareBare(s: Vm, g: Shape, s1: Vm, g1: Shape, s3: Vm, g3: Shape, c: nat, p: Page)
    requires Sound(s, g) && Sharing(s, g, s1, g1, s3, g3, c, p)
    ensures Bare(s3, g3) == Bare(s, g)
  {
    SwitchOk(s1, g1, c);
    BareGrown(s1.(cr3 := c), g1, s3, g3);
  }

  /** The same frames are mapped as before. */
  lemma ShareStray(s: Vm, g: Shape, s3: Vm, g3: Shape, c: nat, p: Page)
    requires Shared(s, g, s3, g3, c, p) && Bare(s3, g3) == Bare(s, g)
    ensures Stray(s3.(cr3 := s.cr3, alloc := s3.alloc.Share(Base(g.maps.user[(s.cr3, p)])).0), g3) == Stray(s, g)
  {
    var u, u3, f := g.maps.user, g3.maps.user, Base(g.maps.user[(s.cr3, p)]);
    var s4 := s3.(cr3 := s.cr3, alloc := s3.alloc.Share(f).0);
    assert Bare(s4, g3) == Bare(s, g);
    assert (s.cr3, p) in Refs(u, f) && (s.cr3, p) in Refs(u3, f);
    forall h: nat | h != f ensures Refs(u3, h) == Refs(u, h) {
    }
  }

  lemma ShareViews(s: Vm, g: Shape, s3: Vm, g3: Shape, c: nat, p: Page)
    requires Shared(s, g, s3, g3, c, p)
    ensures forall key :: key != (c, p) ==> SeesSame(g.maps.user, s.mem, g3.maps.user, s3.mem, key)
    ensures View(g3.maps.user, s3.mem, (c, p)) == View(g.maps.user, s.mem, (s.cr3, p))
    ensures g3.maps.user.Keys == g.maps.user.Keys + {(c, p)}
  {
    var u := g.maps.user;
    assert ShareTarget(s, g, s3, g3, Base(u[(s.cr3, p)]));
    forall key | key != (c, p)
      ensures SeesSame(u, s.mem, g3.maps.user, s3.mem, key)
    {
      assert key in u ==> ShareTarget(s, g, s3, g3, Base(u[key]));
    }
  }

  lemma ShareElsewhere(s: Vm, g: Shape, s1: Vm, g1: Shape, s3: Vm, g3: Shape, c: nat, p: Page)
    requires Sound(s, g) && Sharing(s, g, s1, g1, s3, g3, c, p)
    ensures SamePts(s.mem, s3.mem, g.role, Some(c)) && forall r: nat :: IsRoot(g.role, r) ==> IsRoot(g3.role, r)
  {
    MapsToKept(s1.(cr3 := c), g1, s3, g3, p, Base(g.maps.user[(s.cr3, p)]) + COW_USER);
    forall r: nat, q: Page | IsRoot(g.role, r) && q.i4 < 510 && r != c
      ensures PtSame(s.mem, s3.mem, r, q)
    {
      assert PtSame(s.mem, s1.mem, r, q) && PtSame(s1.mem, s3.mem, r, q);
    }
  }

  ghost predicate ShareTarget(s: Vm, g: Shape, s3: Vm, g3: Shape, t: nat) {
    && Counted(s.alloc.counts, t) && t !in g.role && t !in g3.role
    && t in s3.alloc.counts && s3.alloc.counts[t] == s.alloc.counts[t] && FrameSame(s.mem, s3.mem, t)
  }

  lemma ShareKeeps(s: Vm, g: Shape, s1: Vm, g1: Shape, s3: Vm, g3: Shape, key: Key)
    requires Sound(s, g) && key in g.maps.user && s1 == s.(mem := s1.mem) && g1.role == g.role
    requires DataSame(s.mem, s1.mem, g.role)
    requires AllKept(s1.alloc.counts, s1.mem, g1.role, s3.alloc.counts, s3.mem, g3.role)
    ensures ShareTarget(s, g, s3, g3, Base(g.maps.user[key]))
  {
    assert EntryOk(g.maps.user, s.alloc.counts, g.role, key);
    var t := Base(g.maps.user[key]);
    assert key in Refs(g.maps.user, t);
    assert FrameOk(s.mem, t);
    assert FrameSame(s.mem, s1.mem, t);
    assert Kept(s1.alloc.counts, s1.mem, g1.role, s3.alloc.counts, s3.mem, g3.role, t);
  }

  lemma ShareCounts(s: Vm, g: Shape, f: nat)
    requires Ok(s, g)
    ensures Ok(s.(alloc := s.alloc.Share(f).0), g)
  {
    forall h: nat | h in g.role ensures Counted(s.alloc.Share(f).0.counts, h) {
      assert Counted(s.alloc.counts, h);
    }
  }

  /** The two entries of a sharing round. */
  method ShareEntries(s: Vm, ghost g: Shape, va: nat, c: nat, pte: nat)
    returns (ok: bool, paddr: nat, ghost s1: Vm, ghost g1: Shape, s': Vm, ghost g': Shape)
    requires Sound(s, g) && va < USER_END && IsRoot(g.role, c) && c != s.cr3
    requires (s.cr3, PageOf(va)) in g.maps.user && g.maps.user[(s.cr3, PageOf(va))] == pte && (c, PageOf(va)) !in g.maps.user
    ensures ok <==> Missing(g.role.Values, c, PageOf(va)) <= |s.alloc.free|
    ensures ok ==> Base(paddr) == Base(pte) && Sharing(s, g, s1, g1, s', g', c, PageOf(va))
  {
    UserHalf(va);
    CowWord(s, g, (s.cr3, PageOf(va)));
    var s2;
    paddr, s2, g1 := MakeCow(s, g, va, pte);
    s1 := s2;
    ok, s', g' := MapInChild(s2, g1, va, c, paddr, COW_USER);
  }

  /** One sharing round for a present page of a vma other than the stack. */
  method ShareOne(s: Vm, ghost g: Shape, va: nat, c: nat, pte: nat) returns (ok: bool, s': Vm, ghost g': Shape)
    requires Sound(s, g) && va < USER_END && IsRoot(g.role, c) && c != s.cr3
    requires (s.cr3, PageOf(va)) in g.maps.user && g.maps.user[(s.cr3, PageOf(va))] == pte && (c, PageOf(va)) !in g.maps.user
    ensures ok ==> Duplicated(s, g, s', g', c, PageOf(va))
    ensures ok <==> NewTables(Pages(g.maps.user, c), PageOf(va)) <= |s.alloc.free|
    ensures ok ==> |s'.alloc.free| == |s.alloc.free| - NewTables(Pages(g.maps.user, c), PageOf(va))
    ensures ok ==> Stray(s', g') == Stray(s, g)
  {
    UserHalf(va);
    MissingIsNew(s, g, c, PageOf(va));
    var paddr, s3;
    ghost var s1, g1;
    ok, paddr, s1, g1, s3, g' := ShareEntries(s, g, va, c, pte);
    s' := s3;
    if ok {
      ShareStep(s, g, s1, g1, s3, g', c, PageOf(va));
      s' := s3.(cr3 := s.cr3, alloc := s3.alloc.Share(Base(paddr)).0);
    }
  }

  /** map_page in the child's space. */
  method MapInChild(s: Vm, ghost g: Shape, va: nat, c: nat, paddr: nat, flags: nat) returns (ok: bool, s': Vm, ghost g': Shape)
    requires Ok(s, g) && va < USER_END && IsRoot(g.role, c) && (c, PageOf(va)) !in g.maps.user
    requires (flags == COW_USER || flags == RW_USER) && paddr !in g.role && (paddr % PGSIZE == 0 || paddr % PGSIZE == flags)
    ensures ok <==> Missing(g.role.Values, c, PageOf(va)) <= |s.alloc.free|
    ensures ok ==> Ok(s', g') && MapsTo(s.(cr3 := c), g, s', g', PageOf(va), Base(paddr) + flags)
  {
    UserHalf(va);
    SwitchOk(s, g, c);
    ok, s', g' := MapPage(s.(cr3 := c), g, paddr, va, flags);
  }

  lemma CowWord(s: Vm, g: Shape, key: Key)
    requires Sound(s, g) && key in g.maps.user
    ensures var w := Base(g.maps.user[key]) + COW_USER;
            w % PGSIZE == COW_USER && Base(w) == Base(g.maps.user[key]) && w !in g.role
  {
    assert EntryOk(g.maps.user, s.alloc.counts, g.role, key);
    assert FrameOk(s.mem, Base(g.maps.user[key]));
    var w := Base(g.maps.user[key]) + COW_USER;
    BaseAdd(Base(g.maps.user[key]), COW_USER);
    assert w in g.role ==> FrameOk(s.mem, w);
  }

  /** Quiet steps before and after do not spoil a duplicated page. */
  lemma DuplicatedBetween(s: Vm, g: Shape, s1: Vm, g1: Shape, s2: Vm, g2: Shape, s3: Vm, g3: Shape, c: nat, p: Page)
    requires Quiet(s, g, s1, g1) && Duplicated(s1, g1, s2, g2, c, p) && Quiet(s2, g2, s3, g3)
    ensures Duplicated(s, g, s3, g3, c, p)
  {
    UserStepTrans(s, g, s1, g1, s2, g2, None, Some(c));
    UserStepQuiet(s, g, s2, g2, s3, g3, Some(c));
    assert SeesSame(g.maps.user, s.mem, g1.maps.user, s1.mem, (s.cr3, p));
    assert SeesSame(g2.maps.user, s2.mem, g3.maps.user, s3.mem, (c, p));
    forall key | key != (c, p)
      ensures SeesSame(g.maps.user, s.mem, g3.maps.user, s3.mem, key)
    {
      assert SeesSame(g.maps.user, s.mem, g1.maps.user, s1.mem, key);
      assert SeesSame(g1.maps.user, s1.mem, g2.maps.user, s2.mem, key);
      assert SeesSame(g2.maps.user, s2.mem, g3.maps.user, s3.mem, key);
    }
  }

  lemma UserStepQuiet(s: Vm, g: Shape, s1: Vm, g1: Shape, s2: Vm, g2: Shape, e: Option<nat>)
    requires UserStep(s, g, s1, g1, e) && UserStep(s1, g1, s2, g2, None)
    ensures UserStep(s, g, s2, g2, e)
  {
    forall r: nat, p: Page | IsRoot(g.role, r) && p.i4 < 510 && e != Some(r)
      ensures PtSame(s.mem, s2.mem, r, p)
    {
      assert PtSame(s.mem, s1.mem, r, p) && PtSame(s1.mem, s2.mem, r, p);
    }
  }

  lemma StraySwitch(s: Vm, g: Shape, c: nat)
    ensures Stray(s.(cr3 := c), g) == Stray(s, g)
  {
    StraySame(s, g, s.(cr3 := c), g);
  }

  /** Mapping a filled loose frame in the child's space. */
  lemma CopyStep(s: Vm, g: Shape, s': Vm, g': Shape, c: nat, p: Page, b: nat)
    requires Sound(s, g) && Loose(s, g, b) && IsRoot(g.role, c) && p.i4 < 510 && (c, p) !in g.maps.user
    requires s.mem[b] == View(g.maps.user, s.mem, (s.cr3, p))
    requires Ok(s', g') && MapsTo(s.(cr3 := c), g, s', g', p, b + RW_USER)
    ensures Duplicated(s, g, s'.(cr3 := s.cr3), g', c, p) && Stray(s'.(cr3 := s.cr3), g') == Stray(s, g) - {b}
  {
    SwitchOk(s, g, c);
    MapLoose(s.(cr3 := c), g, s', g', p, b);
    BareGrown(s.(cr3 := c), g, s', g');
    StrayMapped(s.(cr3 := c), g, s', g', (c, p), b);
    StraySwitch(s, g, c);
    StraySwitch(s', g', s.cr3);
    SwitchOk(s', g', s.cr3);
  }

  /** The copy, in frame `b`, is mapped in the child's space. */
  method MapCopy(s: Vm, ghost g: Shape, va: nat, c: nat, b: nat) returns (ok: bool, s': Vm, ghost g': Shape)
    requires Sound(s, g) && Loose(s, g, b) && va < USER_END && IsRoot(g.role, c) && (c, PageOf(va)) !in g.maps.user
    requires s.mem[b] == View(g.maps.user, s.mem, (s.cr3, PageOf(va)))
    ensures ok ==> Duplicated(s, g, s', g', c, PageOf(va))
    ensures ok <==> NewTables(Pages(g.maps.user, c), PageOf(va)) <= |s.alloc.free|
    ensures ok ==> |s'.alloc.free| == |s.alloc.free| - NewTables(Pages(g.maps.user, c), PageOf(va))
    ensures ok ==> Stray(s', g') == Stray(s, g) - {b}
  {
    UserHalf(va);
    MissingIsNew(s, g, c, PageOf(va));
    FlagWord(b, RW_USER);
    ok, s', g' := MapInChild(s, g, va, c, b, RW_USER);
    if ok {
      CopyStep(s, g, s', g', c, PageOf(va), b);
      s' := s'.(cr3 := s.cr3);
    }
  }

  /** One copying round for a present stack page. */
  method CopyOne(s: Vm, ghost g: Shape, va: nat, c: nat) returns (ok: bool, s': Vm, ghost g': Shape)
    requires Sound(s, g) && va < USER_END && IsRoot(g.role, c) && c != s.cr3
    requires (s.cr3, PageOf(va)) in g.maps.user && (c, PageOf(va)) !in g.maps.user
    ensures ok ==> Duplicated(s, g, s', g', c, PageOf(va))
    ensures ok <==> 1 + NewTables(Pages(g.maps.user, c), PageOf(va)) <= |s.alloc.free|
    ensures ok ==> |s'.alloc.free| == |s.alloc.free| - 1 - NewTables(Pages(g.maps.user, c), PageOf(va))
    ensures ok ==> Stray(s', g') == Stray(s, g)
  {
    UserHalf(va);
    var ok2, b, s2, g2 := CopyOut(s, g, va);
    if !ok2 {
      return false, s, g;
    }
    var ok3, s3, g3 := MapCopy(s2, g2, va, c, b);
    if !ok3 {
      return false, s3, g3;
    }
    ok := true;
    s', g' := CloseTemp(s3, g3);
    DuplicatedBetween(s, g, s2, g2, s3, g3, s', g', c, PageOf(va));
  }

  /** free_temp after the copy. */
  method CloseTemp(s: Vm, ghost g: Shape) returns (s': Vm, ghost g': Shape)
    requires Sound(s, g)
    ensures Quiet(s, g, s', g') && s'.alloc == s.alloc && Stray(s', g') == Stray(s, g)
  {
    s', g' := FreeTemp(s, g);
    TempFreed(s, g, s', g');
    StraySame(s, g, s', g');
  }

  // -------------------------------------------------------------- the loops

  /** The pages in `done` have been duplicated from space s0.cr3 into space `c`; nothing else has changed. */
  ghost predicate Forking(s0: Vm, g0: Shape, s: Vm, g: Shape, c: nat, done: set<Page>) {
    var u0, u := g0.maps.user, g.maps.user;
    && UserStep(s0, g0, s, g, Some(c)) && IsRoot(g0.role, c) && c != s0.cr3
    && (forall key: Key {:trigger key in u} :: key.0 != c ==> (key in u <==> key in u0))
    && (forall p {:trigger (c, p) in u} :: (c, p) in u <==> p in done)
    && (forall key: Key {:trigger SeesSame(u0, s0.mem, u, s.mem, key)} :: key.0 != c ==> SeesSame(u0, s0.mem, u, s.mem, key))
    && (forall p {:trigger CopiedPage(s0, g0, s, g, c, p)} :: p in done ==> CopiedPage(s0, g0, s, g, c, p))
    && |s.alloc.free| + ForkCost(done) == |s0.alloc.free| && Stray(s, g) == Stray(s0, g0)
  }

  predicate OnStack(p: Page) {
    STACK_BASE <= UserAddr(p)
  }

  ghost function StackPages(S: set<Page>): set<Page> {
    set p | p in S && OnStack(p)
  }

  /** Frames a child takes that has the pages of `S`: its tables, and a copy of each stack page. */
  ghost function ForkCost(S: set<Page>): nat {
    TableCount(S) + |StackPages(S)|
  }

  lemma ForkCostNext(S: set<Page>, p: Page)
    requires p !in S
    ensures ForkCost(S + {p}) == ForkCost(S) + NewTables(S, p) + if OnStack(p) then 1 else 0
  {
    OneMoreTables(S, p);
    assert StackPages(S + {p}) == if OnStack(p) then StackPages(S) + {p} else StackPages(S);
  }

  lemma {:induction false} ForkCostMono(S: set<Page>, T: set<Page>)
    requires S <= T
    ensures ForkCost(S) <= ForkCost(T)
    decreases |T - S|
  {
    if p :| p in T && p !in S {
      ForkCostNext(S, p);
      ForkCostMono(S + {p}, T);
    } else {
      assert S == T;
    }
  }

  /** If the frames do not suffice for one page more, they do not for all of the parent's. */
  lemma ForkStops(s0: Vm, g0: Shape, s: Vm, g: Shape, c: nat, done: set<Page>, p: Page, need: nat)
    requires Forking(s0, g0, s, g, c, done) && p !in done && (s0.cr3, p) in g0.maps.user
    requires need == NewTables(done, p) + (if OnStack(p) then 1 else 0) && |s.alloc.free| < need
    ensures ForkCost(Pages(g0.maps.user, s0.cr3)) > |s0.alloc.free|
  {
    ForkCostNext(done, p);
    forall q | q in done ensures q in Pages(g0.maps.user, s0.cr3) {
      assert CopiedPage(s0, g0, s, g, c, q);
    }
    assert p in Pages(g0.maps.user, s0.cr3);
    ForkCostMono(done + {p}, Pages(g0.maps.user, s0.cr3));
  }

  lemma ChildPages(s0: Vm, g0: Shape, s: Vm, g: Shape, c: nat, done: set<Page>)
    requires Forking(s0, g0, s, g, c, done)
    ensures Pages(g.maps.user, c) == done
  {
    forall p: Page ensures p in Pages(g.maps.user, c) <==> p in done {
      assert (c, p) in g.maps.user <==> p in done;
    }
  }

  ghost predicate CopiedPage(s0: Vm, g0: Shape, s: Vm, g: Shape, c: nat, p: Page) {
    (s0.cr3, p) in g0.maps.user && View(g.maps.user, s.mem, (c, p)) == View(g0.maps.user, s0.mem, (s0.cr3, p))
  }

  lemma ForkingStart(s: Vm, g: Shape, c: nat)
    requires Sound(s, g) && IsRoot(g.role, c) && c != s.cr3 && (forall p: Page :: (c, p) !in g.maps.user)
    ensures Forking(s, g, s, g, c, {})
  {
    NoCost();
  }

  lemma NoCost()
    ensures ForkCost({}) == 0
  {
    assert Pdpts({}) == {} && Pds({}) == {} && Pts({}) == {} && StackPages({}) == {};
  }

  lemma ForkingStep(s0: Vm, g0: Shape, s: Vm, g: Shape, s': Vm, g': Shape, c: nat, done: set<Page>, p: Page)
    requires Forking(s0, g0, s, g, c, done) && Duplicated(s, g, s', g', c, p) && (s.cr3, p) in g.maps.user && p !in done
    requires |s'.alloc.free| == |s.alloc.free| - NewTables(done, p) - (if OnStack(p) then 1 else 0) && Stray(s', g') == Stray(s, g)
    ensures Forking(s0, g0, s', g', c, done + {p})
  {
    ForkCostNext(done, p);
    UserStepTrans(s0, g0, s, g, s', g', Some(c), Some(c));
    ForkingViews(s0, g0, s, g, s', g', c, done, p);
    ForkingKeys(s0, g0, s, g, s', g', c, done, p);
  }

  lemma ForkingKeys(s0: Vm, g0: Shape, s: Vm, g: Shape, s': Vm, g': Shape, c: nat, done: set<Page>, p: Page)
    requires Forking(s0, g0, s, g, c, done) && Duplicated(s, g, s', g', c, p)
    ensures forall key: Key {:trigger key in g'.maps.user} :: key.0 != c ==> (key in g'.maps.user <==> key in g0.maps.user)
    ensures forall q {:trigger (c, q) in g'.maps.user} :: (c, q) in g'.maps.user <==> q in done + {p}
  {
    forall q: Page ensures (c, q) in g'.maps.user <==> q in done + {p} {
      assert (c, q) in g.maps.user <==> q in done;
    }
  }

  lemma ForkingViews(s0: Vm, g0: Shape, s: Vm, g: Shape, s': Vm, g': Shape, c: nat, done: set<Page>, p: Page)
    requires Forking(s0, g0, s, g, c, done) && Duplicated(s, g, s', g', c, p) && (s.cr3, p) in g.maps.user
    ensures forall key: Key {:trigger SeesSame(g0.maps.user, s0.mem, g'.maps.user, s'.mem, key)} ::
              key.0 != c ==> SeesSame(g0.maps.user, s0.mem, g'.maps.user, s'.mem, key)
    ensures forall q {:trigger CopiedPage(s0, g0, s', g', c, q)} :: q in done || q == p ==> CopiedPage(s0, g0, s', g', c, q)
  {
    forall key: Key | key.0 != c
      ensures SeesSame(g0.maps.user, s0.mem, g'.maps.user, s'.mem, key)
    {
      assert SeesSame(g0.maps.user, s0.mem, g.maps.user, s.mem, key) && SeesSame(g.maps.user, s.mem, g'.maps.user, s'.mem, key);
    }
    forall q | q in done || q == p
      ensures CopiedPage(s0, g0, s', g', c, q)
    {
      assert SeesSame(g0.maps.user, s0.mem, g.maps.user, s.mem, (s.cr3, p));
      if q != p {
        assert CopiedPage(s0, g0, s, g, c, q);
        assert SeesSame(g.maps.user, s.mem, g'.maps.user, s'.mem, (c, q));
      }
    }
  }

  /** Once every present page of the parent is done, the child sees exactly what the parent saw. */
  lemma ForkingDone(s0: Vm, g0: Shape, s: Vm, g: Shape, c: nat, done: set<Page>, p: Page)
    requires Forking(s0, g0, s, g, c, done)
    requires forall q: Page :: (s0.cr3, q) in g0.maps.user ==> q in done
    ensures View(g.maps.user, s.mem, (c, p)) == View(g0.maps.user, s0.mem, (s0.cr3, p))
  {
    if p in done {
      assert CopiedPage(s0, g0, s, g, c, p);
    } else {
      assert (c, p) !in g.maps.user;
    }
  }

  datatype ForkResult = Forked | NoTable | NoMemory

  /** A page address the loops have passed: in an earlier vma, or in the done part of the current one. */
  ghost predicate Reached(vm: seq<Vma>, lo: nat, hi: nat, a: nat) {
    lo <= a < hi || exists i :: 0 <= i < |vm| && Touches(vm[i], a)
  }

  /** `done` holds the parent's present pages that have been passed. */
  ghost predicate Passed(u0: UserMap, r: nat, vm: seq<Vma>, lo: nat, hi: nat, done: set<Page>) {
    forall p: Page {:trigger p in done} :: p in done <==> (r, p) in u0 && Reached(vm, lo, hi, UserAddr(p))
  }

  lemma BelowStackPage(va: nat)
    requires va < STACK_BASE
    ensures !OnStack(PageOf(va))
  {
    UserPage(va);
  }

  /** One round of the sharing loop, for the page at `va`. */
  method ShareRound(ghost s0: Vm, ghost g0: Shape, s: Vm, ghost g: Shape, c: nat, va: nat, ghost done: set<Page>)
    returns (r: ForkResult, s': Vm, ghost g': Shape, ghost done': set<Page>)
    requires Sound(s0, g0) && Forking(s0, g0, s, g, c, done) && va < STACK_BASE && PageOf(va) !in done
    ensures r.Forked? ==> Forking(s0, g0, s', g', c, done')
    ensures r.Forked? ==> done' == if (s0.cr3, PageOf(va)) in g0.maps.user then done + {PageOf(va)} else done
    ensures r.NoTable? <==> !TableFor(s0.mem, s0.cr3, va)
    ensures r.NoMemory? ==> ForkCost(Pages(g0.maps.user, s0.cr3)) > |s0.alloc.free|
  {
    UserHalf(va);
    s', g', done' := s, g, done;
    assert PtSame(s0.mem, s.mem, s0.cr3, PageOf(va));
    if PtFor(s.mem, s.cr3, PageOf(va)).None? {
      return NoTable, s', g', done';
    }
    var pte := ReadPte(s, g, va);
    if IsPresent(pte) {
      ChildPages(s0, g0, s, g, c, done);
      BelowStackPage(va);
      var ok1, s1, g1 := ShareOne(s, g, va, c, pte);
      if !ok1 {
        ForkStops(s0, g0, s, g, c, done, PageOf(va), NewTables(done, PageOf(va)));
        return NoMemory, s1, g1, done;
      }
      ForkingStep(s0, g0, s, g, s1, g1, c, done, PageOf(va));
      s', g', done' := s1, g1, done + {PageOf(va)};
    }
    r := Forked;
  }

  /** One round of the stack loop; `present` is false where the loop stops. */
  method CopyRound(ghost s0: Vm, ghost g0: Shape, s: Vm, ghost g: Shape, c: nat, va: nat, ghost done: set<Page>)
    returns (r: ForkResult, present: bool, s': Vm, ghost g': Shape, ghost done': set<Page>)
    requires Sound(s0, g0) && Forking(s0, g0, s, g, c, done) && STACK_BASE <= va < USER_END && va % PGSIZE == 0 && PageOf(va) !in done
    ensures r.Forked? ==> Forking(s0, g0, s', g', c, done')
    ensures r.Forked? ==> done' == if present then done + {PageOf(va)} else done
    ensures r.Forked? ==> (present <==> (s0.cr3, PageOf(va)) in g0.maps.user)
    ensures r.NoTable? <==> !TableFor(s0.mem, s0.cr3, va)
    ensures r.NoMemory? ==> ForkCost(Pages(g0.maps.user, s0.cr3)) > |s0.alloc.free|
  {
    UserHalf(va);
    s', g', done', present := s, g, done, false;
    assert PtSame(s0.mem, s.mem, s0.cr3, PageOf(va));
    if PtFor(s.mem, s.cr3, PageOf(va)).None? {
      return NoTable, present, s', g', done';
    }
    var pte := ReadPte(s, g, va);
    if IsPresent(pte) {
      ChildPages(s0, g0, s, g, c, done);
      UserPage(va);
      var ok1, s1, g1 := CopyOne(s, g, va, c);
      if !ok1 {
        ForkStops(s0, g0, s, g, c, done, PageOf(va), 1 + NewTables(done, PageOf(va)));
        return NoMemory, present, s1, g1, done;
      }
      ForkingStep(s0, g0, s, g, s1, g1, c, done, PageOf(va));
      s', g', done', present := s1, g1, done + {PageOf(va)}, true;
    }
    r := Forked;
  }

  /** All mapped pages of space `r` are in the lower half. */
  ghost predicate LowerHalf(u: UserMap, r: nat) {
    forall p: Page :: (r, p) in u ==> p.i4 < 256
  }

  /** The page at `va` has not been passed while the loops stand at it. */
  lemma NotPassed(u0: UserMap, r: nat, vm: seq<Vma>, lo: nat, hi: nat, done: set<Page>, v: Vma, q: Page)
    requires Passed(u0, r, vm, lo, hi, done) && Touches(v, UserAddr(q)) && !(lo <= UserAddr(q) < hi)
    requires forall i :: 0 <= i < |vm| ==> PageDisjoint(vm[i], v)
    ensures q !in done
  {
    if q in done {
      var i :| 0 <= i < |vm| && Touches(vm[i], UserAddr(q));
      TouchOnce(vm[i], v, UserAddr(q));
    }
  }

  lemma TouchOnce(u: Vma, v: Vma, a: nat)
    requires PageDisjoint(u, v)
    ensures !(Touches(u, a) && Touches(v, a))
  {
  }

  /** Passing one more page at either end of the current range. */
  lemma PassPage(u0: UserMap, r: nat, vm: seq<Vma>, lo: nat, hi: nat, lo': nat, hi': nat, done: set<Page>, q: Page)
    requires Passed(u0, r, vm, lo, hi, done) && LowerHalf(u0, r) && q.i4 < 256
    requires var va := UserAddr(q);
             (lo' == lo <= va == hi && hi' == va + PGSIZE) || (lo' == va && lo == va + PGSIZE <= hi == hi')
    ensures Passed(u0, r, vm, lo', hi', if (r, q) in u0 then done + {q} else done)
  {
    forall p: Page | (r, p) in u0
      ensures Reached(vm, lo', hi', UserAddr(p)) <==> Reached(vm, lo, hi, UserAddr(p)) || p == q
    {
      NextPage(p, q);
    }
  }

  /** The range [lo, hi) was the whole of vma `v`, as far as present pages go. */
  lemma PassVma(u0: UserMap, r: nat, vm: seq<Vma>, lo: nat, hi: nat, done: set<Page>, v: Vma)
    requires Passed(u0, r, vm, lo, hi, done)
    requires forall p: Page :: (r, p) in u0 ==> (lo <= UserAddr(p) < hi <==> Touches(v, UserAddr(p)))
    ensures Passed(u0, r, vm + [v], 0, 0, done)
  {
    forall p: Page | (r, p) in u0
      ensures Reached(vm + [v], 0, 0, UserAddr(p)) <==> Reached(vm, lo, hi, UserAddr(p))
    {
      var a := UserAddr(p);
      if Touches(v, a) {
        assert Touches((vm + [v])[|vm|], a);
      }
      if i :| 0 <= i < |vm| && Touches(vm[i], a) {
        assert Touches((vm + [v])[i], a);
      }
    }
  }

  lemma PassUp(u0: UserMap, r: nat, vm: seq<Vma>, v: Vma, va: nat, done: set<Page>)
    requires Passed(u0, r, vm, AlignDown(v.start), va, done) && LowerHalf(u0, r) && va % PGSIZE == 0
    requires AlignDown(v.start) <= va < v.end <= USER_END && forall i :: 0 <= i < |vm| ==> PageDisjoint(vm[i], v)
    ensures PageOf(va) !in done
    ensures Passed(u0, r, vm, AlignDown(v.start), va + PGSIZE, if (r, PageOf(va)) in u0 then done + {PageOf(va)} else done)
  {
    UserPage(va);
    NotPassed(u0, r, vm, AlignDown(v.start), va, done, v, PageOf(va));
    PassPage(u0, r, vm, AlignDown(v.start), va, AlignDown(v.start), va + PGSIZE, done, PageOf(va));
  }

  /** Every page the byte range reaches into has a page table in space `r`. */
  ghost predicate HasTables(mem: Memory, r: nat, v: Vma, hi: nat) {
    forall a: nat {:trigger TableFor(mem, r, a)} :: AlignDown(v.start) <= a < hi && a % PGSIZE == 0 ==> TableFor(mem, r, a)
  }

  ghost predicate TableFor(mem: Memory, r: nat, a: nat) {
    PtFor(mem, r, PageOf(a)).Some?
  }

  /** What fork's loops rely on about the parent: its invariant, and vmas before `v` that do not overlap it. */
  ghost predicate ForkFrom(s0: Vm, g0: Shape, vm: seq<Vma>, v: Vma) {
    && Sound(s0, g0) && LowerHalf(g0.maps.user, s0.cr3) && v.start <= v.end <= USER_END
    && (forall i :: 0 <= i < |vm| ==> PageDisjoint(vm[i], v))
  }

  /** The loop over vma `v`, when it stands at address `va`. */
  ghost predicate SharingAt(s0: Vm, g0: Shape, s: Vm, g: Shape, c: nat, vm: seq<Vma>, v: Vma, va: nat, done: set<Page>) {
    && va % PGSIZE == 0 && AlignDown(v.start) <= va < v.end + PGSIZE
    && Forking(s0, g0, s, g, c, done)
    && Passed(g0.maps.user, s0.cr3, vm, AlignDown(v.start), va, done)
    && HasTables(s0.mem, s0.cr3, v, va)
  }

  method ShareNext(ghost s0: Vm, ghost g0: Shape, s: Vm, ghost g: Shape, c: nat, ghost vm: seq<Vma>, ghost v: Vma, va: nat, ghost done: set<Page>)
    returns (r: ForkResult, s': Vm, ghost g': Shape, ghost done': set<Page>)
    requires ForkFrom(s0, g0, vm, v) && SharingAt(s0, g0, s, g, c, vm, v, va, done) && va < v.end <= STACK_BASE
    ensures r.Forked? ==> SharingAt(s0, g0, s', g', c, vm, v, va + PGSIZE, done')
    ensures r.NoTable? ==> !HasTables(s0.mem, s0.cr3, v, v.end)
    ensures r.NoMemory? ==> ForkCost(Pages(g0.maps.user, s0.cr3)) > |s0.alloc.free|
  {
    PassUp(g0.maps.user, s0.cr3, vm, v, va, done);
    r, s', g', done' := ShareRound(s0, g0, s, g, c, va, done);
    if r.Forked? {
      AlignedNext(va);
      HasTablesNext(s0.mem, s0.cr3, v, va);
    }
  }

  /** Fork's inner loop over a vma other than the stack. */
  method ShareVma(ghost s0: Vm, ghost g0: Shape, s: Vm, ghost g: Shape, c: nat, ghost vm: seq<Vma>, v: Vma, ghost done: set<Page>)
    returns (r: ForkResult, s': Vm, ghost g': Shape, ghost done': set<Page>)
    requires ForkFrom(s0, g0, vm, v) && Forking(s0, g0, s, g, c, done) && Passed(g0.maps.user, s0.cr3, vm, 0, 0, done)
    requires v.end <= STACK_BASE
    ensures r.Forked? ==> Forking(s0, g0, s', g', c, done') && Passed(g0.maps.user, s0.cr3, vm + [v], 0, 0, done')
    ensures r.Forked? ==> HasTables(s0.mem, s0.cr3, v, v.end)
    ensures r.NoTable? ==> !HasTables(s0.mem, s0.cr3, v, v.end)
    ensures r.NoMemory? ==> ForkCost(Pages(g0.maps.user, s0.cr3)) > |s0.alloc.free|
  {
    var va := AlignDown(v.start);
    s', g', done' := s, g, done;
    SharingStart(s0, g0, s, g, c, vm, v, done);
    while va < v.end
      invariant SharingAt(s0, g0, s', g', c, vm, v, va, done')
      decreases v.end + PGSIZE - va
    {
      r, s', g', done' := ShareNext(s0, g0, s', g', c, vm, v, va, done');
      if !r.Forked? {
        return;
      }
      va := va + PGSIZE;
    }
    SharingEnd(s0, g0, s', g', c, vm, v, va, done');
    r := Forked;
  }

  lemma SharingStart(s0: Vm, g0: Shape, s: Vm, g: Shape, c: nat, vm: seq<Vma>, v: Vma, done: set<Page>)
    requires ForkFrom(s0, g0, vm, v) && Forking(s0, g0, s, g, c, done) && Passed(g0.maps.user, s0.cr3, vm, 0, 0, done)
    ensures SharingAt(s0, g0, s, g, c, vm, v, AlignDown(v.start), done)
  {
    forall p: Page | (s0.cr3, p) in g0.maps.user
      ensures Reached(vm, AlignDown(v.start), AlignDown(v.start), UserAddr(p)) <==> Reached(vm, 0, 0, UserAddr(p))
    {
    }
  }

  lemma SharingEnd(s0: Vm, g0: Shape, s: Vm, g: Shape, c: nat, vm: seq<Vma>, v: Vma, va: nat, done: set<Page>)
    requires ForkFrom(s0, g0, vm, v) && SharingAt(s0, g0, s, g, c, vm, v, va, done) && va >= v.end
    ensures Passed(g0.maps.user, s0.cr3, vm + [v], 0, 0, done) && HasTables(s0.mem, s0.cr3, v, v.end)
  {
    WholeVma(g0.maps.user, s0.cr3, v, va);
    PassVma(g0.maps.user, s0.cr3, vm, AlignDown(v.start), va, done, v);
  }

  lemma HasTablesNext(mem: Memory, r: nat, v: Vma, va: nat)
    requires HasTables(mem, r, v, va) && va % PGSIZE == 0 && TableFor(mem, r, va)
    ensures HasTables(mem, r, v, va + PGSIZE)
  {
    forall a: nat | AlignDown(v.start) <= a < va + PGSIZE && a % PGSIZE == 0
      ensures TableFor(mem, r, a)
    {
      LastAligned(a, va);
      if a != va {
        assert a < va;
      }
    }
  }

  lemma LastAligned(a: nat, b: nat)
    requires a % PGSIZE == 0 && b % PGSIZE == 0 && a < b + PGSIZE
    ensures a <= b
  {
  }

  lemma WholeVma(u0: UserMap, r: nat, v: Vma, va: nat)
    requires LowerHalf(u0, r) && va % PGSIZE == 0 && v.end <= va < v.end + PGSIZE
    ensures forall p: Page :: (r, p) in u0 ==> (AlignDown(v.start) <= UserAddr(p) < va <==> Touches(v, UserAddr(p)))
  {
    forall p: Page | (r, p) in u0
      ensures AlignDown(v.start) <= UserAddr(p) < va <==> Touches(v, UserAddr(p))
    {
      PageOfUserAddr(p);
      AlignedBelow(UserAddr(p), va, v.end);
    }
  }

  lemma AlignedBelow(a: nat, b: nat, end: nat)
    requires a % PGSIZE == 0 && b % PGSIZE == 0 && end <= b < end + PGSIZE
    ensures a < b <==> a < end
  {
  }

  // -------------------------------------------------------------- the stack

  /** The present pages of the range are a run that ends at its top. */
  ghost predicate RunToTop(u: UserMap, r: nat, lo: nat, hi: nat) {
    forall p: Page, q: Page {:trigger (r, p) in u, (r, q) in u} ::
      (r, p) in u && q.i4 < 256 && lo <= UserAddr(p) <= UserAddr(q) < hi ==> (r, q) in u
  }

  /** The stack loop, counting down, when the pages from address `low` up have been copied. */
  ghost predicate CopyingAt(s0: Vm, g0: Shape, s: Vm, g: Shape, c: nat, vm: seq<Vma>, v: Vma, low: nat, done: set<Page>) {
    && low % PGSIZE == 0 && v.start <= low <= v.end
    && Forking(s0, g0, s, g, c, done)
    && Passed(g0.maps.user, s0.cr3, vm, low, v.end, done)
  }

  /** Whether fork's downward copy misses no page: the range is aligned, its tables exist, its pages are a run to the top. */
  ghost predicate StackReady(s0: Vm, g0: Shape, v: Vma) {
    && PGSIZE <= STACK_BASE <= v.start < v.end && v.start % PGSIZE == 0 && v.end % PGSIZE == 0
    && HasTables(s0.mem, s0.cr3, v, v.end)
    && RunToTop(g0.maps.user, s0.cr3, v.start, v.end)
  }

  method CopyNext(ghost s0: Vm, ghost g0: Shape, s: Vm, ghost g: Shape, c: nat, ghost vm: seq<Vma>, ghost v: Vma, va: nat, ghost low: nat, ghost done: set<Page>)
    returns (r: ForkResult, present: bool, s': Vm, ghost g': Shape, ghost done': set<Page>)
    requires ForkFrom(s0, g0, vm, v) && StackReady(s0, g0, v) && CopyingAt(s0, g0, s, g, c, vm, v, low, done)
    requires v.start <= va && low == va + PGSIZE && va % PGSIZE == 0
    ensures r.Forked? && present ==> CopyingAt(s0, g0, s', g', c, vm, v, va, done')
    ensures r.Forked? && !present ==> Forking(s0, g0, s', g', c, done') && Passed(g0.maps.user, s0.cr3, vm + [v], 0, 0, done')
    ensures !r.NoTable?
    ensures r.NoMemory? ==> ForkCost(Pages(g0.maps.user, s0.cr3)) > |s0.alloc.free|
  {
    PassDown(g0.maps.user, s0.cr3, vm, v, va, done);
    r, present, s', g', done' := CopyRound(s0, g0, s, g, c, va, done);
    if r.Forked? && !present {
      PassStop(g0.maps.user, s0.cr3, vm, v, va, done);
    }
  }

  lemma PassDown(u0: UserMap, r: nat, vm: seq<Vma>, v: Vma, va: nat, done: set<Page>)
    requires Passed(u0, r, vm, va + PGSIZE, v.end, done) && LowerHalf(u0, r) && va % PGSIZE == 0
    requires v.start <= va && va + PGSIZE <= v.end <= USER_END && forall i :: 0 <= i < |vm| ==> PageDisjoint(vm[i], v)
    ensures va < USER_END && PageOf(va) !in done
    ensures Passed(u0, r, vm, va, v.end, if (r, PageOf(va)) in u0 then done + {PageOf(va)} else done)
  {
    UserPage(va);
    NotPassed(u0, r, vm, va + PGSIZE, v.end, done, v, PageOf(va));
    PassPage(u0, r, vm, va + PGSIZE, v.end, va, v.end, done, PageOf(va));
  }

  lemma PassStop(u0: UserMap, r: nat, vm: seq<Vma>, v: Vma, va: nat, done: set<Page>)
    requires Passed(u0, r, vm, va + PGSIZE, v.end, done) && LowerHalf(u0, r) && va % PGSIZE == 0
    requires v.start <= va && va + PGSIZE <= v.end <= USER_END && v.start % PGSIZE == 0
    requires RunToTop(u0, r, v.start, v.end) && (r, PageOf(va)) !in u0
    ensures Passed(u0, r, vm + [v], 0, 0, done)
  {
    UserPage(va);
    NothingBelowHere(u0, r, v, va + PGSIZE, PageOf(va));
    PassVma(u0, r, vm, va + PGSIZE, v.end, done, v);
  }

  method PageBefore(x: nat) returns (y: nat)
    requires x % PGSIZE == 0 && PGSIZE <= x
    ensures y == x - PGSIZE && y % PGSIZE == 0
  {
    y := x - PGSIZE;
  }

  lemma AlignedGap(a: nat, b: nat)
    requires a % PGSIZE == 0 && b % PGSIZE == 0 && a < b <= a + PGSIZE
    ensures b == a + PGSIZE
  {
  }

  lemma CopyingStart(s0: Vm, g0: Shape, s: Vm, g: Shape, c: nat, vm: seq<Vma>, v: Vma, done: set<Page>)
    requires StackReady(s0, g0, v) && Forking(s0, g0, s, g, c, done) && Passed(g0.maps.user, s0.cr3, vm, 0, 0, done)
    ensures CopyingAt(s0, g0, s, g, c, vm, v, v.end, done)
  {
    forall p: Page | (s0.cr3, p) in g0.maps.user
      ensures Reached(vm, v.end, v.end, UserAddr(p)) <==> Reached(vm, 0, 0, UserAddr(p))
    {
    }
  }

  /** Below an absent page of a run to the top, nothing is present. */
  lemma NothingBelowHere(u: UserMap, r: nat, v: Vma, hi: nat, q: Page)
    requires RunToTop(u, r, v.start, v.end) && LowerHalf(u, r) && (r, q) !in u && q.i4 < 256
    requires v.start % PGSIZE == 0 && v.start <= UserAddr(q) < v.end && hi == UserAddr(q) + PGSIZE
    ensures forall p: Page :: (r, p) in u ==> (hi <= UserAddr(p) < v.end <==> Touches(v, UserAddr(p)))
  {
    forall p: Page | (r, p) in u
      ensures hi <= UserAddr(p) < v.end <==> Touches(v, UserAddr(p))
    {
      NextPage(p, q);
    }
  }

  lemma WholeStack(u: UserMap, r: nat, v: Vma, lo: nat)
    requires v.start % PGSIZE == 0 && lo == v.start
    ensures forall p: Page :: (r, p) in u ==> (lo <= UserAddr(p) < v.end <==> Touches(v, UserAddr(p)))
  {
  }

  /** Fork's downward copy of the stack, up to the first page that is not present. */
  method CopyStack(ghost s0: Vm, ghost g0: Shape, s: Vm, ghost g: Shape, c: nat, ghost vm: seq<Vma>, v: Vma, ghost done: set<Page>)
    returns (r: ForkResult, s': Vm, ghost g': Shape, ghost done': set<Page>)
    requires ForkFrom(s0, g0, vm, v) && StackReady(s0, g0, v)
    requires Forking(s0, g0, s, g, c, done) && Passed(g0.maps.user, s0.cr3, vm, 0, 0, done)
    ensures r.Forked? ==> Forking(s0, g0, s', g', c, done') && Passed(g0.maps.user, s0.cr3, vm + [v], 0, 0, done')
    ensures !r.NoTable?
    ensures r.NoMemory? ==> ForkCost(Pages(g0.maps.user, s0.cr3)) > |s0.alloc.free|
  {
    var va := PageBefore(AlignDown(v.end));
    ghost var low := v.end;
    s', g', done' := s, g, done;
    CopyingStart(s0, g0, s, g, c, vm, v, done);
    while va >= v.start
      invariant low == va + PGSIZE && va % PGSIZE == 0 && 0 <= va
      invariant CopyingAt(s0, g0, s', g', c, vm, v, low, done')
    {
      var present;
      r, present, s', g', done' := CopyNext(s0, g0, s', g', c, vm, v, va, low, done');
      if !r.Forked? || !present {
        return;
      }
      low := va;
      va := PageBefore(va);
    }
    AlignedGap(va, v.start);
    CopyingEnd(s0, g0, s', g', c, vm, v, low, done');
    r := Forked;
  }

  lemma CopyingEnd(s0: Vm, g0: Shape, s: Vm, g: Shape, c: nat, vm: seq<Vma>, v: Vma, low: nat, done: set<Page>)
    requires StackReady(s0, g0, v) && CopyingAt(s0, g0, s, g, c, vm, v, low, done) && low == v.start
    ensures Passed(g0.maps.user, s0.cr3, vm + [v], 0, 0, done)
  {
    WholeStack(g0.maps.user, s0.cr3, v, low);
    PassVma(g0.maps.user, s0.cr3, vm, low, v.end, done, v);
  }

  // ------------------------------------------------------------ all the vmas

  /** The parent's descriptor and mappings, as fork's walk over the vma list needs them. */
  ghost predicate Forkable(s: Vm, g: Shape, mm: Mm) {
    && Sound(s, g) && LowerHalf(g.maps.user, s.cr3) && WellFormed(mm)
    && StackReady(s, g, mm.vm[|mm.vm| - 1])
  }

  /** Every page fork inspects outside the stack has a page table. */
  ghost predicate AllTables(mem: Memory, r: nat, vm: seq<Vma>) {
    forall i {:trigger vm[i]} :: 0 <= i < |vm| ==> HasTables(mem, r, vm[i], vm[i].end)
  }

  lemma VmaForkFrom(s: Vm, g: Shape, mm: Mm, i: nat)
    requires Forkable(s, g, mm) && i < |mm.vm|
    ensures ForkFrom(s, g, mm.vm[..i], mm.vm[i])
    ensures mm.vm[i].kind == Stack <==> i == |mm.vm| - 1
    ensures i < |mm.vm| - 1 ==> mm.vm[i].end <= STACK_BASE
  {
    AllDisjoint(mm);
  }

  /** The walk over the vma list, when it stands at vma `i`. */
  ghost predicate ForkingAt(s0: Vm, g0: Shape, s: Vm, g: Shape, c: nat, vm: seq<Vma>, i: nat, done: set<Page>) {
    && i <= |vm|
    && Forking(s0, g0, s, g, c, done)
    && Passed(g0.maps.user, s0.cr3, vm[..i], 0, 0, done)
    && AllTables(s0.mem, s0.cr3, vm[..i])
  }

  method ForkVma(ghost s0: Vm, ghost g0: Shape, s: Vm, ghost g: Shape, c: nat, mm: Mm, i: nat, ghost done: set<Page>)
    returns (r: ForkResult, s': Vm, ghost g': Shape, ghost done': set<Page>)
    requires Forkable(s0, g0, mm) && i < |mm.vm| && ForkingAt(s0, g0, s, g, c, mm.vm, i, done)
    ensures r.Forked? ==> ForkingAt(s0, g0, s', g', c, mm.vm, i + 1, done')
    ensures r.NoTable? ==> !AllTables(s0.mem, s0.cr3, mm.vm)
    ensures r.NoMemory? ==> ForkCost(Pages(g0.maps.user, s0.cr3)) > |s0.alloc.free|
  {
    VmaForkFrom(s0, g0, mm, i);
    assert mm.vm[..i + 1] == mm.vm[..i] + [mm.vm[i]];
    if mm.vm[i].kind == Stack {
      r, s', g', done' := CopyStack(s0, g0, s, g, c, mm.vm[..i], mm.vm[i], done);
    } else {
      r, s', g', done' := ShareVma(s0, g0, s, g, c, mm.vm[..i], mm.vm[i], done);
    }
  }

  lemma ForkingAtStart(s: Vm, g: Shape, c: nat, mm: Mm)
    requires Sound(s, g) && IsRoot(g.role, c) && c != s.cr3 && (forall p: Page :: (c, p) !in g.maps.user)
    ensures ForkingAt(s, g, s, g, c, mm.vm, 0, {})
  {
    ForkingStart(s, g, c);
  }

  lemma ForkingAtEnd(s0: Vm, g0: Shape, s: Vm, g: Shape, c: nat, mm: Mm, done: set<Page>)
    requires ForkingAt(s0, g0, s, g, c, mm.vm, |mm.vm|, done)
    ensures Forking(s0, g0, s, g, c, done) && Passed(g0.maps.user, s0.cr3, mm.vm, 0, 0, done) && AllTables(s0.mem, s0.cr3, mm.vm)
  {
    assert mm.vm[..|mm.vm|] == mm.vm;
  }

  /** Fork's outer loop. */
  method ForkVmas(s: Vm, ghost g: Shape, c: nat, mm: Mm) returns (r: ForkResult, s': Vm, ghost g': Shape, ghost done: set<Page>)
    requires Forkable(s, g, mm) && ForkingAt(s, g, s, g, c, mm.vm, 0, {})
    ensures r.Forked? ==> ForkingAt(s, g, s', g', c, mm.vm, |mm.vm|, done)
    ensures r.NoTable? ==> !AllTables(s.mem, s.cr3, mm.vm)
    ensures r.NoMemory? ==> ForkCost(Pages(g.maps.user, s.cr3)) > |s.alloc.free|
  {
    r, s', g', done := Forked, s, g, {};
    var i := 0;
    while i < |mm.vm| && r.Forked?
      invariant r.Forked? ==> ForkingAt(s, g, s', g', c, mm.vm, i, done)
      invariant r.NoTable? ==> !AllTables(s.mem, s.cr3, mm.vm)
      invariant r.NoMemory? ==> ForkCost(Pages(g.maps.user, s.cr3)) > |s.alloc.free|
      decreases |mm.vm| - i
    {
      r, s', g', done := ForkVma(s, g, s', g', c, mm, i, done);
      i := i + 1;
    }
  }

  /** Fork's walk over the vma list: when it completes, every present page of the parent has been duplicated. */
  method ForkPages(s: Vm, ghost g: Shape, c: nat, mm: Mm) returns (r: ForkResult, s': Vm, ghost g': Shape, ghost done: set<Page>)
    requires Forkable(s, g, mm) && IsRoot(g.role, c) && c != s.cr3 && (forall p: Page :: (c, p) !in g.maps.user)
    ensures r.Forked? ==> Forking(s, g, s', g', c, done) && Passed(g.maps.user, s.cr3, mm.vm, 0, 0, done)
    ensures r.Forked? ==> AllTables(s.mem, s.cr3, mm.vm)
    ensures r.NoTable? ==> !AllTables(s.mem, s.cr3, mm.vm)
    ensures r.NoMemory? ==> ForkCost(Pages(g.maps.user, s.cr3)) > |s.alloc.free|
  {
    ForkingAtStart(s, g, c, mm);
    r, s', g', done := ForkVmas(s, g, c, mm);
    if r.Forked? {
      ForkingAtEnd(s, g, s', g', c, mm, done);
    }
  }
}
