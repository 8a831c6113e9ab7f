/**
 Reference counts and ownership of user frames: what copy-on-write sharing,
 breaking a share and demand-zero mapping do to the user mappings, the counts
 and what every process sees in its pages.
 */
module Cow {
  import opened Machine
  import opened Pointers
  import opened PageTable
  import opened Paging

  /** A user page of an address space: the root and the page. */
  type Key = (nat, Page)
  type UserMap = map<Key, nat>

  const COW_USER := PAGE_P + PAGE_U + PAGE_COW

  /** The user page-table entries that map frame `f`, over all address spaces. */
  ghost function Refs(u: UserMap, f: nat): set<Key> {
    set key | key in u && Base(u[key]) == f
  }

  /**
   An entry is writable or copy-on-write; the count of the frame it maps is the
   number of entries mapping it; and if it is writable it is the only one.
   */
  ghost predicate EntryOk(u: UserMap, counts: map<nat, nat>, role: Roles, key: Key)
    requires key in u
  {
    var w, f := u[key], Base(u[key]);
    && (w == f + RW_USER || w == f + COW_USER)
    && f in counts && counts[f] == |Refs(u, f)| && f !in role
    && (w == f + RW_USER ==> Refs(u, f) == {key})
  }

  ghost predicate Exact(u: UserMap, counts: map<nat, nat>, role: Roles) {
    forall key {:trigger EntryOk(u, counts, role, key)} :: key in u ==> EntryOk(u, counts, role, key)
  }

  /** A frame with count 0 is mapped by nobody. */
  lemma FreeUnmapped(u: UserMap, counts: map<nat, nat>, role: Roles, f: nat)
    requires Exact(u, counts, role) && !Counted(counts, f)
    ensures Refs(u, f) == {}
  {
    if key :| key in Refs(u, f) {
      assert EntryOk(u, counts, role, key);
    }
  }

  /** Frames mapped by user pages keep their counts and stay outside the tables. */
  ghost predicate TargetSame(u: UserMap, counts: map<nat, nat>, role: Roles, counts': map<nat, nat>, role': Roles, key: Key)
    requires key in u
  {
    var f := Base(u[key]);
    f in counts ==> f in counts' && counts'[f] == counts[f] && (f !in role ==> f !in role')
  }

  lemma ExactFrame(u: UserMap, counts: map<nat, nat>, role: Roles, counts': map<nat, nat>, role': Roles)
    requires Exact(u, counts, role)
    requires forall key :: key in u ==> TargetSame(u, counts, role, counts', role', key)
    ensures Exact(u, counts', role')
  {
    forall key | key in u ensures EntryOk(u, counts', role', key) {
      assert EntryOk(u, counts, role, key);
    }
  }

  /** Mapping an unshared page with count 1 writable. */
  lemma MapFresh(u: UserMap, counts: map<nat, nat>, role: Roles, key: Key, f: nat)
    requires Exact(u, counts, role) && key !in u
    requires Refs(u, f) == {} && f in counts && counts[f] == 1 && f !in role && f % PGSIZE == 0
    ensures Exact(u[key := f + RW_USER], counts, role)
  {
    var u' := u[key := f + RW_USER];
    BaseAdd(f, RW_USER);
    assert Refs(u', f) == {key};
    forall k | k in u' ensures EntryOk(u', counts, role, k) {
      if k != key {
        assert EntryOk(u, counts, role, k);
        RefsSame(u, u', key, Base(u[k]));
      }
    }
  }

  /** Changing one entry does not change who maps a frame the entry maps neither before nor after. */
  lemma RefsSame(u: UserMap, u': UserMap, key: Key, f: nat)
    requires forall k :: k != key ==> (k in u <==> k in u') && (k in u ==> u'[k] == u[k])
    requires key in u ==> Base(u[key]) != f
    requires key in u' ==> Base(u'[key]) != f
    ensures Refs(u', f) == Refs(u, f)
  {
  }

  /** Fork shares the page at `pk` with the unmapped page at `ck`: both entries become copy-on-write. */
  lemma ShareExact(u: UserMap, counts: map<nat, nat>, role: Roles, pk: Key, ck: Key)
    requires Exact(u, counts, role) && pk in u && ck !in u
    ensures var f := Base(u[pk]);
            f in counts && Exact(u[pk := f + COW_USER][ck := f + COW_USER], counts[f := counts[f] + 1], role)
  {
    assert EntryOk(u, counts, role, pk);
    var f := Base(u[pk]);
    var u1 := u[pk := f + COW_USER];
    var u2, counts' := u1[ck := f + COW_USER], counts[f := counts[f] + 1];
    BaseAdd(f, COW_USER);
    assert Refs(u1, f) == Refs(u, f);
    assert Refs(u2, f) == Refs(u, f) + {ck};
    forall k | k in u2 ensures EntryOk(u2, counts', role, k) {
      if k != pk && k != ck {
        ShareOthers(u, counts, role, pk, ck, k);
      }
    }
  }

  /** The entries that the sharing does not touch. */
  lemma ShareOthers(u: UserMap, counts: map<nat, nat>, role: Roles, pk: Key, ck: Key, k: Key)
    requires Exact(u, counts, role) && pk in u && ck !in u && k in u && k != pk
    ensures var f := Base(u[pk]);
            f in counts && EntryOk(u[pk := f + COW_USER][ck := f + COW_USER], counts[f := counts[f] + 1], role, k)
  {
    assert EntryOk(u, counts, role, pk) && EntryOk(u, counts, role, k);
    var f := Base(u[pk]);
    BaseAdd(f, COW_USER);
    var u1 := u[pk := f + COW_USER];
    var u2 := u1[ck := f + COW_USER];
    if Base(u[k]) == f {
      assert pk in Refs(u, f) && k in Refs(u, f);
      assert Refs(u2, f) == Refs(u, f) + {ck};
    } else {
      RefsSame(u, u1, pk, Base(u[k]));
      RefsSame(u1, u2, ck, Base(u[k]));
    }
  }

  /** A write fault gives the entry at `key` a frame of its own and drops one reference to the shared one. */
  lemma BreakExact(u: UserMap, counts: map<nat, nat>, role: Roles, key: Key, n: nat)
    requires Exact(u, counts, role) && key in u && u[key] == Base(u[key]) + COW_USER
    requires Refs(u, n) == {} && n in counts && counts[n] == 1 && n !in role && n % PGSIZE == 0
    ensures var f := Base(u[key]);
            f in counts && counts[f] > 0 && Exact(u[key := n + RW_USER], counts[f := counts[f] - 1], role)
  {
    assert EntryOk(u, counts, role, key);
    var f := Base(u[key]);
    assert key in Refs(u, f);
    var u', counts' := u[key := n + RW_USER], counts[f := counts[f] - 1];
    BaseAdd(n, RW_USER);
    assert Refs(u', n) == {key};
    assert Refs(u', f) == Refs(u, f) - {key};
    forall k | k in u' ensures EntryOk(u', counts', role, k) {
      if k != key {
        assert EntryOk(u, counts, role, k);
        if Base(u[k]) == f {
          assert k in Refs(u, f);
        } else {
          RefsSame(u, u', key, Base(u[k]));
        }
      }
    }
  }

  // --------------------------------------------------- what processes see

  /** The 512 words a process sees in a page; a page not yet mapped reads as zeros. */
  ghost function View(u: UserMap, mem: Memory, key: Key): seq<nat> {
    if key in u && Base(u[key]) in mem then mem[Base(u[key])] else ZeroFrame()
  }

  ghost predicate SeesSame(u: UserMap, mem: Memory, u': UserMap, mem': Memory, key: Key) {
    View(u', mem', key) == View(u, mem, key)
  }

  /** No process sees any change. */
  ghost predicate SameViews(u: UserMap, mem: Memory, u': UserMap, mem': Memory) {
    forall key {:trigger SeesSame(u, mem, u', mem', key)} :: SeesSame(u, mem, u', mem', key)
  }

  lemma SameViewsTrans(u: UserMap, mem: Memory, u1: UserMap, mem1: Memory, u2: UserMap, mem2: Memory)
    requires SameViews(u, mem, u1, mem1) && SameViews(u1, mem1, u2, mem2)
    ensures SameViews(u, mem, u2, mem2)
  {
    forall key ensures SeesSame(u, mem, u2, mem2, key) {
      assert SeesSame(u, mem, u1, mem1, key) && SeesSame(u1, mem1, u2, mem2, key);
    }
  }
}
