/**
 The physical page allocator of `sys/pmap.c`: a descriptor array with one entry
 per physical page, reference counts, and a singly linked free list threaded
 through the descriptors. Pointers to descriptors are array indices.

 `Alloc` is the simple form: counts by page base, and the free pages in list
 order. `PageAllocator` is the array and its links; each of its methods is
 proved to be the operation of the same name on `Alloc`.
 */
module Pmap {
  import opened Options

  datatype PageResult = Got(base: nat) | OutOfMemory | NonzeroCount
  datatype CountResult = Updated | InvalidPage | Unallocated

  datatype Alloc = Alloc(counts: map<nat, nat>, free: seq<nat>) {

    /** The free pages are exactly those with count 0, once each. */
    ghost predicate Valid() {
      NoDup(free) && Elems(free) == Zeros(counts)
    }

    function Take(): (r: (Alloc, PageResult))
      ensures Valid() ==> r.0.Valid()
      ensures r.1.Got? ==> Valid() ==> r.1.base in counts && counts[r.1.base] == 0 && r.0.counts == counts[r.1.base := 1]
      ensures r.1.OutOfMemory? <==> free == []
      ensures !r.1.NonzeroCount?
    {
      if free == [] then (this, OutOfMemory)
      else
        TakeKeeps(counts, free);
        (Alloc(counts[free[0] := 1], free[1..]), Got(free[0]))
    }

    function Release(ptr: nat): (r: (Alloc, CountResult))
      ensures Valid() ==> r.0.Valid()
      ensures r.0.counts == Released(counts, ptr)
      ensures r.1.Updated? <==> ptr in counts && counts[ptr] > 0
      ensures r.1.Updated? ==> r.0.counts == counts[ptr := counts[ptr] - 1]
      ensures !r.1.Updated? ==> r.0 == this
      ensures r.1.InvalidPage? <==> ptr !in counts
      ensures r.1.Unallocated? <==> ptr in Zeros(counts)
    {
      if ptr !in counts then (this, InvalidPage)
      else if counts[ptr] == 0 then (this, Unallocated)
      else
        ReleaseKeeps(counts, free, ptr);
        (Alloc(counts[ptr := counts[ptr] - 1], if counts[ptr] == 1 then [ptr] + free else free), Updated)
    }

    function Share(ptr: nat): (r: (Alloc, CountResult))
      ensures Valid() ==> r.0.Valid()
      ensures r.1.Updated? <==> ptr in counts && ptr !in Zeros(counts)
      ensures r.1.Updated? ==> r.0.counts == counts[ptr := counts[ptr] + 1]
      ensures !r.1.Updated? ==> r.0 == this
    {
      if ptr !in counts then (this, InvalidPage)
      else if counts[ptr] == 0 then (this, Unallocated)
      else
        assert Zeros(counts[ptr := counts[ptr] + 1]) == Zeros(counts);
        (Alloc(counts[ptr := counts[ptr] + 1], free), Updated)
    }
  }

  /** The page given back last is the first to be handed out again. */
  lemma LastBackFirstOut(a: Alloc, ptr: nat)
    requires a.Valid() && ptr in a.counts && a.counts[ptr] == 1
    ensures a.Release(ptr).0.Take().1 == Got(ptr) && a.Release(ptr).0.Take().0.free == a.free
  {
  }

  function Elems(s: seq<nat>): set<nat> {
    set x | x in s
  }

  function Zeros(counts: map<nat, nat>): set<nat> {
    set b | b in counts && counts[b] == 0
  }

  ghost predicate NoDup(s: seq<nat>) {
    s == [] || (s[0] !in s[1..] && NoDup(s[1..]))
  }

  /** What release_page leaves of the counts. */
  function Released(counts: map<nat, nat>, ptr: nat): map<nat, nat> {
    if ptr in counts && counts[ptr] > 0 then counts[ptr := counts[ptr] - 1] else counts
  }

  lemma TakeKeeps(counts: map<nat, nat>, free: seq<nat>)
    requires free != []
    ensures Alloc(counts, free).Valid() ==>
              free[0] in counts && counts[free[0]] == 0 && Alloc(counts[free[0] := 1], free[1..]).Valid()
  {
    if Alloc(counts, free).Valid() {
      assert free[0] in Elems(free);
      assert free == [free[0]] + free[1..];
      assert Elems(free) == {free[0]} + Elems(free[1..]);
      assert Zeros(counts[free[0] := 1]) == Zeros(counts) - {free[0]};
    }
  }

  lemma ReleaseKeeps(counts: map<nat, nat>, free: seq<nat>, ptr: nat)
    requires ptr in counts && counts[ptr] > 0
    ensures var free' := if counts[ptr] == 1 then [ptr] + free else free;
            Alloc(counts, free).Valid() ==> Alloc(counts[ptr := counts[ptr] - 1], free').Valid()
  {
    if Alloc(counts, free).Valid() {
      assert ptr !in Elems(free);
      if counts[ptr] == 1 {
        assert ([ptr] + free)[1..] == free;
        assert Elems([ptr] + free) == {ptr} + Elems(free);
        assert Zeros(counts[ptr := 0]) == Zeros(counts) + {ptr};
      } else {
        assert Zeros(counts[ptr := counts[ptr] - 1]) == Zeros(counts);
      }
    }
  }

  /** As many pages are free as have count 0. */
  lemma FreeCount(a: Alloc)
    requires a.Valid()
    ensures |a.free| == |Zeros(a.counts)|
  {
    NoDupSize(a.free);
  }

  lemma {:induction false} NoDupSize(s: seq<nat>)
    requires NoDup(s)
    ensures |Elems(s)| == |s|
  {
    if s != [] {
      NoDupSize(s[1..]);
      assert s == [s[0]] + s[1..];
      assert Elems(s) == {s[0]} + Elems(s[1..]);
    }
  }

  // -------------------------------------------------- the descriptor array

  datatype Descriptor = Descriptor(base: nat, mapCount: nat, next: Option<nat>)

  /** Following `next` from `head` visits exactly the nodes of `order` and ends in null. */
  ghost predicate Threads(arr: seq<Descriptor>, head: Option<nat>, order: seq<nat>)
    decreases |order|
  {
    if order == [] then head == None
    else head == Some(order[0]) && order[0] < |arr| && Threads(arr, arr[order[0]].next, order[1..])
  }

  /** The page bases of the nodes of a list. */
  ghost function Bases(arr: seq<Descriptor>, order: seq<nat>): (s: seq<nat>)
    ensures |s| == |order|
  {
    if order == [] then []
    else [if order[0] < |arr| then arr[order[0]].base else 0] + Bases(arr, order[1..])
  }

  /** `index` inverts the `base` column: no two descriptors share a base. */
  ghost predicate Indexed(arr: seq<Descriptor>, index: map<nat, nat>) {
    && (forall b :: b in index ==> index[b] < |arr| && arr[index[b]].base == b)
    && (forall i :: 0 <= i < |arr| ==> arr[i].base in index && index[arr[i].base] == i)
  }

  /** The descriptor array read as a map from page base to reference count. */
  ghost function CountsOf(arr: seq<Descriptor>, index: map<nat, nat>): map<nat, nat>
    requires Indexed(arr, index)
  {
    map b | b in index :: arr[index[b]].mapCount
  }

  class PageAllocator {
    const listArr: array<Descriptor>
    var freelistHead: Option<nat>
    /** The free list as descriptor indices, first to last. */
    ghost var order: seq<nat>
    /** Which descriptor describes the page with a given base. */
    ghost const index: map<nat, nat>
    /** The allocator as seen by its callers. */
    ghost var state: Alloc

    ghost predicate Valid()
      reads this, listArr
    {
      && Represents(listArr[..], index, freelistHead, order, state)
      && state.Valid()
    }

    constructor (arr: array<Descriptor>, head: Option<nat>, ghost list: seq<nat>, ghost ix: map<nat, nat>)
      requires Indexed(arr[..], ix) && Threads(arr[..], head, list)
      requires Alloc(CountsOf(arr[..], ix), Bases(arr[..], list)).Valid()
      ensures Valid() && listArr == arr && order == list && state == Alloc(CountsOf(arr[..], ix), Bases(arr[..], list))
    {
      listArr := arr;
      freelistHead := head;
      order := list;
      index := ix;
      state := Alloc(CountsOf(arr[..], ix), Bases(arr[..], list));
    }

    /** walk_list: the index of the descriptor whose base is `ptr`, if any. */
    method WalkList(ptr: nat) returns (r: Option<nat>)
      requires Valid()
      ensures r.Some? <==> ptr in state.counts
      ensures r.Some? ==> r.value < listArr.Length && listArr[r.value].base == ptr
    {
      for i := 0 to listArr.Length
        invariant forall j :: 0 <= j < i ==> listArr[j].base != ptr
      {
        if listArr[i].base == ptr {
          return Some(i);
        }
      }
      return None;
    }

    /** The counts in the array. */
    method Counts() returns (counts: map<nat, nat>)
      requires Valid()
      ensures counts == state.counts
    {
      counts := map[];
      for i := 0 to listArr.Length
        invariant forall b: nat :: b in counts <==> b in index && index[b] < i
        invariant forall b: nat :: b in counts ==> counts[b] == listArr[index[b]].mapCount
      {
        counts := counts[listArr[i].base := listArr[i].mapCount];
      }
    }

    /** The pages on the list. */
    method FreePages() returns (free: seq<nat>)
      requires Valid()
      ensures free == state.free
    {
      free := [];
      var e := freelistHead;
      ghost var rest := order;
      while e.Some?
        invariant Threads(listArr[..], e, rest) && free + Bases(listArr[..], rest) == state.free
        decreases |rest|
      {
        free := free + [listArr[e.value].base];
        rest := rest[1..];
        e := listArr[e.value].next;
      }
    }

    /** The allocator as a value. */
    method Contents() returns (a: Alloc)
      requires Valid()
      ensures a == state
    {
      var counts := Counts();
      var free := FreePages();
      a := Alloc(counts, free);
    }

    method GetFreePage() returns (r: PageResult)
      requires Valid()
      modifies this, listArr
      ensures Valid()
      ensures !r.NonzeroCount?
      ensures (state, r) == old(state).Take()
    {
      if freelistHead.None? {
        return OutOfMemory;
      }
      var e := freelistHead.value;
      FirstFree(listArr[..], index, freelistHead, order, state);
      if listArr[e].mapCount != 0 {
        return NonzeroCount;
      }
      var d := listArr[e].(mapCount := 1, next := None);
      PopKeeps(listArr[..], index, order, state, d);
      freelistHead := listArr[e].next;
      ghost var before := listArr[..];
      listArr[e] := d;
      assert listArr[..] == before[e := d];
      order, state := order[1..], state.Take().0;
      return Got(d.base);
    }

    method ReleasePage(ptr: nat) returns (r: CountResult)
      requires Valid()
      modifies this, listArr
      ensures Valid()
      ensures (state, r) == old(state).Release(ptr)
    {
      var w := WalkList(ptr);
      if w.None? {
        return InvalidPage;
      }
      var e := w.value;
      if listArr[e].mapCount <= 0 {
        return Unallocated;
      }
      var d := listArr[e].(mapCount := listArr[e].mapCount - 1);
      if d.mapCount == 0 {
        d := d.(next := freelistHead);
      }
      DropKeeps(listArr[..], index, freelistHead, order, state, e, d);
      if d.mapCount == 0 {
        freelistHead := Some(e);
        order := [e] + order;
      }
      ghost var before := listArr[..];
      listArr[e] := d;
      assert listArr[..] == before[e := d];
      state := state.Release(ptr).0;
      return Updated;
    }

    method IncMapCount(ptr: nat) returns (r: CountResult)
      requires Valid()
      modifies this, listArr
      ensures Valid()
      ensures (state, r) == old(state).Share(ptr)
    {
      var w := WalkList(ptr);
      if w.None? {
        return InvalidPage;
      }
      var e := w.value;
      if listArr[e].mapCount <= 0 {
        return Unallocated;
      }
      var d := listArr[e].(mapCount := listArr[e].mapCount + 1);
      ShareKeeps(listArr[..], index, freelistHead, order, state, e, d);
      ghost var before := listArr[..];
      listArr[e] := d;
      assert listArr[..] == before[e := d];
      state := state.Share(ptr).0;
      return Updated;
    }
  }

  /** The array, its base index and its free-list links stand for the allocator state `a`. */
  ghost predicate Represents(arr: seq<Descriptor>, index: map<nat, nat>, head: Option<nat>, order: seq<nat>, a: Alloc) {
    && Indexed(arr, index)
    && Threads(arr, head, order)
    && a.counts == CountsOf(arr, index)
    && a.free == Bases(arr, order)
  }

  lemma FirstFree(arr: seq<Descriptor>, index: map<nat, nat>, head: Option<nat>, order: seq<nat>, a: Alloc)
    requires Represents(arr, index, head, order, a) && a.Valid() && head.Some?
    ensures order != [] && head.value < |arr| && arr[head.value].mapCount == 0 && arr[head.value].base == a.free[0]
  {
    assert a.free[0] in Elems(a.free);
  }

  /** Replacing one descriptor by one with the same base changes one count. */
  lemma UpdateCount(arr: seq<Descriptor>, index: map<nat, nat>, e: nat, d: Descriptor)
    requires Indexed(arr, index) && e < |arr| && d.base == arr[e].base
    ensures Indexed(arr[e := d], index)
    ensures CountsOf(arr[e := d], index) == CountsOf(arr, index)[d.base := d.mapCount]
  {
  }

  /** Descriptors off the list can change without breaking its threading, and bases never change. */
  lemma {:induction false} ThreadsFrame(arr: seq<Descriptor>, head: Option<nat>, order: seq<nat>, e: nat, d: Descriptor)
    requires Threads(arr, head, order) && e < |arr| && d.base == arr[e].base
    requires arr[e].base !in Bases(arr, order) || d.next == arr[e].next
    ensures Threads(arr[e := d], head, order) && Bases(arr[e := d], order) == Bases(arr, order)
    decreases |order|
  {
    if order != [] {
      assert Bases(arr, order)[0] == arr[order[0]].base;
      assert Bases(arr, order)[1..] == Bases(arr, order[1..]);
      ThreadsFrame(arr, arr[order[0]].next, order[1..], e, d);
    }
  }

  /** Taking the first node off keeps the rest of the list threaded. */
  lemma PopKeeps(arr: seq<Descriptor>, index: map<nat, nat>, order: seq<nat>, a: Alloc, d: Descriptor)
    requires order != [] && Represents(arr, index, Some(order[0]), order, a) && a.Valid()
    requires order[0] < |arr| && d.base == arr[order[0]].base && d.mapCount == 1
    ensures a.Take().1 == Got(d.base)
    ensures Represents(arr[order[0] := d], index, arr[order[0]].next, order[1..], a.Take().0)
  {
    UpdateCount(arr, index, order[0], d);
    assert a.free[0] == d.base && a.free[1..] == Bases(arr, order[1..]);
    ThreadsFrame(arr, arr[order[0]].next, order[1..], order[0], d);
  }

  /** A page whose count drops to 0 goes to the front of the list; otherwise the list is left alone. */
  lemma DropKeeps(arr: seq<Descriptor>, index: map<nat, nat>, head: Option<nat>, order: seq<nat>, a: Alloc, e: nat, d: Descriptor)
    requires Represents(arr, index, head, order, a) && a.Valid() && e < |arr|
    requires arr[e].mapCount > 0 && d.mapCount == arr[e].mapCount - 1 && d.base == arr[e].base
    requires d.next == if d.mapCount == 0 then head else arr[e].next
    ensures var free := d.mapCount == 0;
            Represents(arr[e := d], index, if free then Some(e) else head, if free then [e] + order else order, a.Release(d.base).0)
  {
    assert a.counts[d.base] == arr[e].mapCount;
    assert d.base !in Elems(a.free);
    UpdateCount(arr, index, e, d);
    ThreadsFrame(arr, head, order, e, d);
    assert ([e] + order)[1..] == order;
  }

  lemma ShareKeeps(arr: seq<Descriptor>, index: map<nat, nat>, head: Option<nat>, order: seq<nat>, a: Alloc, e: nat, d: Descriptor)
    requires Represents(arr, index, head, order, a) && e < |arr|
    requires arr[e].mapCount > 0 && d == arr[e].(mapCount := arr[e].mapCount + 1)
    ensures Represents(arr[e := d], index, head, order, a.Share(d.base).0)
  {
    assert a.counts[d.base] == arr[e].mapCount;
    UpdateCount(arr, index, e, d);
    ThreadsFrame(arr, head, order, e, d);
  }

  lemma {:induction false} BasesElems(arr: seq<Descriptor>, order: seq<nat>, b: nat)
    ensures b in Bases(arr, order) <==> exists t :: t in order && b == (if t < |arr| then arr[t].base else 0)
  {
    if order != [] {
      BasesElems(arr, order[1..], b);
      assert order[0] in order;
      assert forall t :: t in order[1..] ==> t in order;
      assert forall t :: t in order ==> t == order[0] || t in order[1..];
    }
  }

  lemma {:induction false} ThreadsIn(arr: seq<Descriptor>, head: Option<nat>, order: seq<nat>)
    requires Threads(arr, head, order)
    ensures forall t :: t in order ==> t < |arr|
    decreases |order|
  {
    if order != [] {
      ThreadsIn(arr, arr[order[0]].next, order[1..]);
      assert forall t :: t in order ==> t == order[0] || t in order[1..];
    }
  }

  lemma {:induction false} OrderNoDup(arr: seq<Descriptor>, order: seq<nat>)
    requires NoDup(Bases(arr, order))
    ensures NoDup(order)
  {
    if order != [] {
      assert Bases(arr, order)[1..] == Bases(arr, order[1..]);
      OrderNoDup(arr, order[1..]);
      BasesElems(arr, order[1..], Bases(arr, order)[0]);
    }
  }

  /** Following the links from the head visits every descriptor with count 0 once, no other one, and ends. */
  lemma FreeListExact(arr: seq<Descriptor>, index: map<nat, nat>, head: Option<nat>, order: seq<nat>, a: Alloc)
    requires Represents(arr, index, head, order, a) && a.Valid()
    ensures Threads(arr, head, order) && NoDup(order)
    ensures forall i: nat :: i < |arr| ==> (i in order <==> arr[i].mapCount == 0)
  {
    ThreadsIn(arr, head, order);
    OrderNoDup(arr, order);
    forall i: nat | i < |arr| ensures i in order <==> arr[i].mapCount == 0 {
      var b := arr[i].base;
      BasesElems(arr, order, b);
      assert b in Elems(a.free) <==> b in a.free;
      assert b in Zeros(a.counts) <==> arr[i].mapCount == 0;
    }
  }

  // ------------------------------------------------------------- whole runs

  datatype Call = Get | Put(ptr: nat) | Inc(ptr: nat)

  datatype Reply = PageReply(page: PageResult) | CountReply(count: CountResult)

  /** A call on the simple allocator, and its result. */
  function DoCall(a: Alloc, call: Call): (Alloc, Reply) {
    match call
    case Get => var (a', r) := a.Take(); (a', PageReply(r))
    case Put(ptr) => var (a', r) := a.Release(ptr); (a', CountReply(r))
    case Inc(ptr) => var (a', r) := a.Share(ptr); (a', CountReply(r))
  }

  function DoCalls(a: Alloc, calls: seq<Call>): (Alloc, seq<Reply>) {
    if calls == [] then (a, [])
    else
      var (a1, rs) := DoCalls(a, calls[..|calls| - 1]);
      var (a2, r) := DoCall(a1, calls[|calls| - 1]);
      (a2, rs + [r])
  }

  /** Any sequence of get_free_page, release_page and inc_map_count, and the result of each. */
  method RunCalls(pm: PageAllocator, calls: seq<Call>) returns (rs: seq<Reply>)
    requires pm.Valid()
    modifies pm, pm.listArr
    ensures pm.Valid() && (pm.state, rs) == DoCalls(old(pm.state), calls)
    ensures NoDup(pm.order) && Threads(pm.listArr[..], pm.freelistHead, pm.order)
    ensures forall i: nat :: i < pm.listArr.Length ==> (i in pm.order <==> pm.listArr[i].mapCount == 0)
  {
    rs := [];
    for n := 0 to |calls|
      invariant pm.Valid() && (pm.state, rs) == DoCalls(old(pm.state), calls[..n])
    {
      assert calls[..n + 1][..n] == calls[..n];
      match calls[n] {
        case Get =>
          var r := pm.GetFreePage();
          rs := rs + [PageReply(r)];
        case Put(ptr) =>
          var r := pm.ReleasePage(ptr);
          rs := rs + [CountReply(r)];
        case Inc(ptr) =>
          var r := pm.IncMapCount(ptr);
          rs := rs + [CountReply(r)];
      }
    }
    assert calls[..|calls|] == calls;
    FreeListExact(pm.listArr[..], pm.index, pm.freelistHead, pm.order, pm.state);
  }
}
