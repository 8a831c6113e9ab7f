/**
 Building the page allocator at boot: `pmap_init` in `sys/pmap.c`. The loader's
 memory map gives the usable regions; the descriptor array is laid out after
 the kernel image, with room behind it for the four boot page tables.
 */
module PmapInit {
  import opened Options
  import opened Machine
  import opened Pmap

  /** One entry of the boot loader's physical memory map. */
  datatype Smap = Smap(base: nat, length: nat, kind: nat)

  /** sizeof(struct freelist_entry): the struct is packed (8 + 4 + 8). */
  const DESCRIPTOR_SIZE := 20

  predicate Usable(m: Smap) {
    m.kind == 1 && m.length != 0 && m.length >= PGSIZE * 10
  }

  /** The first `k` usable regions. */
  function Pick(smaps: seq<Smap>, k: nat): seq<Smap> {
    if smaps == [] || k == 0 then []
    else if Usable(smaps[0]) then [smaps[0]] + Pick(smaps[1..], k - 1)
    else Pick(smaps[1..], k)
  }

  /** Pages the allocator takes from a region: its last one is left out. */
  function PagesOf(m: Smap): int {
    m.length / PGSIZE - 1
  }

  function RegionBases(base: nat, n: nat): (s: seq<nat>)
    ensures |s| == n
    ensures forall i :: 0 <= i < n ==> s[i] == base + i * PGSIZE
  {
    seq(n, i requires 0 <= i => base + i * PGSIZE)
  }

  /** The page bases of all regions, in the order of the descriptor array. */
  function AllBases(regions: seq<Smap>): seq<nat> {
    if regions == [] then []
    else AllBases(regions[..|regions| - 1]) + RegionBases(regions[|regions| - 1].base, Size(regions[|regions| - 1]))
  }

  function Size(m: Smap): nat {
    if m.length / PGSIZE >= 1 then PagesOf(m) else 0
  }

  /** A page of the region: every whole page from its base on but the last. */
  ghost predicate PageOfRegion(m: Smap, b: nat) {
    m.base <= b && (b - m.base) % PGSIZE == 0 && (b - m.base) / PGSIZE + 1 < m.length / PGSIZE
  }

  ghost predicate Managed(regions: seq<Smap>, b: nat) {
    exists i :: 0 <= i < |regions| && PageOfRegion(regions[i], b)
  }

  lemma RegionBasesExact(m: Smap, b: nat)
    ensures b in RegionBases(m.base, Size(m)) <==> PageOfRegion(m, b)
  {
    if PageOfRegion(m, b) {
      assert RegionBases(m.base, Size(m))[(b - m.base) / PGSIZE] == b;
    }
  }

  /** The pages of the descriptor array are the pages of the regions. */
  lemma {:induction false} BasesExact(regions: seq<Smap>, b: nat)
    ensures b in AllBases(regions) <==> Managed(regions, b)
  {
    if regions != [] {
      var n := |regions| - 1;
      BasesExact(regions[..n], b);
      RegionBasesExact(regions[n], b);
      assert Managed(regions, b) <==> Managed(regions[..n], b) || PageOfRegion(regions[n], b) by {
        assert forall i :: 0 <= i < n ==> regions[..n][i] == regions[i];
      }
    }
  }

  /** The end of the reserved range: descriptors rounded to pages, a page, and four page tables. */
  function RealPhysfree(physfree: nat, n: nat): (e: nat)
    ensures (e - physfree) % PGSIZE == 0 && physfree + 20 * n < e - 4 * PGSIZE <= physfree + 20 * n + PGSIZE
  {
    physfree + (n * DESCRIPTOR_SIZE - n * DESCRIPTOR_SIZE % PGSIZE) + PGSIZE + PGSIZE * 4
  }

  /** The descriptor array and the boot tables fit into the reserved range without overlap. */
  lemma ReservedLayout(physfree: nat, n: nat)
    ensures var end := RealPhysfree(physfree, n);
            physfree + n * DESCRIPTOR_SIZE <= end - 4 * PGSIZE < end
  {
  }

  /** No two regions of the map overlap. */
  ghost predicate Apart(regions: seq<Smap>) {
    forall i, j :: 0 <= i < j < |regions| ==>
      regions[i].base + regions[i].length <= regions[j].base || regions[j].base + regions[j].length <= regions[i].base
  }

  predicate Reserved(b: nat, lo: nat, hi: nat) {
    lo <= b < hi
  }

  /** Descriptor t of the finished part of the array. */
  predicate Described(d: Descriptor, base: nat, lo: nat, hi: nat) {
    d.base == base && d.mapCount == if Reserved(base, lo, hi) then 1 else 0
  }

  /** The array after the first j descriptors have been written. */
  ghost predicate Built(arr: seq<Descriptor>, bases: seq<nat>, j: nat, lo: nat, hi: nat) {
    && |arr| == |bases| && j <= |arr|
    && (forall t :: 0 <= t < j ==> Described(arr[t], bases[t], lo, hi))
    && (forall t :: j <= t < |arr| ==> arr[t] == Descriptor(0, 0, None))
  }

  /** The free list after the first j descriptors: the unreserved ones, in order. */
  ghost predicate Listed(arr: seq<Descriptor>, bases: seq<nat>, j: nat, lo: nat, hi: nat, head: Option<nat>, order: seq<nat>) {
    && Threads(arr, head, order)
    && NoDup(order)
    && (forall t: nat :: t in order <==> t < j <= |bases| && !Reserved(bases[t], lo, hi))
    && (order != [] ==> order[|order| - 1] < |arr| && arr[order[|order| - 1]].next == None)
  }

  /** Linking a new node after the last one. */
  lemma {:induction false} Append(arr: seq<Descriptor>, head: Option<nat>, order: seq<nat>, j: nat)
    requires Threads(arr, head, order) && NoDup(order) && order != [] && j < |arr| && j !in order && arr[j].next == None
    ensures var last := order[|order| - 1];
            last < |arr| && Threads(arr[last := arr[last].(next := Some(j))], head, order + [j])
    decreases |order|
  {
    var last := order[|order| - 1];
    if |order| == 1 {
      assert (order + [j])[1..] == [j];
      var arr' := arr[last := arr[last].(next := Some(j))];
      assert Threads(arr', None, []);
      assert [j][1..] == [];
      assert Threads(arr', Some(j), [j]);
    } else {
      assert order[1..][|order| - 2] == last;
      Append(arr, arr[order[0]].next, order[1..], j);
      assert (order + [j])[1..] == order[1..] + [j];
      assert last in order[1..];
    }
  }

  /** Writing a descriptor that is not on the list does not disturb it. */
  lemma {:induction false} ThreadsOff(arr: seq<Descriptor>, head: Option<nat>, order: seq<nat>, j: nat, d: Descriptor)
    requires Threads(arr, head, order) && j < |arr| && j !in order
    ensures Threads(arr[j := d], head, order)
    decreases |order|
  {
    if order != [] {
      ThreadsOff(arr, arr[order[0]].next, order[1..], j, d);
    }
  }

  lemma {:induction false} NoDupAppend(s: seq<nat>, x: nat)
    requires NoDup(s) && x !in s
    ensures NoDup(s + [x])
  {
    if s != [] {
      NoDupAppend(s[1..], x);
      assert (s + [x])[1..] == s[1..] + [x];
    }
  }

  /** The loop body for entry j, when the first entry is not a reserved page. */
  lemma PlaceFree(arr: seq<Descriptor>, bases: seq<nat>, j: nat, lo: nat, hi: nat, head: Option<nat>, order: seq<nat>)
    requires Built(arr, bases, j, lo, hi) && Listed(arr, bases, j, lo, hi, head, order)
    requires j < |arr| && !Reserved(bases[j], lo, hi) && order != []
    ensures var last := order[|order| - 1];
            last < |arr| && last != j &&
            var arr' := arr[j := Descriptor(bases[j], 0, None)][last := arr[last].(next := Some(j))];
            Built(arr', bases, j + 1, lo, hi) && Listed(arr', bases, j + 1, lo, hi, head, order + [j])
  {
    assert j !in order;
    var last := order[|order| - 1];
    assert last in order;
    var arr1 := arr[j := Descriptor(bases[j], 0, None)];
    ThreadsOff(arr, head, order, j, Descriptor(bases[j], 0, None));
    Append(arr1, head, order, j);
    NoDupAppend(order, j);
  }

  lemma PlaceReserved(arr: seq<Descriptor>, bases: seq<nat>, j: nat, lo: nat, hi: nat, head: Option<nat>, order: seq<nat>)
    requires Built(arr, bases, j, lo, hi) && Listed(arr, bases, j, lo, hi, head, order)
    requires j < |arr| && Reserved(bases[j], lo, hi)
    ensures var arr' := arr[j := Descriptor(bases[j], 1, None)];
            Built(arr', bases, j + 1, lo, hi) && Listed(arr', bases, j + 1, lo, hi, head, order)
  {
    assert j !in order;
    ThreadsOff(arr, head, order, j, Descriptor(bases[j], 1, None));
  }

  lemma PlaceFirst(arr: seq<Descriptor>, bases: seq<nat>, lo: nat, hi: nat)
    requires Built(arr, bases, 0, lo, hi) && 0 < |arr| && !Reserved(bases[0], lo, hi)
    ensures var arr' := arr[0 := Descriptor(bases[0], 0, None)];
            Built(arr', bases, 1, lo, hi) && Listed(arr', bases, 1, lo, hi, Some(0), [0])
  {
    var arr' := arr[0 := Descriptor(bases[0], 0, None)];
    assert [0][1..] == [];
    assert Threads(arr', None, []);
  }

  /** The state of pmap_init's loops: array, list head, last node. */
  datatype Progress = Progress(arr: seq<Descriptor>, head: Option<nat>, prev: Option<nat>)

  ghost predicate InProgress(p: Progress, bases: seq<nat>, j: nat, lo: nat, hi: nat, order: seq<nat>) {
    && Built(p.arr, bases, j, lo, hi) && Listed(p.arr, bases, j, lo, hi, p.head, order)
    && p.prev == (if order == [] then None else Some(order[|order| - 1]))
    && (order != [] ==> order[0] == 0)
  }

  /** One descriptor; `ok` is false where the code would write through the null `prev`. */
  method Place(p: Progress, j: nat, base: nat, lo: nat, hi: nat, ghost bases: seq<nat>, ghost order: seq<nat>)
    returns (ok: bool, p': Progress, ghost order': seq<nat>)
    requires InProgress(p, bases, j, lo, hi, order) && j < |p.arr| && bases[j] == base
    ensures ok ==> InProgress(p', bases, j + 1, lo, hi, order')
    ensures !ok <==> !Reserved(base, lo, hi) && j > 0 && order == []
  {
    p', order' := p, order;
    if Reserved(base, lo, hi) {
      PlaceReserved(p.arr, bases, j, lo, hi, p.head, order);
      return true, p.(arr := p.arr[j := Descriptor(base, 1, None)]), order;
    }
    if j == 0 {
      PlaceFirst(p.arr, bases, lo, hi);
      return true, Progress(p.arr[0 := Descriptor(base, 0, None)], Some(0), Some(0)), [0];
    }
    if p.prev.None? {
      return false, p, order;
    }
    PlaceFree(p.arr, bases, j, lo, hi, p.head, order);
    var last := p.prev.value;
    var arr := p.arr[j := Descriptor(base, 0, None)];
    p' := Progress(arr[last := arr[last].(next := Some(j))], p.head, Some(j));
    order' := order + [j];
    return true, p', order';
  }

  lemma BasesPrefix(regions: seq<Smap>, i: nat)
    requires i < |regions|
    ensures AllBases(regions[..i + 1]) == AllBases(regions[..i]) + RegionBases(regions[i].base, Size(regions[i]))
  {
    assert regions[..i + 1][..i] == regions[..i];
  }

  lemma {:induction false} BasesGrow(regions: seq<Smap>, i: nat)
    requires i <= |regions|
    ensures AllBases(regions[..i]) <= AllBases(regions)
    decreases |regions| - i
  {
    if i < |regions| {
      BasesPrefix(regions, i);
      BasesGrow(regions, i + 1);
    } else {
      assert regions[..i] == regions;
    }
  }

  /** The inner loop: the pages of one region, whose bases are `bases[cnt..cnt + size]`. */
  method FillRegion(first: nat, size: nat, cnt: nat, p: Progress, lo: nat, hi: nat, ghost bases: seq<nat>, ghost order: seq<nat>)
    returns (ok: bool, p': Progress, ghost order': seq<nat>)
    requires InProgress(p, bases, cnt, lo, hi, order) && cnt + size <= |bases| && bases[cnt..cnt + size] == RegionBases(first, size)
    ensures ok ==> InProgress(p', bases, cnt + size, lo, hi, order')
    ensures !ok ==> bases != [] && Reserved(bases[0], lo, hi)
  {
    p', order' := p, order;
    for i := 0 to size
      invariant InProgress(p', bases, cnt + i, lo, hi, order')
    {
      var base := first + i * PGSIZE;
      assert bases[cnt..cnt + size][i] == base;
      FirstListed(p', bases, cnt + i, lo, hi, order');
      ok, p', order' := Place(p', cnt + i, base, lo, hi, bases, order');
      if !ok {
        return;
      }
    }
    ok := true;
  }

  /** Where region `i`'s pages are among all pages. */
  lemma RegionSlice(regions: seq<Smap>, i: nat, cnt: nat, size: nat)
    requires i < |regions| && cnt == |AllBases(regions[..i])| && size == Size(regions[i])
    ensures |AllBases(regions[..i + 1])| == cnt + size <= |AllBases(regions)|
    ensures AllBases(regions)[cnt..cnt + size] == RegionBases(regions[i].base, size)
  {
    BasesPrefix(regions, i);
    BasesGrow(regions, i + 1);
    var all, upto := AllBases(regions), AllBases(regions[..i + 1]);
    assert all[cnt..cnt + size] == all[..cnt + size][cnt..] == upto[cnt..];
  }

  /** The two nested loops over the regions. */
  method Fill(regions: seq<Smap>, lo: nat, hi: nat) returns (ok: bool, p: Progress, ghost order: seq<nat>)
    requires forall i :: 0 <= i < |regions| ==> Usable(regions[i])
    ensures ok ==> InProgress(p, AllBases(regions), |AllBases(regions)|, lo, hi, order)
    ensures !ok ==> AllBases(regions) != [] && Reserved(AllBases(regions)[0], lo, hi)
  {
    ghost var bases := AllBases(regions);
    var n := Total(regions);
    p := Progress(seq(n, i => Descriptor(0, 0, None)), None, None);
    order := [];
    var cnt := 0;
    for i := 0 to |regions|
      invariant cnt == |AllBases(regions[..i])| <= |bases|
      invariant InProgress(p, bases, cnt, lo, hi, order)
    {
      var size := PagesOf(regions[i]);
      RegionSlice(regions, i, cnt, size);
      ok, p, order := FillRegion(regions[i].base, size, cnt, p, lo, hi, bases, order);
      if !ok {
        return;
      }
      cnt := cnt + size;
    }
    assert regions[..|regions|] == regions;
    ok := true;
  }

  lemma FirstListed(p: Progress, bases: seq<nat>, j: nat, lo: nat, hi: nat, order: seq<nat>)
    requires InProgress(p, bases, j, lo, hi, order)
    ensures order == [] && j > 0 ==> bases != [] && Reserved(bases[0], lo, hi)
  {
    assert order == [] ==> 0 !in order;
  }

  /** entry_count. */
  method Total(regions: seq<Smap>) returns (n: nat)
    requires forall i :: 0 <= i < |regions| ==> Usable(regions[i])
    ensures n == |AllBases(regions)|
  {
    n := 0;
    for i := 0 to |regions|
      invariant n == |AllBases(regions[..i])|
    {
      BasesPrefix(regions, i);
      n := n + PagesOf(regions[i]);
    }
    assert regions[..|regions|] == regions;
  }

  // ------------------------------------------------- the finished allocator

  ghost predicate Injective(bases: seq<nat>) {
    forall i, j :: 0 <= i < j < |bases| ==> bases[i] != bases[j]
  }

  /** Every base lies in its region. */
  lemma {:induction false} InRegion(regions: seq<Smap>, t: nat) returns (i: nat)
    requires t < |AllBases(regions)| && forall i :: 0 <= i < |regions| ==> Usable(regions[i])
    ensures i < |regions| && regions[i].base <= AllBases(regions)[t] < regions[i].base + regions[i].length
  {
    var n := |regions| - 1;
    var front := AllBases(regions[..n]);
    if t < |front| {
      i := InRegion(regions[..n], t);
    } else {
      i := n;
      var k := t - |front|;
      assert AllBases(regions)[t] == regions[n].base + k * PGSIZE;
      assert k < regions[n].length / PGSIZE;
    }
  }

  lemma {:induction false} DistinctBases(regions: seq<Smap>)
    requires Apart(regions) && forall i :: 0 <= i < |regions| ==> Usable(regions[i])
    ensures Injective(AllBases(regions))
  {
    if regions != [] {
      var n := |regions| - 1;
      var front, bases := AllBases(regions[..n]), AllBases(regions);
      DistinctBases(regions[..n]);
      forall i, j | 0 <= i < j < |bases| ensures bases[i] != bases[j] {
        if i < |front| <= j {
          var a := InRegion(regions[..n], i);
          var k := j - |front|;
          assert bases[j] == regions[n].base + k * PGSIZE && k < regions[n].length / PGSIZE;
        }
      }
    }
  }

  ghost function IndexOf(bases: seq<nat>): map<nat, nat>
    requires Injective(bases)
  {
    map i: int | 0 <= i < |bases| :: bases[i] := i
  }

  lemma BuiltIndexed(arr: seq<Descriptor>, bases: seq<nat>, lo: nat, hi: nat)
    requires Built(arr, bases, |bases|, lo, hi) && Injective(bases)
    ensures Indexed(arr, IndexOf(bases))
  {
    forall i | 0 <= i < |arr| ensures arr[i].base in IndexOf(bases) && IndexOf(bases)[arr[i].base] == i {
      assert Described(arr[i], bases[i], lo, hi);
    }
    forall b | b in IndexOf(bases) ensures IndexOf(bases)[b] < |arr| && arr[IndexOf(bases)[b]].base == b {
      assert Described(arr[IndexOf(bases)[b]], bases[IndexOf(bases)[b]], lo, hi);
    }
  }

  lemma {:induction false} BasesNoDup(arr: seq<Descriptor>, index: map<nat, nat>, order: seq<nat>)
    requires Indexed(arr, index) && NoDup(order) && forall t :: t in order ==> t < |arr|
    ensures NoDup(Bases(arr, order))
  {
    if order != [] {
      assert order[0] in order && forall t :: t in order[1..] ==> t in order;
      BasesNoDup(arr, index, order[1..]);
      assert Bases(arr, order)[1..] == Bases(arr, order[1..]);
      BasesElems(arr, order[1..], arr[order[0]].base);
    }
  }

  /** Reserved pages have count 1, all others 0. */
  lemma BuiltCounts(arr: seq<Descriptor>, bases: seq<nat>, lo: nat, hi: nat)
    requires Built(arr, bases, |bases|, lo, hi) && Injective(bases)
    ensures Indexed(arr, IndexOf(bases))
    ensures forall b: nat :: b in CountsOf(arr, IndexOf(bases)) <==> b in bases
    ensures forall b: nat :: b in bases ==> CountsOf(arr, IndexOf(bases))[b] == if Reserved(b, lo, hi) then 1 else 0
  {
    BuiltIndexed(arr, bases, lo, hi);
    var index := IndexOf(bases);
    forall b: nat ensures b in index <==> b in bases {
      assert b in index ==> bases[index[b]] == b;
    }
    forall b: nat | b in bases ensures arr[index[b]].mapCount == if Reserved(b, lo, hi) then 1 else 0 {
      assert Described(arr[index[b]], bases[index[b]], lo, hi);
    }
  }

  /** The finished list is the allocator's free list: exactly the unreserved pages, once each. */
  lemma BuiltValid(arr: seq<Descriptor>, bases: seq<nat>, lo: nat, hi: nat, head: Option<nat>, order: seq<nat>)
    requires Built(arr, bases, |bases|, lo, hi) && Listed(arr, bases, |bases|, lo, hi, head, order) && Injective(bases)
    ensures Indexed(arr, IndexOf(bases)) && Alloc(CountsOf(arr, IndexOf(bases)), Bases(arr, order)).Valid()
    ensures forall b: nat :: b in CountsOf(arr, IndexOf(bases)) <==> b in bases
    ensures forall b: nat :: b in bases ==> CountsOf(arr, IndexOf(bases))[b] == if Reserved(b, lo, hi) then 1 else 0
  {
    BuiltCounts(arr, bases, lo, hi);
    var index := IndexOf(bases);
    BasesNoDup(arr, index, order);
    forall b: nat ensures b in Elems(Bases(arr, order)) <==> b in Zeros(CountsOf(arr, index)) {
      BasesElems(arr, order, b);
      if b in index {
        assert index[b] in order <==> !Reserved(b, lo, hi);
      }
    }
  }

  datatype InitResult = NoRegions | NullLink | Ready(pmap: PageAllocator, realPhysfree: nat)

  /** The first eight entries of type 1 and at least ten pages, in the order they come in; `at` is where they are. */
  method PickRegions(smaps: seq<Smap>) returns (regions: seq<Smap>, ghost at: seq<nat>)
    ensures regions == Pick(smaps, 8)
    ensures |at| == |regions| <= 8
    ensures forall k :: 0 <= k < |at| ==> at[k] < |smaps| && regions[k] == smaps[at[k]]
    ensures forall k, l :: 0 <= k < l < |at| ==> at[k] < at[l]
    ensures forall i :: 0 <= i < |smaps| ==>
              (i in at <==> smaps[i].kind == 1 && smaps[i].length >= 10 * PGSIZE && (|at| < 8 || i <= at[7]))
  {
    regions, at := [], [];
    for i := 0 to |smaps|
      invariant |at| == |regions| <= 8 && regions + Pick(smaps[i..], 8 - |regions|) == Pick(smaps, 8)
      invariant forall k :: 0 <= k < |at| ==> at[k] < i && regions[k] == smaps[at[k]]
      invariant forall k, l :: 0 <= k < l < |at| ==> at[k] < at[l]
      invariant forall m :: 0 <= m < i ==>
                  (m in at <==> smaps[m].kind == 1 && smaps[m].length >= 10 * PGSIZE && (|at| < 8 || m <= at[7]))
    {
      assert smaps[i..][1..] == smaps[i + 1..];
      if Usable(smaps[i]) && |regions| < 8 {
        regions, at := regions + [smaps[i]], at + [i];
      }
    }
  }

  /** The allocator after pmap_init: all pages of the regions, those of the reserved range in use and all others free. */
  ghost predicate InitState(smaps: seq<Smap>, physbase: nat, physfree: nat, a: Alloc, end: nat) {
    var bases := AllBases(Pick(smaps, 8));
    && a.Valid() && end == RealPhysfree(physfree, |bases|)
    && (forall b: nat {:trigger b in a.counts} :: b in a.counts <==> Managed(Pick(smaps, 8), b))
    && (forall b: nat {:trigger a.counts[b]} :: b in a.counts ==> a.counts[b] == if physbase <= b < end then 1 else 0)
  }

  lemma BuiltState(smaps: seq<Smap>, physbase: nat, physfree: nat, arr: seq<Descriptor>, head: Option<nat>, order: seq<nat>)
    requires var bases := AllBases(Pick(smaps, 8));
             var end := RealPhysfree(physfree, |bases|);
             Built(arr, bases, |bases|, physbase, end) && Listed(arr, bases, |bases|, physbase, end, head, order) && Injective(bases)
    ensures var bases := AllBases(Pick(smaps, 8));
            && Indexed(arr, IndexOf(bases))
            && InitState(smaps, physbase, physfree, Alloc(CountsOf(arr, IndexOf(bases)), Bases(arr, order)), RealPhysfree(physfree, |bases|))
  {
    var bases := AllBases(Pick(smaps, 8));
    BuiltValid(arr, bases, physbase, RealPhysfree(physfree, |bases|), head, order);
    forall b: nat ensures b in bases <==> Managed(Pick(smaps, 8), b) {
      BasesExact(Pick(smaps, 8), b);
    }
  }

  /** The first page is the one the first region begins with. */
  lemma FirstBase(regions: seq<Smap>)
    requires regions != [] && Usable(regions[0])
    ensures AllBases(regions) != [] && AllBases(regions)[0] == regions[0].base
  {
    BasesPrefix(regions, 0);
    BasesGrow(regions, 1);
  }

  /**
   pmap_init. It links free pages after the first descriptor, so it needs that
   one to be free: it writes through a null pointer exactly when the first page
   of the first usable region is reserved.
   */
  method PmapInit(smaps: seq<Smap>, physbase: nat, physfree: nat) returns (r: InitResult)
    requires Apart(Pick(smaps, 8))
    ensures r.NoRegions? <==> Pick(smaps, 8) == []
    ensures var regions := Pick(smaps, 8);
            var end := RealPhysfree(physfree, |AllBases(regions)|);
            && (r.NullLink? <==> regions != [] && physbase <= regions[0].base < end)
            && (r.Ready? ==> fresh(r.pmap) && r.pmap.Valid())
            && (r.Ready? ==> InitState(smaps, physbase, physfree, r.pmap.state, r.realPhysfree))
  {
    var regions, at := PickRegions(smaps);
    assert forall k :: 0 <= k < |regions| ==> at[k] in at && Usable(regions[k]);
    if |regions| == 0 {
      return NoRegions;
    }
    ghost var bases := AllBases(regions);
    var n := Total(regions);
    FirstBase(regions);
    var end := RealPhysfree(physfree, n);
    var ok, p, order := Fill(regions, physbase, end);
    if !ok || p.prev.None? {
      if ok {
        FirstListed(p, bases, |bases|, physbase, end, order);
      }
      return NullLink;
    }
    assert 0 in order;
    DistinctBases(regions);
    var pm := Finish(smaps, physbase, physfree, end, p, order);
    return Ready(pm, end);
  }

  /** The last link is cut, and the list is in place. */
  method Finish(ghost smaps: seq<Smap>, ghost physbase: nat, ghost physfree: nat, ghost end: nat, p: Progress, ghost order: seq<nat>)
    returns (pm: PageAllocator)
    requires var bases := AllBases(Pick(smaps, 8));
             && end == RealPhysfree(physfree, |bases|) && Injective(bases)
             && InProgress(p, bases, |bases|, physbase, end, order) && p.prev.Some?
    ensures fresh(pm) && pm.Valid() && InitState(smaps, physbase, physfree, pm.state, end)
  {
    var arr := p.arr[p.prev.value := p.arr[p.prev.value].(next := None)];
    assert arr == p.arr;
    BuiltState(smaps, physbase, physfree, arr, p.head, order);
    var a := new Descriptor[|arr|](i requires 0 <= i < |arr| => arr[i]);
    assert a[..] == arr;
    pm := new PageAllocator(a, p.head, order, IndexOf(AllBases(Pick(smaps, 8))));
  }

  /** The null link comes about with one usable region that begins with the kernel. */
  lemma NullLinkExample()
    ensures var regions := Pick([Smap(0x20_0000, 0x10_0000, 1)], 8);
            Apart(regions) && regions != [] && 0x20_0000 <= regions[0].base < RealPhysfree(0x20_8000, |AllBases(regions)|)
  {
    var m := Smap(0x20_0000, 0x10_0000, 1);
    var regions := Pick([m], 8);
    assert Usable(m) && [m][1..] == [];
    assert Pick([m][1..], 7) == [];
    assert regions == [m];
  }
}
