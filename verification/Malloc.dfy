/**
 The user-level allocator, `libc/memory.c`: a chain of blocks, each with a header
 in front, grown by `sbrk` and searched first fit.
 */
module Malloc {
  import opened Bits
  import opened Machine
  import opened Layout

  const MALIGN := 64
  /** sizeof(struct meta) */
  const HEADER := 24

  datatype Meta = Meta(size: nat, next: nat, free: bool)

  datatype Block = Block(addr: nat, size: nat, free: bool) {
    function Payload(): nat { addr + HEADER }
    function End(): nat { addr + HEADER + size }
  }

  /** MALIGN_UP: the next multiple of 64 above `x`, also when `x` is one. */
  function MalignUp(x: nat): (r: nat)
    ensures x < U64 - 64 ==> r % 64 == 0 && x < r <= x + 64
    ensures U64 - 64 <= x < U64 ==> r == 0
  {
    (x - x % MALIGN + MALIGN) % U64
  }

  /** The break `sbrk` asks for when malloc needs `size` bytes and a header. */
  function NewBreak(brk: nat, size: nat): nat {
    MalignUp((brk + (size + HEADER) % U64) % U64)
  }

  /** The chain: headers in memory, linked in ascending order, blocks apart. */
  ghost predicate Chained(metas: map<nat, Meta>, head: nat, blocks: seq<Block>) {
    && head == NextAddr(blocks, 0)
    && (forall i {:trigger Headed(metas, blocks, i)} :: 0 <= i < |blocks| ==> Headed(metas, blocks, i))
    && (forall i, j {:trigger Before(blocks[i], blocks[j])} :: 0 <= i < j < |blocks| ==> Before(blocks[i], blocks[j]))
  }

  predicate Before(b: Block, c: Block) {
    b.End() < c.addr
  }

  function NextAddr(blocks: seq<Block>, i: nat): nat {
    if i < |blocks| then blocks[i].addr else 0
  }

  ghost predicate Headed(metas: map<nat, Meta>, blocks: seq<Block>, i: nat)
    requires i < |blocks|
  {
    && blocks[i].addr > 0 && blocks[i].addr in metas
    && metas[blocks[i].addr] == Meta(blocks[i].size, NextAddr(blocks, i + 1), blocks[i].free)
  }

  /** The first free block of at least `size` bytes. */
  function FirstFit(blocks: seq<Block>, size: nat): (k: nat)
    ensures k <= |blocks|
    ensures k < |blocks| ==> blocks[k].free && blocks[k].size >= size
    ensures forall i :: 0 <= i < k ==> !(blocks[i].free && blocks[i].size >= size)
  {
    if blocks == [] || (blocks[0].free && blocks[0].size >= size) then 0 else 1 + FirstFit(blocks[1..], size)
  }

  lemma FirstFitIs(blocks: seq<Block>, size: nat, k: nat)
    requires k <= |blocks| && (k < |blocks| ==> blocks[k].free && blocks[k].size >= size)
    requires forall i :: 0 <= i < k ==> !(blocks[i].free && blocks[i].size >= size)
    ensures FirstFit(blocks, size) == k
  {
  }

  /** Blocks lie between the start of the heap and the break, and the break inside the heap's range. */
  ghost predicate Inside(mm: Mm, blocks: seq<Block>) {
    && WellFormed(mm) && 0 < mm.startBrk <= mm.brk <= HeapVma(mm).end
    && (forall i {:trigger Between(mm.startBrk, blocks[i], mm.brk)} :: 0 <= i < |blocks| ==> Between(mm.startBrk, blocks[i], mm.brk))
  }

  predicate Between(lo: nat, b: Block, hi: nat) {
    lo <= b.addr && b.End() < hi
  }

  /** A block is in use exactly when its payload is handed out, and then it is large enough. */
  ghost predicate InUse(live: map<nat, nat>, b: Block) {
    && (b.Payload() in live <==> !b.free)
    && (b.Payload() in live ==> live[b.Payload()] <= b.size)
  }

  ghost function Payloads(blocks: seq<Block>): set<nat> {
    set b | b in blocks :: b.Payload()
  }

  /** `live` gives the payloads handed out and the sizes asked for. */
  ghost predicate Lives(blocks: seq<Block>, live: map<nat, nat>) {
    && (forall i {:trigger InUse(live, blocks[i])} :: 0 <= i < |blocks| ==> InUse(live, blocks[i]))
    && live.Keys <= Payloads(blocks)
  }

  function BreakFor(brk: nat, size: nat): (b: nat)
    ensures b % 64 == 0 && brk + size + HEADER < b <= brk + size + HEADER + 64
  {
    var top := brk + size + HEADER;
    top - top % MALIGN + MALIGN
  }

  /** malloc can serve the request: from a free block, or by a break that stays below the stack. */
  predicate Fits(mm: Mm, blocks: seq<Block>, size: nat)
    requires |mm.vm| >= 2
  {
    || FirstFit(blocks, size) < |blocks|
    || BreakFor(mm.brk, size) < STACK_BASE || BreakFor(mm.brk, size) <= HeapVma(mm).end
  }

  /** What sbrk makes of the descriptor; brk's answer is lost. */
  function SbrkOf(mm: Mm, inc: nat): Mm
    requires |mm.vm| >= 2
  {
    if inc == 0 then mm else BrkOf(mm, MalignUp((mm.brk + inc) % U64)).0
  }

  /** The allocator as a value: the descriptor and the blocks in order. */
  datatype Pool = Pool(mm: Mm, blocks: seq<Block>) {

    /** malloc: the first free block that is large enough, or a new one at the break. */
    function Malloc(size: nat): (Pool, nat)
      requires |mm.vm| >= 2
    {
      var k := FirstFit(blocks, size);
      if k < |blocks| then (Pool(mm, blocks[k := blocks[k].(free := false)]), blocks[k].Payload())
      else (Pool(SbrkOf(mm, (size + HEADER) % U64), blocks + [Block(mm.brk, size, false)]), mm.brk + HEADER)
    }

    /** free marks the block whose payload is at `ptr`, and none for null. */
    function Free(ptr: nat): Pool {
      Pool(mm, Freed(blocks, ptr))
    }

    /** That block is free already. */
    ghost predicate DoubleFree(ptr: nat) {
      exists i :: 0 <= i < |blocks| && blocks[i].Payload() == ptr && blocks[i].free
    }
  }

  function Freed(blocks: seq<Block>, ptr: nat): (r: seq<Block>)
    ensures |r| == |blocks|
    ensures forall i :: 0 <= i < |blocks| ==> r[i] == blocks[i].(free := blocks[i].free || blocks[i].Payload() == ptr)
  {
    if blocks == [] then [] else [blocks[0].(free := blocks[0].free || blocks[0].Payload() == ptr)] + Freed(blocks[1..], ptr)
  }

  /** A break below the top of memory is computed without wrapping around. */
  lemma BreakExact(brk: nat, size: nat)
    requires BreakFor(brk, size) < U64 && size < U64
    ensures size + HEADER < U64 && NewBreak(brk, size) == BreakFor(brk, size) > brk + size + HEADER
  {
  }

  /** One that wraps around is below what the request needs. */
  lemma BreakWraps(brk: nat, size: nat)
    requires BreakFor(brk, size) >= U64
    ensures NewBreak(brk, size) < U64
    ensures brk + size + HEADER >= U64 || NewBreak(brk, size) == 0
  {
  }

  /** What sbrk did to the break and the heap's end tells whether the request fitted. */
  lemma BreakTells(brk: nat, size: nat, end: nat, brk': nat, end': nat)
    requires brk <= end <= STACK_BASE && size < U64
    requires var next := NewBreak(brk, size);
             if (size + HEADER) % U64 == 0 || next <= brk then brk' == brk && end' == end
             else brk' == next && (STACK_BASE <= next && end < next <==> end' < next)
    ensures brk + HEADER + size < brk' <= end' <==> BreakFor(brk, size) < STACK_BASE || BreakFor(brk, size) <= end
  {
    if BreakFor(brk, size) < U64 {
      BreakExact(brk, size);
    } else {
      BreakWraps(brk, size);
    }
  }

  lemma ChainedAppend(metas: map<nat, Meta>, head: nat, blocks: seq<Block>, b: Block)
    requires Chained(metas, head, blocks) && b.addr > 0 && !b.free
    requires forall i {:trigger Before(blocks[i], b)} :: 0 <= i < |blocks| ==> Before(blocks[i], b)
    ensures var m := metas[b.addr := Meta(b.size, 0, false)];
            if blocks == [] then Chained(m, b.addr, [b])
            else var l := blocks[|blocks| - 1].addr; l in m && Chained(m[l := m[l].(next := b.addr)], head, blocks + [b])
  {
    var m := metas[b.addr := Meta(b.size, 0, false)];
    if blocks != [] {
      var n := |blocks| - 1;
      var l, blocks' := blocks[n].addr, blocks + [b];
      assert Headed(metas, blocks, n) && Before(blocks[n], b);
      var m' := m[l := m[l].(next := b.addr)];
      forall i | 0 <= i < |blocks'| ensures Headed(m', blocks', i) {
        assert i < |blocks| ==> Headed(metas, blocks, i) && Before(blocks[i], b);
        assert i < n ==> Before(blocks[i], blocks[n]);
      }
      forall i, j | 0 <= i < j < |blocks'| ensures Before(blocks'[i], blocks'[j]) {
        assert j < |blocks| ==> Before(blocks[i], blocks[j]);
        assert Before(blocks[i], b);
      }
    }
  }

  lemma ChainedMark(metas: map<nat, Meta>, head: nat, blocks: seq<Block>, k: nat, free: bool)
    requires Chained(metas, head, blocks) && k < |blocks|
    ensures var a := blocks[k].addr; a in metas && Chained(metas[a := metas[a].(free := free)], head, blocks[k := blocks[k].(free := free)])
  {
    assert Headed(metas, blocks, k);
    var a, blocks' := blocks[k].addr, blocks[k := blocks[k].(free := free)];
    var m' := metas[a := metas[a].(free := free)];
    forall i | 0 <= i < |blocks| ensures Headed(m', blocks', i) {
      assert Headed(metas, blocks, i);
      assert i < k ==> Before(blocks[i], blocks[k]);
      assert k < i ==> Before(blocks[k], blocks[i]);
    }
    forall i, j | 0 <= i < j < |blocks'| ensures Before(blocks'[i], blocks'[j]) {
      assert Before(blocks[i], blocks[j]);
    }
  }

  lemma LivesAppend(blocks: seq<Block>, live: map<nat, nat>, b: Block)
    requires Lives(blocks, live) && !b.free
    requires forall i {:trigger Before(blocks[i], b)} :: 0 <= i < |blocks| ==> Before(blocks[i], b)
    ensures Lives(blocks + [b], live[b.Payload() := b.size]) && b.Payload() !in live
  {
    var blocks', live' := blocks + [b], live[b.Payload() := b.size];
    forall i | 0 <= i < |blocks| ensures blocks[i].Payload() != b.Payload() {
      assert Before(blocks[i], b);
    }
    forall i | 0 <= i < |blocks'| ensures InUse(live', blocks'[i]) {
      assert i < |blocks| ==> InUse(live, blocks[i]) && Before(blocks[i], b);
    }
    assert b in blocks';
    assert forall c :: c in blocks ==> c in blocks';
  }

  lemma BlockOf(blocks: seq<Block>, p: nat) returns (i: nat)
    requires p in Payloads(blocks)
    ensures i < |blocks| && blocks[i].Payload() == p
  {
    var b :| b in blocks && b.Payload() == p;
    i :| 0 <= i < |blocks| && blocks[i] == b;
  }

  /** Marking block `k` used or free; `live` changes at its payload only. */
  lemma LivesMark(metas: map<nat, Meta>, head: nat, blocks: seq<Block>, live: map<nat, nat>, k: nat, b: Block, live': map<nat, nat>)
    requires Chained(metas, head, blocks) && Lives(blocks, live) && k < |blocks| && b == blocks[k].(free := b.free)
    requires InUse(live', b) && live'.Keys <= live.Keys + {b.Payload()}
    requires forall p: nat :: p in live && p != b.Payload() ==> p in live' && live'[p] == live[p]
    ensures Lives(blocks[k := b], live')
  {
    var blocks' := blocks[k := b];
    forall i | 0 <= i < |blocks'| ensures InUse(live', blocks'[i]) {
      assert InUse(live, blocks[i]);
      assert i < k ==> Before(blocks[i], blocks[k]);
      assert k < i ==> Before(blocks[k], blocks[i]);
    }
    forall p: nat | p in live' ensures p in Payloads(blocks') {
      if p == b.Payload() {
        assert blocks'[k] in blocks';
      } else {
        var i := BlockOf(blocks, p);
        assert blocks'[i] in blocks';
      }
    }
  }

  /** Live payloads are disjoint from each other and from every header, and inside the heap. */
  lemma LiveApart(metas: map<nat, Meta>, head: nat, blocks: seq<Block>, live: map<nat, nat>, mm: Mm, p: nat, q: nat)
    requires Chained(metas, head, blocks) && Inside(mm, blocks) && Lives(blocks, live) && p in live
    ensures mm.startBrk < p && p + live[p] < mm.brk
    ensures q in live && q != p ==> p + live[p] < q - HEADER || q + live[q] < p - HEADER
    ensures forall i :: 0 <= i < |blocks| ==> p + live[p] < blocks[i].addr || blocks[i].addr + HEADER <= p
  {
    var k := BlockOf(blocks, p);
    assert InUse(live, blocks[k]) && Between(mm.startBrk, blocks[k], mm.brk);
    forall i | 0 <= i < |blocks| ensures i == k || blocks[k].End() < blocks[i].addr || blocks[i].End() < blocks[k].addr {
      assert i < k ==> Before(blocks[i], blocks[k]);
      assert k < i ==> Before(blocks[k], blocks[i]);
    }
    if q in live && q != p {
      var j := BlockOf(blocks, q);
      assert InUse(live, blocks[j]);
    }
  }

  /** Blocks stay where they are. */
  lemma PayloadsKept(blocks: seq<Block>, blocks': seq<Block>)
    requires |blocks| <= |blocks'| && forall i :: 0 <= i < |blocks| ==> blocks'[i].addr == blocks[i].addr
    ensures Payloads(blocks) <= Payloads(blocks')
  {
    forall p: nat | p in Payloads(blocks) ensures p in Payloads(blocks') {
      var i := BlockOf(blocks, p);
      assert blocks'[i] in blocks';
    }
  }

  lemma AllApart(metas: map<nat, Meta>, head: nat, blocks: seq<Block>, live: map<nat, nat>, mm: Mm)
    requires Chained(metas, head, blocks) && Inside(mm, blocks) && Lives(blocks, live)
    ensures forall p: nat :: p in live ==> Apart(blocks, live, mm, p)
  {
    forall p: nat | p in live ensures Apart(blocks, live, mm, p) {
      LiveApart(metas, head, blocks, live, mm, p, p);
      forall q: nat | q in live && q != p ensures p + live[p] < q || q + live[q] < p {
        LiveApart(metas, head, blocks, live, mm, p, q);
      }
    }
  }

  class Heap {
    var mm: Mm
    var head: nat
    var metas: map<nat, Meta>

    ghost var blocks: seq<Block>
    ghost var live: map<nat, nat>

    ghost predicate Valid()
      reads this
    {
      Chained(metas, head, blocks) && Inside(mm, blocks) && Lives(blocks, live)
    }

    constructor (m: Mm)
      requires WellFormed(m) && 0 < m.startBrk <= m.brk <= HeapVma(m).end
      ensures Valid() && mm == m && head == 0 && blocks == [] && live == map[]
    {
      mm, head, metas, blocks, live := m, 0, map[], [], map[];
    }

    /** sbrk; it does not notice that brk failed. */
    method Sbrk(inc: nat) returns (prev: nat)
      requires WellFormed(mm) && mm.brk < U64 && inc < U64
      modifies this`mm
      ensures prev == old(mm).brk && mm == SbrkOf(old(mm), inc)
      ensures WellFormed(mm) && mm.startBrk == old(mm).startBrk && HeapVma(mm).end >= HeapVma(old(mm)).end
      ensures var next := MalignUp((prev + inc) % U64);
              if inc == 0 || next <= prev then mm == old(mm)
              else mm.brk == next && (STACK_BASE <= next && HeapVma(old(mm)).end < next <==> HeapVma(mm).end < next)
    {
      var mm0, r0 := SysBrk(mm, 0xFFFF_FFFF_FFFF_FFFF);
      prev := r0.brk;
      if inc == 0 {
        return;
      }
      var p := MalignUp((prev + inc) % U64);
      NoMinusOne((prev + inc) % U64);
      var mm1, r1 := SysBrk(mm0, p);
      mm := mm1;
    }

    /** Room for one more block of `size` bytes, or not; sbrk does not tell. */
    method Grow(size: nat) returns (holder: nat)
      requires Inside(mm, blocks) && size < U64 && FirstFit(blocks, size) == |blocks|
      modifies this`mm
      ensures WellFormed(mm) && holder == old(mm).brk && mm == SbrkOf(old(mm), (size + HEADER) % U64)
      ensures holder + HEADER + size < mm.brk <= HeapVma(mm).end <==> Fits(old(mm), blocks, size)
      ensures Fits(old(mm), blocks, size) ==> Inside(mm, blocks + [Block(holder, size, false)])
    {
      holder := Sbrk((size + HEADER) % U64);
      BreakTells(holder, size, HeapVma(old(mm)).end, mm.brk, HeapVma(mm).end);
      ghost var b := Block(holder, size, false);
      if b.End() < mm.brk <= HeapVma(mm).end {
        InsideAppend(old(mm), mm, blocks, b);
      }
    }

    /** Writes the header at `holder` and hooks it to the end of the chain. */
    method Link(holder: nat, size: nat, last: nat)
      requires Chained(metas, head, blocks) && Lives(blocks, live) && holder > 0
      requires forall i {:trigger Before(blocks[i], Block(holder, size, false))} :: 0 <= i < |blocks| ==> Before(blocks[i], Block(holder, size, false))
      requires if blocks == [] then head == 0 else last == blocks[|blocks| - 1].addr
      modifies this`metas, this`head, this`blocks, this`live
      ensures Chained(metas, head, blocks) && Lives(blocks, live)
      ensures blocks == old(blocks) + [Block(holder, size, false)]
      ensures holder + HEADER !in old(live) && live == old(live)[holder + HEADER := size]
    {
      ghost var b := Block(holder, size, false);
      ChainedAppend(metas, head, blocks, b);
      LivesAppend(blocks, live, b);
      assert blocks != [] ==> Headed(metas, blocks, 0) && Headed(metas, blocks, |blocks| - 1);
      metas := metas[holder := Meta(size, 0, false)];
      if head == 0 {
        head := holder;
        assert blocks + [b] == [b];
      } else {
        metas := metas[last := metas[last].(next := holder)];
      }
      blocks := blocks + [b];
      live := live[b.Payload() := size];
    }

    /** The part of malloc that takes a new block from sbrk; `last` is the block at the end of the chain. */
    method NewBlock(size: nat, last: nat) returns (p: nat)
      requires Valid() && size < U64 && FirstFit(blocks, size) == |blocks|
      requires if blocks == [] then head == 0 else last == blocks[|blocks| - 1].addr
      modifies this
      ensures WellFormed(mm) && p == old(mm).brk + HEADER && p !in old(live)
      ensures p + size < mm.brk <= HeapVma(mm).end <==> Fits(old(mm), old(blocks), size)
      ensures (Pool(mm, blocks), p) == Pool(old(mm), old(blocks)).Malloc(size)
      ensures Fits(old(mm), old(blocks), size) ==> Valid() && live == old(live)[p := size]
    {
      InsideBefore(mm, blocks, Block(mm.brk, size, false));
      var holder := Grow(size);
      Link(holder, size, last);
      p := holder + HEADER;
    }

    /** malloc: the first free block that is large enough, or else a new one. It never reports a failure. */
    method Malloc(size: nat) returns (p: nat)
      requires Valid() && size < U64
      modifies this
      ensures WellFormed(mm) && p > 0
      ensures p + size < mm.brk <= HeapVma(mm).end <==> Fits(old(mm), old(blocks), size)
      ensures Fits(old(mm), old(blocks), size) ==> Valid() && p !in old(live) && live == old(live)[p := size]
      ensures (Pool(mm, blocks), p) == Pool(old(mm), old(blocks)).Malloc(size)
      ensures var k := FirstFit(old(blocks), size);
              if k < |old(blocks)| then p == old(blocks)[k].Payload() && blocks == old(blocks)[k := old(blocks)[k].(free := false)] && mm == old(mm)
              else p == old(mm).brk + HEADER && blocks == old(blocks) + [Block(old(mm).brk, size, false)]
    {
      var found, ptr, k := Search(size);
      if found {
        p := Take(ptr, k, size);
      } else {
        p := NewBlock(size, ptr);
      }
    }

    /** malloc's search loop: the first free block that is large enough, or the last block. */
    method Search(size: nat) returns (found: bool, ptr: nat, ghost k: nat)
      requires Chained(metas, head, blocks)
      ensures found <==> FirstFit(blocks, size) < |blocks|
      ensures found ==> k == FirstFit(blocks, size) && ptr == blocks[k].addr
      ensures !found ==> ptr == if blocks == [] then 0 else blocks[|blocks| - 1].addr
    {
      ptr, k, found := head, 0, false;
      assert blocks != [] ==> Headed(metas, blocks, 0);
      while ptr != 0
        invariant ptr == 0 ==> blocks == []
        invariant k <= |blocks| && ptr == NextAddr(blocks, k) && (blocks != [] ==> k < |blocks|)
        invariant forall i :: 0 <= i < k ==> !(blocks[i].free && blocks[i].size >= size)
        decreases |blocks| - k
      {
        assert Headed(metas, blocks, k);
        if metas[ptr].free && metas[ptr].size >= size {
          FirstFitIs(blocks, size, k);
          return true, ptr, k;
        }
        assert k + 1 < |blocks| ==> Headed(metas, blocks, k + 1);
        if metas[ptr].next != 0 {
          ptr := metas[ptr].next;
        } else {
          FirstFitIs(blocks, size, k + 1);
          return false, ptr, k;
        }
        k := k + 1;
      }
    }

    /** Takes the block: its free mark is cleared, and its address is the one after the header. */
    method Take(ptr: nat, ghost k: nat, size: nat) returns (p: nat)
      requires Valid() && k < |blocks| && ptr == blocks[k].addr && blocks[k].free && size <= blocks[k].size
      modifies this
      ensures Valid() && mm == old(mm) && p == old(blocks)[k].Payload() && p !in old(live) && live == old(live)[p := size]
      ensures blocks == old(blocks)[k := old(blocks)[k].(free := false)]
      ensures p + size < mm.brk
    {
      assert InUse(live, blocks[k]);
      ChainedMark(metas, head, blocks, k, false);
      InsideMark(mm, blocks, k, false);
      assert Between(mm.startBrk, blocks[k], mm.brk);
      LivesMark(metas, head, blocks, live, k, blocks[k].(free := false), live[blocks[k].Payload() := size]);
      metas := metas[ptr := metas[ptr].(free := false)];
      live := live[blocks[k].Payload() := size];
      blocks := blocks[k := blocks[k].(free := false)];
      p := ptr + HEADER;
    }

    /** free; a block that is free already ends the process. */
    method Free(ptr: nat) returns (exited: bool)
      requires Valid() && (ptr == 0 || ptr in Payloads(blocks))
      modifies this
      ensures exited <==> ptr != 0 && ptr !in old(live)
      ensures exited <==> Pool(mm, old(blocks)).DoubleFree(ptr)
      ensures Valid() && live == old(live) - {ptr} && Pool(mm, blocks) == Pool(old(mm), old(blocks)).Free(ptr)
      ensures exited ==> unchanged(this)
    {
      if ptr == 0 {
        return false;
      }
      ghost var k := BlockOf(blocks, ptr);
      assert Headed(metas, blocks, k) && InUse(live, blocks[k]);
      OneBlock(metas, head, blocks, k);
      var bloc := ptr - HEADER;
      if metas[bloc].free {
        assert live - {ptr} == live;
        return true;
      }
      ChainedMark(metas, head, blocks, k, true);
      InsideMark(mm, blocks, k, true);
      LivesMark(metas, head, blocks, live, k, blocks[k].(free := true), live - {ptr});
      metas := metas[bloc := metas[bloc].(free := true)];
      live := live - {ptr};
      blocks := blocks[k := blocks[k].(free := true)];
      return false;
    }
  }

  lemma OneBlock(metas: map<nat, Meta>, head: nat, blocks: seq<Block>, k: nat)
    requires Chained(metas, head, blocks) && k < |blocks|
    ensures forall i :: 0 <= i < |blocks| && i != k ==> blocks[i].Payload() != blocks[k].Payload()
  {
    forall i | 0 <= i < |blocks| && i != k ensures blocks[i].Payload() != blocks[k].Payload() {
      assert i < k ==> Before(blocks[i], blocks[k]);
      assert k < i ==> Before(blocks[k], blocks[i]);
    }
  }

  lemma InsideBefore(mm: Mm, blocks: seq<Block>, b: Block)
    requires Inside(mm, blocks) && b.addr == mm.brk
    ensures forall i {:trigger Before(blocks[i], b)} :: 0 <= i < |blocks| ==> Before(blocks[i], b)
  {
    forall i | 0 <= i < |blocks| ensures Before(blocks[i], b) {
      assert Between(mm.startBrk, blocks[i], mm.brk);
    }
  }

  lemma InsideAppend(mm: Mm, mm': Mm, blocks: seq<Block>, b: Block)
    requires Inside(mm, blocks) && b.addr == mm.brk && WellFormed(mm') && mm'.startBrk == mm.startBrk
    requires b.End() < mm'.brk <= HeapVma(mm').end
    ensures Inside(mm', blocks + [b])
  {
    var blocks' := blocks + [b];
    forall i | 0 <= i < |blocks'| ensures Between(mm'.startBrk, blocks'[i], mm'.brk) {
      assert i < |blocks| ==> Between(mm.startBrk, blocks[i], mm.brk);
    }
  }

  lemma InsideMark(mm: Mm, blocks: seq<Block>, k: nat, free: bool)
    requires Inside(mm, blocks) && k < |blocks|
    ensures Inside(mm, blocks[k := blocks[k].(free := free)])
  {
    var blocks' := blocks[k := blocks[k].(free := free)];
    forall i | 0 <= i < |blocks'| ensures Between(mm.startBrk, blocks'[i], mm.brk) {
      assert Between(mm.startBrk, blocks[i], mm.brk);
    }
  }

  lemma NoMinusOne(x: nat)
    ensures MalignUp(x) < 0xFFFF_FFFF_FFFF_FFFF
  {
    var y := x - x % MALIGN + MALIGN;
    assert y % MALIGN == 0;
    var z := y % U64;
    assert U64 == MALIGN * 0x400_0000_0000_0000;
    assert z % MALIGN == 0;
  }

  // ------------------------------------------------------------- whole runs

  /** malloc of a size, or free of what an earlier step of the run returned. */
  datatype Op = Alloc(size: nat) | Release(step: nat)

  /** The payload at `p` shares no byte with another live payload or a header, and lies between the start of the heap and the break. */
  ghost predicate Apart(blocks: seq<Block>, live: map<nat, nat>, mm: Mm, p: nat)
    requires p in live
  {
    && mm.startBrk < p && p + live[p] < mm.brk
    && (forall q: nat :: q in live && q != p ==> p + live[p] < q || q + live[q] < p)
    && (forall i :: 0 <= i < |blocks| ==> p + live[p] < blocks[i].addr || blocks[i].addr + HEADER <= p)
  }

  /** The payloads the program has asked for and not given back, with the sizes it asked for. */
  ghost function LiveAfter(ops: seq<Op>, ps: seq<nat>): map<nat, nat>
    requires |ps| <= |ops|
  {
    if ps == [] then map[]
    else
      var n := |ps| - 1;
      LiveNext(LiveAfter(ops, ps[..n]), ops[n], ps[..n], ps[n])
  }

  /** One more step, which returned `p`, after steps that returned `ps`. */
  ghost function LiveNext(live: map<nat, nat>, op: Op, ps: seq<nat>, p: nat): map<nat, nat> {
    if op.Alloc? then live[p := op.size] else if op.step < |ps| then live - {ps[op.step]} else live
  }

  /** What malloc returned at each step: a payload that was not in use, and null for a free. */
  ghost predicate Answered(ops: seq<Op>, ps: seq<nat>) {
    && |ps| <= |ops|
    && (forall i {:trigger ps[i]} :: 0 <= i < |ps| ==>
          if ops[i].Alloc? then ps[i] != 0 && ps[i] !in LiveAfter(ops, ps[..i]) else ps[i] == 0)
  }

  lemma AnsweredNext(ops: seq<Op>, ps: seq<nat>, p: nat)
    requires Answered(ops, ps) && |ps| < |ops|
    requires if ops[|ps|].Alloc? then p != 0 && p !in LiveAfter(ops, ps) else p == 0
    ensures Answered(ops, ps + [p])
    ensures LiveAfter(ops, ps + [p]) == LiveNext(LiveAfter(ops, ps), ops[|ps|], ps, p)
  {
    var ps' := ps + [p];
    assert ps'[..|ps|] == ps;
    forall i | 0 <= i < |ps'|
      ensures if ops[i].Alloc? then ps'[i] != 0 && ps'[i] !in LiveAfter(ops, ps'[..i]) else ps'[i] == 0
    {
      assert ps'[..i] == ps[..i];
      assert i < |ps| ==> ps'[i] == ps[i];
      assert ps[..|ps|] == ps;
    }
  }

  /** A run as a value: the pool, what each step returned, and whether the run has ended early. */
  datatype Trace = Trace(pool: Pool, ps: seq<nat>, ended: bool) {

    /** One step; it ends the run if the request does not fit, and if it frees a block twice. */
    ghost function Next(op: Op): (r: Trace)
      requires |pool.mm.vm| >= 2
      ensures |r.pool.mm.vm| == |pool.mm.vm|
    {
      if ended then this
      else match op
      case Alloc(size) =>
        var (q, p) := pool.Malloc(size);
        if Fits(pool.mm, pool.blocks, size) then Trace(q, ps + [p], false) else this.(ended := true)
      case Release(step) =>
        var ptr := if step < |ps| then ps[step] else 0;
        if pool.DoubleFree(ptr) then this.(ended := true) else Trace(pool.Free(ptr), ps + [0], false)
    }
  }

  ghost function TraceOf(m: Mm, ops: seq<Op>): (r: Trace)
    requires |m.vm| >= 2
    ensures |r.pool.mm.vm| == |m.vm|
  {
    if ops == [] then Trace(Pool(m, []), [], false) else TraceOf(m, ops[..|ops| - 1]).Next(ops[|ops| - 1])
  }

  lemma TraceNext(m: Mm, ops: seq<Op>, n: nat)
    requires |m.vm| >= 2 && n < |ops|
    ensures TraceOf(m, ops[..n + 1]) == TraceOf(m, ops[..n]).Next(ops[n])
  {
    assert ops[..n + 1][..n] == ops[..n];
  }

  /** A run that has ended does not go on. */
  lemma {:induction false} TraceEnded(m: Mm, ops: seq<Op>, n: nat)
    requires |m.vm| >= 2 && n <= |ops| && TraceOf(m, ops[..n]).ended
    ensures TraceOf(m, ops) == TraceOf(m, ops[..n])
    decreases |ops| - n
  {
    if n < |ops| {
      TraceNext(m, ops, n);
      TraceEnded(m, ops, n + 1);
    } else {
      assert ops[..n] == ops;
    }
  }

  /** malloc where the request fits. */
  method RunAlloc(h: Heap, size: nat) returns (ok: bool, p: nat)
    requires h.Valid() && size < U64
    modifies h
    ensures h.Valid() && (ok <==> Fits(old(h.mm), old(h.blocks), size)) && (!ok ==> unchanged(h))
    ensures ok ==> (Pool(h.mm, h.blocks), p) == Pool(old(h.mm), old(h.blocks)).Malloc(size)
    ensures ok ==> p != 0 && p !in old(h.live) && h.live == old(h.live)[p := size]
  {
    var found, last, k := h.Search(size);
    ok, p := true, 0;
    if !found && BreakFor(h.mm.brk, size) >= STACK_BASE && BreakFor(h.mm.brk, size) > HeapVma(h.mm).end {
      return false, p;
    }
    p := h.Malloc(size);
  }

  /** Every address returned so far is null or that of a block. */
  ghost predicate Known(blocks: seq<Block>, ps: seq<nat>) {
    forall i :: 0 <= i < |ps| ==> ps[i] == 0 || ps[i] in Payloads(blocks)
  }

  lemma KnownMalloc(pool: Pool, size: nat, ps: seq<nat>)
    requires Known(pool.blocks, ps) && |pool.mm.vm| >= 2
    ensures var (q, p) := pool.Malloc(size); Known(q.blocks, ps + [p])
  {
    var (q, p) := pool.Malloc(size);
    PayloadsKept(pool.blocks, q.blocks);
    var k := FirstFit(pool.blocks, size);
    assert q.blocks[k].Payload() == p && q.blocks[k] in q.blocks;
  }

  lemma KnownFree(blocks: seq<Block>, ptr: nat, ps: seq<nat>)
    requires Known(blocks, ps)
    ensures Known(Freed(blocks, ptr), ps + [0])
  {
    PayloadsKept(blocks, Freed(blocks, ptr));
  }

  /** A step of a run on the heap `h`. */
  method RunOp(h: Heap, op: Op, ps: seq<nat>) returns (ok: bool, p: nat)
    requires h.Valid() && Known(h.blocks, ps) && (op.Alloc? ==> op.size < U64) && (op.Release? ==> op.step < |ps|)
    modifies h
    ensures h.Valid() && (!ok ==> unchanged(h)) && (ok ==> Known(h.blocks, ps + [p]))
    ensures Trace(Pool(h.mm, h.blocks), if ok then ps + [p] else ps, !ok) == Trace(Pool(old(h.mm), old(h.blocks)), ps, false).Next(op)
    ensures ok ==> h.live == LiveNext(old(h.live), op, ps, p) && if op.Alloc? then p != 0 && p !in old(h.live) else p == 0
    ensures !ok ==> if op.Alloc? then !Fits(h.mm, h.blocks, op.size) else ps[op.step] != 0 && ps[op.step] !in h.live
  {
    if op.Alloc? {
      KnownMalloc(Pool(h.mm, h.blocks), op.size, ps);
      ok, p := RunAlloc(h, op.size);
    } else {
      KnownFree(h.blocks, ps[op.step], ps);
      var exited := h.Free(ps[op.step]);
      ok, p := !exited, 0;
    }
  }

  /** After the steps that returned `ps`: where the run as a value is, with the program's own requests live. */
  ghost predicate Progress(m: Mm, ops: seq<Op>, mm: Mm, blocks: seq<Block>, live: map<nat, nat>, ps: seq<nat>)
    requires |m.vm| >= 2
  {
    && Answered(ops, ps) && live == LiveAfter(ops, ps) && Known(blocks, ps)
    && Trace(Pool(mm, blocks), ps, false) == TraceOf(m, ops[..|ps|])
  }

  lemma ProgressNext(m: Mm, ops: seq<Op>, mm: Mm, blocks: seq<Block>, live: map<nat, nat>, ps: seq<nat>, mm': Mm, blocks': seq<Block>, live': map<nat, nat>, p: nat)
    requires |m.vm| >= 2 && |mm.vm| >= 2 && |ps| < |ops| && Progress(m, ops, mm, blocks, live, ps) && Known(blocks', ps + [p])
    requires Trace(Pool(mm', blocks'), ps + [p], false) == Trace(Pool(mm, blocks), ps, false).Next(ops[|ps|])
    requires live' == LiveNext(live, ops[|ps|], ps, p) && if ops[|ps|].Alloc? then p != 0 && p !in live else p == 0
    ensures Progress(m, ops, mm', blocks', live', ps + [p])
  {
    TraceNext(m, ops, |ps|);
    AnsweredNext(ops, ps, p);
  }

  lemma ProgressEnds(m: Mm, ops: seq<Op>, mm: Mm, blocks: seq<Block>, live: map<nat, nat>, ps: seq<nat>)
    requires |m.vm| >= 2 && |mm.vm| >= 2 && |ps| < |ops| && Progress(m, ops, mm, blocks, live, ps)
    requires Trace(Pool(mm, blocks), ps, false).Next(ops[|ps|]) == Trace(Pool(mm, blocks), ps, true)
    ensures TraceOf(m, ops) == Trace(Pool(mm, blocks), ps, true)
  {
    TraceNext(m, ops, |ps|);
    TraceEnded(m, ops, |ps| + 1);
  }

  /**
   Any run of malloc and free, up to the first request that does not fit or a
   double free: what each step returns, where the run ends and the blocks it
   leaves follow from the descriptor and the steps alone; the live payloads are
   the program's own requests, each of the size it asked for, and they share no
   byte with each other or with a header.
   */
  method Run(m: Mm, ops: seq<Op>) returns (h: Heap, ps: seq<nat>)
    requires WellFormed(m) && 0 < m.startBrk <= m.brk <= HeapVma(m).end
    requires forall i :: 0 <= i < |ops| && ops[i].Alloc? ==> ops[i].size < U64
    requires forall i :: 0 <= i < |ops| && ops[i].Release? ==> ops[i].step < i
    ensures Trace(Pool(h.mm, h.blocks), ps, |ps| < |ops|) == TraceOf(m, ops)
    ensures h.Valid() && Answered(ops, ps) && h.live == LiveAfter(ops, ps)
    ensures forall p: nat :: p in h.live ==> Apart(h.blocks, h.live, h.mm, p)
    ensures |ps| < |ops| && ops[|ps|].Alloc? ==> !Fits(h.mm, h.blocks, ops[|ps|].size)
    ensures |ps| < |ops| && ops[|ps|].Release? ==> ps[ops[|ps|].step] != 0 && ps[ops[|ps|].step] !in h.live
  {
    h := new Heap(m);
    ps := [];
    while |ps| < |ops|
      invariant fresh(h) && h.Valid() && |ps| <= |ops| && Progress(m, ops, h.mm, h.blocks, h.live, ps)
      decreases |ops| - |ps|
    {
      ghost var mm, blocks, live := h.mm, h.blocks, h.live;
      var ok, p := RunOp(h, ops[|ps|], ps);
      if !ok {
        ProgressEnds(m, ops, mm, blocks, live, ps);
        AllApart(h.metas, h.head, h.blocks, h.live, h.mm);
        return;
      }
      ProgressNext(m, ops, mm, blocks, live, ps, h.mm, h.blocks, h.live, p);
      ps := ps + [p];
    }
    assert ops[..|ops|] == ops;
    AllApart(h.metas, h.head, h.blocks, h.live, h.mm);
  }

  /** With an empty heap one page above zero, brk refuses what malloc asks for, and malloc returns a payload outside the heap. */
  lemma RefusedExample()
    ensures var m := Mm(0, [Vma(PGSIZE, PGSIZE, Heap), Vma(STACK_BASE, USER_STACK_TOP, Stack)], PGSIZE, PGSIZE);
            var (pool, p) := Pool(m, []).Malloc(STACK_BASE);
            && WellFormed(m) && HeapFits(m) && !Fits(m, [], STACK_BASE)
            && BrkOf(m, NewBreak(PGSIZE, STACK_BASE)).1 == Collision
            && p == PGSIZE + HEADER && HeapVma(pool.mm).end < p
  {
    var m := Mm(0, [Vma(PGSIZE, PGSIZE, Heap), Vma(STACK_BASE, USER_STACK_TOP, Stack)], PGSIZE, PGSIZE);
    assert m.vm[..0] == [];
    BreakExact(PGSIZE, STACK_BASE);
  }
}
