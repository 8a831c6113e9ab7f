/**
 Building a process from an executable: the address-space half of `load_elf`
 in `sys/elf64.c`, with the bytes it puts into the new process's memory.
 */
module Loader {
  import opened Bits
  import opened Bytes
  import opened Machine
  import opened Pointers
  import opened PageTable
  import opened Paging
  import opened Cow
  import opened Demand
  import opened Layout
  import opened Fork
  import opened Process
  import opened User
  import opened Footprint

  // --------------------------------------------------- memory byte by byte

  /** The byte a process sees at address `a`. */
  ghost function ByteAt(u: UserMap, mem: Memory, r: nat, a: nat): nat {
    var page := View(u, mem, (r, PageOf(a)));
    if WordOf(a) < |page| then Byte(page[WordOf(a)], a % 8) else 0
  }

  /** An address is its page, its word in the page, and its byte in the word. */
  lemma AddressParts(a: nat, b: nat)
    requires a < USER_END && b < USER_END && PageOf(a) == PageOf(b) && WordOf(a) == WordOf(b) && a % 8 == b % 8
    ensures a == b
  {
    UserPageInjective(a, b);
    Offset(a);
    Offset(b);
  }

  lemma Offset(a: nat)
    ensures a == AlignDown(a) + WordOf(a) * 8 + a % 8
  {
    assert a % PGSIZE % 8 == a % 8;
  }

  /** Between the two memories only byte `a` of space `r` differs; it is `b` now. */
  ghost predicate WroteByte(u: UserMap, mem: Memory, mem': Memory, r: nat, a: nat, b: nat) {
    forall q: nat, c: nat {:trigger ByteAt(u, mem', q, c)} :: c < USER_END ==>
      ByteAt(u, mem', q, c) == if q == r && c == a then b else ByteAt(u, mem, q, c)
  }

  /** Processes other than the one at `r` see no change. */
  ghost predicate OthersSee(u: UserMap, mem: Memory, u': UserMap, mem': Memory, r: nat) {
    forall key: Key {:trigger SeesSame(u, mem, u', mem', key)} :: key.0 != r ==> SeesSame(u, mem, u', mem', key)
  }

  lemma OthersSeeTrans(u: UserMap, mem: Memory, u1: UserMap, mem1: Memory, u2: UserMap, mem2: Memory, r: nat)
    requires OthersSee(u, mem, u1, mem1, r) && OthersSee(u1, mem1, u2, mem2, r)
    ensures OthersSee(u, mem, u2, mem2, r)
  {
    forall key: Key | key.0 != r ensures SeesSame(u, mem, u2, mem2, key) {
      assert SeesSame(u, mem, u1, mem1, key) && SeesSame(u1, mem1, u2, mem2, key);
    }
  }

  /** A byte store by the kernel to a writable page of the current space. */
  method StoreByte(s: Vm, ghost g: Shape, a: nat, b: nat) returns (s': Vm)
    requires Sound(s, g) && a < USER_END && b < 256
    requires (s.cr3, PageOf(a)) in g.maps.user && Writable(g.maps.user[(s.cr3, PageOf(a))])
    ensures Sound(s', g) && s' == s.(mem := s'.mem)
    ensures WroteByte(g.maps.user, s.mem, s'.mem, s.cr3, a, b) && OthersSee(g.maps.user, s.mem, g.maps.user, s'.mem, s.cr3)
  {
    var w := Load(s, g, a);
    s' := StoreWord(s, g, a, SetByte(w, a % 8, b));
    forall q: nat, c: nat | c < USER_END
      ensures ByteAt(g.maps.user, s'.mem, q, c) == if q == s.cr3 && c == a then b else ByteAt(g.maps.user, s.mem, q, c)
    {
      ByteAfter(s, g, s', a, w, b, q, c);
    }
  }

  lemma ByteAfter(s: Vm, g: Shape, s': Vm, a: nat, w: nat, b: nat, q: nat, c: nat)
    requires b < 256 && a < USER_END && c < USER_END
    requires WroteWord(s, g, s', g, (s.cr3, PageOf(a)), WordOf(a), SetByte(w, a % 8, b))
    requires w == View(g.maps.user, s.mem, (s.cr3, PageOf(a)))[WordOf(a)]
    ensures ByteAt(g.maps.user, s'.mem, q, c) == if q == s.cr3 && c == a then b else ByteAt(g.maps.user, s.mem, q, c)
  {
    var u, key := g.maps.user, (s.cr3, PageOf(a));
    if (q, PageOf(c)) != key {
      assert SeesSame(u, s.mem, u, s'.mem, (q, PageOf(c)));
    } else if WordOf(c) == WordOf(a) {
      SetThenByte(w, a % 8, b, c % 8);
      if c % 8 == a % 8 {
        AddressParts(a, c);
      }
    }
  }

  /** Every page of the current space that starts in the range is mapped writable. */
  ghost predicate WritableRange(u: UserMap, r: nat, lo: nat, hi: nat) {
    forall a: nat {:trigger PageOf(a)} :: lo <= a < hi ==> (r, PageOf(a)) in u && Writable(u[(r, PageOf(a))])
  }

  /** Bytes [dst, dst + |src|) of space `r` are `src` now; nothing else differs. */
  ghost predicate WroteBytes(u: UserMap, mem: Memory, mem': Memory, r: nat, dst: nat, src: seq<nat>) {
    forall q: nat, c: nat {:trigger ByteAt(u, mem', q, c)} :: c < USER_END ==>
      ByteAt(u, mem', q, c) == if q == r && dst <= c < dst + |src| then src[c - dst] else ByteAt(u, mem, q, c)
  }

  /** memmove of a byte sequence into the current space. */
  method CopyIn(s: Vm, ghost g: Shape, dst: nat, src: seq<nat>) returns (s': Vm)
    requires Sound(s, g) && dst + |src| <= USER_END && (forall i :: 0 <= i < |src| ==> src[i] < 256)
    requires WritableRange(g.maps.user, s.cr3, dst, dst + |src|)
    ensures Sound(s', g) && s' == s.(mem := s'.mem)
    ensures WroteBytes(g.maps.user, s.mem, s'.mem, s.cr3, dst, src) && OthersSee(g.maps.user, s.mem, g.maps.user, s'.mem, s.cr3)
  {
    s' := s;
    for i := 0 to |src|
      invariant Sound(s', g) && s' == s.(mem := s'.mem)
      invariant WroteBytes(g.maps.user, s.mem, s'.mem, s.cr3, dst, src[..i])
      invariant OthersSee(g.maps.user, s.mem, g.maps.user, s'.mem, s.cr3)
    {
      ghost var before := s'.mem;
      assert (s.cr3, PageOf(dst + i)) in g.maps.user;
      s' := StoreByte(s', g, dst + i, src[i]);
      WroteOneMore(g.maps.user, s.mem, before, s'.mem, s.cr3, dst, src, i);
      OthersSeeTrans(g.maps.user, s.mem, g.maps.user, before, g.maps.user, s'.mem, s.cr3);
    }
    assert src[..|src|] == src;
  }

  lemma WroteOneMore(u: UserMap, mem: Memory, mem1: Memory, mem2: Memory, r: nat, dst: nat, src: seq<nat>, i: nat)
    requires i < |src| && WroteBytes(u, mem, mem1, r, dst, src[..i]) && WroteByte(u, mem1, mem2, r, dst + i, src[i])
    ensures WroteBytes(u, mem, mem2, r, dst, src[..i + 1])
  {
    forall q: nat, c: nat | c < USER_END
      ensures ByteAt(u, mem2, q, c) == if q == r && dst <= c < dst + (i + 1) then src[..i + 1][c - dst] else ByteAt(u, mem, q, c)
    {
      assert ByteAt(u, mem1, q, c) == if q == r && dst <= c < dst + i then src[..i][c - dst] else ByteAt(u, mem, q, c);
    }
  }

  // -------------------------------------------------------------- segments

  datatype Phdr = Phdr(kind: nat, offset: nat, vaddr: nat, filesz: nat, memsz: nat)

  const PT_LOAD := 1

  function SegVma(ph: Phdr): Vma {
    Vma(ph.vaddr, ph.vaddr + ph.memsz, Data)
  }

  /** A loadable segment the loader can place: its bytes are in the file, it lies below the stack, its size is an int. */
  ghost predicate SegmentOk(file: seq<nat>, ph: Phdr) {
    && ph.filesz <= ph.memsz < 0x8000_0000 && ph.offset + ph.filesz <= |file|
    && ph.vaddr + ph.memsz <= STACK_BASE
  }

  ghost predicate IsBytes(file: seq<nat>) {
    forall i :: 0 <= i < |file| ==> file[i] < 256
  }

  /** The byte a loaded segment holds at address `a`. */
  function SegmentByte(file: seq<nat>, ph: Phdr, a: nat): nat
    requires ph.offset + ph.filesz <= |file| && ph.vaddr <= a
  {
    if a < ph.vaddr + ph.filesz then file[ph.offset + (a - ph.vaddr)] else 0
  }

  /** Segments that can be loaded together: no two share a page. */
  ghost predicate SegmentsOk(file: seq<nat>, segs: seq<Phdr>) {
    && IsBytes(file)
    && (forall i :: 0 <= i < |segs| ==> SegmentOk(file, segs[i]))
    && (forall i, j :: 0 <= i < j < |segs| ==> PageDisjoint(SegVma(segs[i]), SegVma(segs[j])))
  }

  /** The byte at `a` once the segments have been loaded in order; zero outside them. */
  ghost function ImageByte(file: seq<nat>, segs: seq<Phdr>, a: nat): nat
    requires SegmentsOk(file, segs)
  {
    if segs == [] then 0
    else
      var n := |segs| - 1;
      var ph := segs[n];
      assert SegmentOk(file, segs[n]);
      if ph.vaddr <= a < ph.vaddr + ph.memsz then SegmentByte(file, ph, a) else ImageByte(file, segs[..n], a)
  }

  /** Page-disjoint segments do not overwrite each other: each one's bytes are in the image. */
  lemma {:induction false} SegmentInImage(file: seq<nat>, segs: seq<Phdr>, i: nat, a: nat)
    requires SegmentsOk(file, segs) && i < |segs| && segs[i].vaddr <= a < segs[i].vaddr + segs[i].memsz
    ensures var ph := segs[i];
            && ph.offset + ph.filesz <= |file|
            && ImageByte(file, segs, a) == if a - ph.vaddr < ph.filesz then file[ph.offset + (a - ph.vaddr)] else 0
  {
    assert SegmentOk(file, segs[i]);
    var n := |segs| - 1;
    if i < n {
      assert PageDisjoint(SegVma(segs[i]), SegVma(segs[n]));
      SegmentInImage(file, segs[..n], i, a);
    }
  }

  /** Outside all segments the image is zero. */
  lemma {:induction false} OutsideImage(file: seq<nat>, segs: seq<Phdr>, a: nat)
    requires SegmentsOk(file, segs) && forall i :: 0 <= i < |segs| ==> !(segs[i].vaddr <= a < segs[i].vaddr + segs[i].memsz)
    ensures ImageByte(file, segs, a) == 0
  {
    if segs != [] {
      var n := |segs| - 1;
      assert !(segs[n].vaddr <= a < segs[n].vaddr + segs[n].memsz);
      forall i | 0 <= i < n ensures !(segs[..n][i].vaddr <= a < segs[..n][i].vaddr + segs[..n][i].memsz) {
        assert segs[..n][i] == segs[i];
      }
      OutsideImage(file, segs[..n], a);
    }
  }

  lemma SightBytes(u: UserMap, mem: Memory, u': UserMap, mem': Memory, r: nat, a: nat)
    requires SameViews(u, mem, u', mem')
    ensures ByteAt(u', mem', r, a) == ByteAt(u, mem, r, a)
  {
    assert SeesSame(u, mem, u', mem', (r, PageOf(a)));
  }

  /** Bytes of the range have been set to the segment's; nothing else anybody sees has changed. */
  ghost predicate SegmentWritten(s: Vm, g: Shape, s': Vm, g': Shape, file: seq<nat>, ph: Phdr)
    requires ph.offset + ph.filesz <= |file|
  {
    forall q: nat, c: nat {:trigger ByteAt(g'.maps.user, s'.mem, q, c)} :: c < USER_END ==>
      ByteAt(g'.maps.user, s'.mem, q, c) ==
        if q == s.cr3 && ph.vaddr <= c < ph.vaddr + ph.memsz then SegmentByte(file, ph, c) else ByteAt(g.maps.user, s.mem, q, c)
  }

  /** No page the segment reaches into is mapped yet. */
  ghost predicate Untouched(u: UserMap, r: nat, v: Vma) {
    forall p: Page {:trigger (r, p) in u} :: (r, p) in u ==> !Touches(v, UserAddr(p))
  }

  lemma FilledWritable(u: UserMap, u': UserMap, r: nat, v: Vma)
    requires Untouched(u, r, v) && v.end <= USER_END
    requires Grew(u, u', r, AlignDown(v.start), v.end) && Filled(u', r, AlignDown(v.start), v.end)
    ensures WritableRange(u', r, v.start, v.end)
  {
    forall a: nat | v.start <= a < v.end
      ensures (r, PageOf(a)) in u' && Writable(u'[(r, PageOf(a))])
    {
      UserPage(a);
      AlignDownMono(v.start, a);
      var p := PageOf(a);
      assert (r, p) in u';
      assert (r, p) !in u;
    }
  }

  /** kmmap over a segment fills exactly the pages it reaches into. */
  lemma SegmentRange(ph: Phdr)
    requires ph.memsz < 0x8000_0000 && ph.vaddr + ph.memsz <= STACK_BASE
    ensures FillEnd(ph.vaddr, ph.memsz) == ph.vaddr + ph.memsz
  {
    NumPagesExact(ph.vaddr, ph.memsz);
  }

  /** The pages of a segment. */
  ghost function SegPages(ph: Phdr): set<Page> {
    FillSet(AlignDown(ph.vaddr), PageCount(ph.vaddr, ph.memsz))
  }

  /** On pages that are all new, kmmap needs a frame for each and for its new tables. */
  lemma SegmentNeed(u: UserMap, r: nat, ph: Phdr)
    requires ph.memsz < 0x8000_0000 && ph.vaddr + ph.memsz <= STACK_BASE && Untouched(u, r, SegVma(ph))
    ensures FillNeed(Pages(u, r), AlignDown(ph.vaddr), PageCount(ph.vaddr, ph.memsz)) == Cost(Pages(u, r) + SegPages(ph)) - Cost(Pages(u, r))
  {
    var lo, n := AlignDown(ph.vaddr), PageCount(ph.vaddr, ph.memsz);
    NumPagesExact(ph.vaddr, ph.memsz);
    if n == 0 {
      assert Pages(u, r) + {} == Pages(u, r);
    } else {
      LastNew(u, r, SegVma(ph), lo, n);
    }
  }

  lemma LastNew(u: UserMap, r: nat, v: Vma, lo: nat, n: nat)
    requires Untouched(u, r, v) && lo == AlignDown(v.start) && n > 0 && lo + (n - 1) * PGSIZE < v.end <= USER_END
    ensures FillPage(lo, n - 1) !in Pages(u, r)
  {
    var a := lo + (n - 1) * PGSIZE;
    FillPageIs(lo, n - 1);
    UserPage(a);
    AlignedPage(lo, n - 1);
    assert Touches(v, UserAddr(PageOf(a)));
  }

  /** A step of loading: the memory invariant holds again and roots stay roots. */
  ghost predicate LoadStep(s: Vm, g: Shape, s': Vm, g': Shape) {
    && Sound(s', g')
    && s' == s.(mem := s'.mem, alloc := s'.alloc)
    && (forall r: nat :: IsRoot(g.role, r) ==> IsRoot(g'.role, r))
  }

  /** The free frames suffice for the segment's pages and their tables. */
  ghost predicate SegmentFits(s: Vm, g: Shape, ph: Phdr) {
    Cost(Pages(g.maps.user, s.cr3) + SegPages(ph)) <= Held(s, g, s.cr3)
  }

  ghost predicate SegmentTakes(s: Vm, g: Shape, s': Vm, g': Shape, ph: Phdr) {
    Held(s', g', s.cr3) == Held(s, g, s.cr3) && Pages(g'.maps.user, s.cr3) == Pages(g.maps.user, s.cr3) + SegPages(ph)
  }

  /** kmmap(s_vaddr, size, vma_flag): afterwards the whole segment can be written. */
  method MapSegment(s: Vm, ghost g: Shape, ph: Phdr) returns (ok: bool, s': Vm, ghost g': Shape)
    requires Sound(s, g) && ph.memsz < 0x8000_0000 && ph.vaddr + ph.memsz <= STACK_BASE && Untouched(g.maps.user, s.cr3, SegVma(ph))
    ensures ok ==> LoadStep(s, g, s', g') && SameSight(s, g, s', g')
    ensures ok ==> Grew(g.maps.user, g'.maps.user, s.cr3, AlignDown(ph.vaddr), ph.vaddr + ph.memsz)
    ensures ok ==> WritableRange(g'.maps.user, s.cr3, ph.vaddr, ph.vaddr + ph.memsz)
    ensures ok <==> SegmentFits(s, g, ph)
    ensures ok ==> SegmentTakes(s, g, s', g', ph)
  {
    SegmentNeed(g.maps.user, s.cr3, ph);
    ok, s', g' := KMmap(s, g, ph.vaddr, ph.memsz);
    if ok {
      SegmentRange(ph);
      FilledWritable(g.maps.user, g'.maps.user, s.cr3, SegVma(ph));
    }
  }

  /** The file's bytes are copied to the mapped segment and the rest is cleared. */
  method WriteSegment(s: Vm, ghost g: Shape, file: seq<nat>, ph: Phdr) returns (s': Vm)
    requires Sound(s, g) && IsBytes(file) && SegmentOk(file, ph) && WritableRange(g.maps.user, s.cr3, ph.vaddr, ph.vaddr + ph.memsz)
    ensures Sound(s', g) && s' == s.(mem := s'.mem)
    ensures SegmentWritten(s, g, s', g, file, ph) && OthersSee(g.maps.user, s.mem, g.maps.user, s'.mem, s.cr3)
  {
    var text := file[ph.offset..ph.offset + ph.filesz];
    var bss := seq(ph.memsz - ph.filesz, i => 0);
    var s1 := CopyIn(s, g, ph.vaddr, text);
    s' := CopyIn(s1, g, ph.vaddr + ph.filesz, bss);
    SegmentBytes(s, g, s1, s', file, ph, text, bss);
    OthersSeeTrans(g.maps.user, s.mem, g.maps.user, s1.mem, g.maps.user, s'.mem, s.cr3);
  }

  lemma SegmentBytes(s: Vm, g: Shape, s1: Vm, s2: Vm, file: seq<nat>, ph: Phdr, text: seq<nat>, bss: seq<nat>)
    requires SegmentOk(file, ph) && text == file[ph.offset..ph.offset + ph.filesz]
    requires |bss| == ph.memsz - ph.filesz && forall i :: 0 <= i < |bss| ==> bss[i] == 0
    requires WroteBytes(g.maps.user, s.mem, s1.mem, s.cr3, ph.vaddr, text)
    requires WroteBytes(g.maps.user, s1.mem, s2.mem, s.cr3, ph.vaddr + ph.filesz, bss)
    ensures SegmentWritten(s, g, s2, g, file, ph)
  {
    var u := g.maps.user;
    forall q: nat, c: nat | c < USER_END
      ensures ByteAt(u, s2.mem, q, c) ==
                if q == s.cr3 && ph.vaddr <= c < ph.vaddr + ph.memsz then SegmentByte(file, ph, c) else ByteAt(u, s.mem, q, c)
    {
      assert ByteAt(u, s1.mem, q, c) == if q == s.cr3 && ph.vaddr <= c < ph.vaddr + |text| then text[c - ph.vaddr] else ByteAt(u, s.mem, q, c);
    }
  }

  lemma SegmentPlaced(s: Vm, g: Shape, s1: Vm, g1: Shape, s2: Vm, file: seq<nat>, ph: Phdr)
    requires SameSight(s, g, s1, g1) && SegmentOk(file, ph) && s1.cr3 == s.cr3 && SegmentWritten(s1, g1, s2, g1, file, ph)
    requires OthersSee(g1.maps.user, s1.mem, g1.maps.user, s2.mem, s.cr3)
    ensures SegmentWritten(s, g, s2, g1, file, ph) && OthersSee(g.maps.user, s.mem, g1.maps.user, s2.mem, s.cr3)
  {
    var u1 := g1.maps.user;
    forall q: nat, c: nat | c < USER_END
      ensures ByteAt(u1, s2.mem, q, c) ==
                if q == s.cr3 && ph.vaddr <= c < ph.vaddr + ph.memsz then SegmentByte(file, ph, c) else ByteAt(g.maps.user, s.mem, q, c)
    {
      SightBytes(g.maps.user, s.mem, u1, s1.mem, q, c);
    }
    OthersSeeTrans(g.maps.user, s.mem, u1, s1.mem, u1, s2.mem, s.cr3);
  }

  /** One pass of load_elf's segment loop, in the new address space: map, copy the file's bytes, clear the rest. */
  method LoadSegment(s: Vm, ghost g: Shape, file: seq<nat>, ph: Phdr) returns (ok: bool, s': Vm, ghost g': Shape)
    requires Sound(s, g) && IsBytes(file) && SegmentOk(file, ph) && Untouched(g.maps.user, s.cr3, SegVma(ph))
    ensures ok ==> LoadStep(s, g, s', g')
    ensures ok ==> Grew(g.maps.user, g'.maps.user, s.cr3, AlignDown(ph.vaddr), ph.vaddr + ph.memsz)
    ensures ok ==> SegmentWritten(s, g, s', g', file, ph) && OthersSee(g.maps.user, s.mem, g'.maps.user, s'.mem, s.cr3)
    ensures ok <==> SegmentFits(s, g, ph)
    ensures ok ==> SegmentTakes(s, g, s', g', ph)
  {
    ok, s', g' := MapSegment(s, g, ph);
    if ok {
      ghost var s1 := s';
      s' := WriteSegment(s', g', file, ph);
      SegmentPlaced(s, g, s1, g', s', file, ph);
    }
  }

  // ------------------------------------------------------------- the loop

  function Loadable(phdrs: seq<Phdr>): seq<Phdr> {
    if phdrs == [] then []
    else
      var n := |phdrs| - 1;
      Loadable(phdrs[..n]) + (if phdrs[n].kind == PT_LOAD then [phdrs[n]] else [])
  }

  /** The headers `segs` are those of type 1, and only those, in the order they come in; `at` is where. */
  ghost predicate Selected(phdrs: seq<Phdr>, segs: seq<Phdr>, at: seq<nat>) {
    && |at| == |segs|
    && (forall k :: 0 <= k < |at| ==> at[k] < |phdrs| && segs[k] == phdrs[at[k]])
    && (forall k, l :: 0 <= k < l < |at| ==> at[k] < at[l])
    && (forall i :: 0 <= i < |phdrs| ==> (i in at <==> phdrs[i].kind == 1))
  }

  lemma {:induction false} LoadableAt(phdrs: seq<Phdr>) returns (at: seq<nat>)
    ensures Selected(phdrs, Loadable(phdrs), at)
  {
    if phdrs == [] {
      at := [];
    } else {
      var n := |phdrs| - 1;
      at := LoadableAt(phdrs[..n]);
      assert phdrs == phdrs[..n] + [phdrs[n]];
      SelectNext(phdrs[..n], phdrs[n], Loadable(phdrs[..n]), at);
      if phdrs[n].kind == PT_LOAD {
        at := at + [n];
      }
    }
  }

  lemma SelectNext(phdrs: seq<Phdr>, ph: Phdr, segs: seq<Phdr>, at: seq<nat>)
    requires Selected(phdrs, segs, at)
    ensures ph.kind == 1 ==> Selected(phdrs + [ph], segs + [ph], at + [|phdrs|])
    ensures ph.kind != 1 ==> Selected(phdrs + [ph], segs + [], at)
  {
    assert segs + [] == segs;
  }

  function Vmas(segs: seq<Phdr>): (vm: seq<Vma>)
    ensures |vm| == |segs| && forall i :: 0 <= i < |segs| ==> vm[i] == SegVma(segs[i])
  {
    seq(|segs|, i requires 0 <= i < |segs| => SegVma(segs[i]))
  }

  /** Every byte of the lower half is the image's. */
  ghost predicate ImageIn(u: UserMap, mem: Memory, r: nat, file: seq<nat>, segs: seq<Phdr>)
    requires SegmentsOk(file, segs)
  {
    forall c: nat {:trigger ByteAt(u, mem, r, c)} :: c < USER_END ==> ByteAt(u, mem, r, c) == ImageByte(file, segs, c)
  }

  /** Address space `r` holds the image of the segments loaded so far and nothing else. */
  ghost predicate Imaged(s: Vm, g: Shape, r: nat, file: seq<nat>, segs: seq<Phdr>)
    requires SegmentsOk(file, segs)
  {
    && (forall p: Page {:trigger InVmas(Vmas(segs), p)} :: (r, p) in g.maps.user ==> InVmas(Vmas(segs), p))
    && ImageIn(g.maps.user, s.mem, r, file, segs)
  }

  /** What loading into the current space leaves of everything else. */
  ghost predicate Loading(s0: Vm, g0: Shape, s: Vm, g: Shape) {
    && LoadStep(s0, g0, s, g)
    && (forall key: Key {:trigger key in g.maps.user} :: key.0 != s0.cr3 ==> (key in g.maps.user <==> key in g0.maps.user))
    && OthersSee(g0.maps.user, s0.mem, g.maps.user, s.mem, s0.cr3)
  }

  lemma LoadingStep(s0: Vm, g0: Shape, s: Vm, g: Shape, s': Vm, g': Shape, lo: nat, hi: nat)
    requires Loading(s0, g0, s, g) && LoadStep(s, g, s', g')
    requires Grew(g.maps.user, g'.maps.user, s.cr3, lo, hi) && OthersSee(g.maps.user, s.mem, g'.maps.user, s'.mem, s.cr3)
    ensures Loading(s0, g0, s', g')
  {
    OthersSeeTrans(g0.maps.user, s0.mem, g.maps.user, s.mem, g'.maps.user, s'.mem, s0.cr3);
  }

  lemma NextUntouched(u: UserMap, r: nat, file: seq<nat>, segs: seq<Phdr>, ph: Phdr)
    requires SegmentsOk(file, segs + [ph]) && SegmentsOk(file, segs)
    requires forall p: Page :: (r, p) in u ==> InVmas(Vmas(segs), p)
    ensures Untouched(u, r, SegVma(ph))
  {
    forall p: Page | (r, p) in u ensures !Touches(SegVma(ph), UserAddr(p)) {
      assert InVmas(Vmas(segs), p);
      var i :| 0 <= i < |segs| && Touches(Vmas(segs)[i], UserAddr(p));
      assert PageDisjoint(SegVma((segs + [ph])[i]), SegVma((segs + [ph])[|segs|]));
      TouchOnce(SegVma(segs[i]), SegVma(ph), UserAddr(p));
    }
  }

  lemma ImagedNext(s: Vm, g: Shape, s': Vm, g': Shape, file: seq<nat>, segs: seq<Phdr>, ph: Phdr)
    requires SegmentsOk(file, segs) && SegmentsOk(file, segs + [ph]) && ph.offset + ph.filesz <= |file|
    requires Imaged(s, g, s.cr3, file, segs) && s'.cr3 == s.cr3
    requires Grew(g.maps.user, g'.maps.user, s.cr3, AlignDown(ph.vaddr), ph.vaddr + ph.memsz)
    requires SegmentWritten(s, g, s', g', file, ph)
    ensures Imaged(s', g', s.cr3, file, segs + [ph])
  {
    var segs', u, u' := segs + [ph], g.maps.user, g'.maps.user;
    assert segs'[..|segs|] == segs;
    forall p: Page | (s.cr3, p) in u' ensures InVmas(Vmas(segs'), p) {
      if (s.cr3, p) in u {
        assert InVmas(Vmas(segs), p);
        var i :| 0 <= i < |segs| && Touches(Vmas(segs)[i], UserAddr(p));
        assert Touches(Vmas(segs')[i], UserAddr(p));
      } else {
        assert Touches(Vmas(segs')[|segs|], UserAddr(p));
      }
    }
    forall c: nat | c < USER_END ensures ByteAt(u', s'.mem, s.cr3, c) == ImageByte(file, segs', c) {
      assert ByteAt(u, s.mem, s.cr3, c) == ImageByte(file, segs, c);
    }
  }

  lemma LoadableNext(phdrs: seq<Phdr>, n: nat)
    requires n < |phdrs|
    ensures Loadable(phdrs[..n + 1]) == if phdrs[n].kind == PT_LOAD then Loadable(phdrs[..n]) + [phdrs[n]] else Loadable(phdrs[..n])
  {
    assert phdrs[..n + 1][..n] == phdrs[..n];
  }

  lemma {:induction false} LoadablePrefix(phdrs: seq<Phdr>, n: nat)
    requires n <= |phdrs|
    ensures Loadable(phdrs[..n]) <= Loadable(phdrs)
    decreases |phdrs| - n
  {
    if n < |phdrs| {
      LoadablePrefix(phdrs, n + 1);
      assert phdrs[..n + 1][..n] == phdrs[..n];
    } else {
      assert phdrs[..n] == phdrs;
    }
  }

  lemma SegmentsPrefix(file: seq<nat>, phdrs: seq<Phdr>, n: nat)
    requires n <= |phdrs| && SegmentsOk(file, Loadable(phdrs))
    ensures SegmentsOk(file, Loadable(phdrs[..n]))
  {
    LoadablePrefix(phdrs, n);
    var segs, all := Loadable(phdrs[..n]), Loadable(phdrs);
    assert forall i :: 0 <= i < |segs| ==> segs[i] == all[i];
  }

  /** The highest end, 0 if there is no segment. */
  function TopEnd(segs: seq<Phdr>): (top: nat)
    ensures forall i :: 0 <= i < |segs| ==> segs[i].vaddr + segs[i].memsz <= top
  {
    if segs == [] then 0
    else
      var top, end := TopEnd(segs[..|segs| - 1]), segs[|segs| - 1].vaddr + segs[|segs| - 1].memsz;
      assert forall i :: 0 <= i < |segs| - 1 ==> segs[i] == segs[..|segs| - 1][i];
      if top < end then end else top
  }

  /** It is the end of some segment. */
  lemma {:induction false} TopAttained(segs: seq<Phdr>) returns (i: nat)
    requires TopEnd(segs) > 0
    ensures i < |segs| && TopEnd(segs) == segs[i].vaddr + segs[i].memsz
  {
    i := |segs| - 1;
    if TopEnd(segs) != segs[i].vaddr + segs[i].memsz {
      i := TopAttained(segs[..i]);
    }
  }

  lemma VmasNext(segs: seq<Phdr>, ph: Phdr)
    ensures Vmas(segs + [ph]) == Vmas(segs) + [SegVma(ph)]
    ensures var top, end := TopEnd(segs), ph.vaddr + ph.memsz; TopEnd(segs + [ph]) == if top < end then end else top
  {
    assert (segs + [ph])[..|segs|] == segs;
  }

  lemma {:induction false} TopBelowStack(file: seq<nat>, segs: seq<Phdr>)
    requires SegmentsOk(file, segs)
    ensures TopEnd(segs) <= STACK_BASE
  {
    if segs != [] {
      assert SegmentOk(file, segs[|segs| - 1]);
      TopBelowStack(file, segs[..|segs| - 1]);
    }
  }

  /** The state of the loop over the program headers, with the segments `segs` loaded. */
  ghost predicate LoadedTo(s0: Vm, g0: Shape, s: Vm, g: Shape, file: seq<nat>, segs: seq<Phdr>, vm: seq<Vma>, top: nat) {
    && SegmentsOk(file, segs)
    && Loading(s0, g0, s, g) && Imaged(s, g, s0.cr3, file, segs)
    && vm == Vmas(segs) && top == TopEnd(segs)
    && Pages(g.maps.user, s0.cr3) == ImagePages(segs) && Held(s, g, s0.cr3) == |s0.alloc.free|
  }

  /** The pages of all segments. */
  ghost function ImagePages(segs: seq<Phdr>): set<Page> {
    if segs == [] then {} else ImagePages(segs[..|segs| - 1]) + SegPages(segs[|segs| - 1])
  }

  lemma ImagePagesNext(segs: seq<Phdr>, ph: Phdr)
    ensures ImagePages(segs + [ph]) == ImagePages(segs) + SegPages(ph)
  {
    assert (segs + [ph])[..|segs|] == segs;
  }

  lemma {:induction false} ImagePagesPrefix(segs: seq<Phdr>, n: nat)
    requires n <= |segs|
    ensures ImagePages(segs[..n]) <= ImagePages(segs)
    decreases |segs| - n
  {
    if n < |segs| {
      assert segs[..n + 1] == segs[..n] + [segs[n]];
      ImagePagesNext(segs[..n], segs[n]);
      ImagePagesPrefix(segs, n + 1);
    } else {
      assert segs[..n] == segs;
    }
  }

  /** A segment that does not fit means that all of them do not. */
  lemma SegmentsStop(phdrs: seq<Phdr>, n: nat, segs: seq<Phdr>, free: nat)
    requires n <= |phdrs| && segs == Loadable(phdrs[..n]) && Cost(ImagePages(segs)) > free
    ensures Cost(ImagePages(Loadable(phdrs))) > free
  {
    LoadablePrefix(phdrs, n);
    var all := Loadable(phdrs);
    assert all[..|segs|] == segs;
    ImagePagesPrefix(all, |segs|);
    CostMono(ImagePages(segs), ImagePages(all));
  }

  lemma NoPages()
    ensures Cost({}) == 0
  {
    assert Pdpts({}) == {} && Pds({}) == {} && Pts({}) == {};
  }

  /** load_elf's loop over the program headers, with the new address space loaded. */
  method LoadSegments(s: Vm, ghost g: Shape, file: seq<nat>, phdrs: seq<Phdr>)
    returns (ok: bool, vm: seq<Vma>, top: nat, s': Vm, ghost g': Shape)
    requires Sound(s, g) && (forall p: Page :: (s.cr3, p) !in g.maps.user) && SegmentsOk(file, Loadable(phdrs))
    ensures ok ==> LoadedTo(s, g, s', g', file, Loadable(phdrs), vm, top)
    ensures ok <==> Cost(ImagePages(Loadable(phdrs))) <= |s.alloc.free|
  {
    ok, s', g', vm, top := true, s, g, [], 0;
    ghost var segs := [];
    EmptyImage(s, g, file);
    var n := 0;
    while n < |phdrs| && ok
      invariant 0 <= n <= |phdrs| && (ok ==> segs == Loadable(phdrs[..n]))
      invariant ok ==> LoadedTo(s, g, s', g', file, segs, vm, top)
      invariant !ok ==> Cost(ImagePages(Loadable(phdrs))) > |s.alloc.free|
      decreases |phdrs| - n
    {
      ok, vm, top, s', g', segs := LoadHeader(s, g, s', g', file, phdrs, n, segs, vm, top);
      n := n + 1;
    }
    assert phdrs[..|phdrs|] == phdrs;
  }

  /** One program header. */
  method LoadHeader(ghost s0: Vm, ghost g0: Shape, s: Vm, ghost g: Shape, file: seq<nat>, phdrs: seq<Phdr>, n: nat, ghost segs: seq<Phdr>, vm: seq<Vma>, top: nat)
    returns (ok: bool, vm': seq<Vma>, top': nat, s': Vm, ghost g': Shape, ghost segs': seq<Phdr>)
    requires n < |phdrs| && segs == Loadable(phdrs[..n]) && SegmentsOk(file, Loadable(phdrs))
    requires LoadedTo(s0, g0, s, g, file, segs, vm, top)
    ensures ok ==> segs' == Loadable(phdrs[..n + 1]) && LoadedTo(s0, g0, s', g', file, segs', vm', top')
    ensures !ok ==> Cost(ImagePages(Loadable(phdrs))) > |s0.alloc.free|
  {
    SegmentsPrefix(file, phdrs, n + 1);
    LoadableNext(phdrs, n);
    if phdrs[n].kind == PT_LOAD {
      ok, vm', top', s', g' := LoadNext(s0, g0, s, g, file, segs, phdrs[n], vm, top);
      segs' := segs + [phdrs[n]];
      if !ok {
        SegmentsStop(phdrs, n + 1, segs', |s0.alloc.free|);
      }
    } else {
      ok, vm', top', s', g', segs' := true, vm, top, s, g, segs;
    }
  }

  method LoadNext(ghost s0: Vm, ghost g0: Shape, s: Vm, ghost g: Shape, file: seq<nat>, ghost segs: seq<Phdr>, ph: Phdr, vm: seq<Vma>, top: nat)
    returns (ok: bool, vm': seq<Vma>, top': nat, s': Vm, ghost g': Shape)
    requires LoadedTo(s0, g0, s, g, file, segs, vm, top) && SegmentsOk(file, segs + [ph])
    ensures ok ==> LoadedTo(s0, g0, s', g', file, segs + [ph], vm', top')
    ensures !ok ==> Cost(ImagePages(segs + [ph])) > |s0.alloc.free|
  {
    assert SegmentOk(file, (segs + [ph])[|segs|]);
    NextUntouched(g.maps.user, s.cr3, file, segs, ph);
    ImagePagesNext(segs, ph);
    VmasNext(segs, ph);
    vm' := vm + [SegVma(ph)];
    top' := if top < ph.vaddr + ph.memsz then ph.vaddr + ph.memsz else top;
    ok, s', g' := LoadSegment(s, g, file, ph);
    if ok {
      LoadingStep(s0, g0, s, g, s', g', AlignDown(ph.vaddr), ph.vaddr + ph.memsz);
      ImagedNext(s, g, s', g', file, segs, ph);
    }
  }

  lemma EmptyImage(s: Vm, g: Shape, file: seq<nat>)
    requires Sound(s, g) && (forall p: Page :: (s.cr3, p) !in g.maps.user) && IsBytes(file)
    ensures SegmentsOk(file, []) && Imaged(s, g, s.cr3, file, []) && Loading(s, g, s, g)
    ensures Pages(g.maps.user, s.cr3) == {} && Cost({}) == 0
  {
    NoPages();
    forall c: nat | c < USER_END ensures ByteAt(g.maps.user, s.mem, s.cr3, c) == 0 {
      assert (s.cr3, PageOf(c)) !in g.maps.user;
      ZeroByte(c % 8);
    }
  }

  // -------------------------------------------------------------- load_elf

  datatype LoadResult = ProcessReady | NoSegments | NoFramesLeft

  /** The end of the last segment rounded up to a page; the arithmetic wraps to 0 for 0. */
  function HeapStart(top: nat): (h: nat)
    ensures h % PGSIZE == 0 && top <= h < top + PGSIZE
  {
    if top == 0 then 0 else AlignUp(top)
  }

  /** The descriptor load_elf builds: the segments' ranges, an empty heap above them, and the stack. */
  function LayoutOf(pml4: nat, segs: seq<Phdr>): Mm {
    var h := HeapStart(TopEnd(segs));
    Mm(pml4, Vmas(segs) + [Vma(h, h, Heap)] + [Vma(STACK_BASE, USER_STACK_TOP, Stack)], h, h)
  }

  /** The heap is empty and starts at the first page boundary that is not below the end of a segment. */
  ghost predicate HeapOnTop(mm: Mm, segs: seq<Phdr>) {
    var h := mm.startBrk;
    && mm.brk == h && h % PGSIZE == 0
    && (forall i :: 0 <= i < |segs| ==> segs[i].vaddr + segs[i].memsz <= h)
    && (h > 0 ==> exists i :: 0 <= i < |segs| && h < segs[i].vaddr + segs[i].memsz + PGSIZE)
  }

  lemma LayoutBuilt(file: seq<nat>, segs: seq<Phdr>, pml4: nat)
    requires SegmentsOk(file, segs)
    ensures WellFormed(LayoutOf(pml4, segs))
    ensures |LayoutOf(pml4, segs).vm| == |segs| + 2 && LayoutOf(pml4, segs).vm[..|segs|] == Vmas(segs)
    ensures HeapOnTop(LayoutOf(pml4, segs), segs)
    ensures forall i :: 0 <= i < |segs| ==> LayoutOf(pml4, segs).vm[i] == Vma(segs[i].vaddr, segs[i].vaddr + segs[i].memsz, Data)
  {
    if TopEnd(segs) > 0 {
      var i := TopAttained(segs);
    }
    TopBelowStack(file, segs);
    var h, n, vm := HeapStart(TopEnd(segs)), |segs|, LayoutOf(pml4, segs).vm;
    assert vm[..n] == Vmas(segs);
    assert h <= STACK_BASE && TopEnd(segs) <= h;
    forall i | 0 <= i < n ensures vm[i].kind == Data && vm[i].start <= vm[i].end <= h {
      assert vm[i] == SegVma(segs[i]);
    }
  }

  /** The top page of the stack is mapped, and writable. */
  ghost predicate StackMapped(u: UserMap, r: nat) {
    (r, PageOf(STACK_PAGE)) in u && Writable(u[(r, PageOf(STACK_PAGE))])
  }

  lemma BelowStack(file: seq<nat>, segs: seq<Phdr>, p: Page)
    requires SegmentsOk(file, segs) && STACK_BASE <= UserAddr(p)
    ensures !InVmas(Vmas(segs), p)
  {
    forall i | 0 <= i < |segs| ensures !Touches(Vmas(segs)[i], UserAddr(p)) {
      assert SegmentOk(file, segs[i]);
    }
  }

  /** No segment reaches into the stack, so its page is a new one. */
  lemma NewStackPage(u: UserMap, u': UserMap, r: nat, file: seq<nat>, segs: seq<Phdr>)
    requires SegmentsOk(file, segs) && (forall p: Page :: (r, p) in u ==> InVmas(Vmas(segs), p))
    requires Grew(u, u', r, STACK_PAGE, USER_STACK_TOP) && Filled(u', r, STACK_PAGE, USER_STACK_TOP)
    ensures StackMapped(u', r)
  {
    StackPageAt();
    BelowStack(file, segs, PageOf(STACK_PAGE));
  }

  lemma StackPageAt()
    ensures UserAddr(PageOf(STACK_PAGE)) == STACK_PAGE && PageOf(STACK_PAGE).i4 < 256
  {
    UserPage(STACK_PAGE);
  }

  lemma TopMapped(u: UserMap, r: nat)
    requires Filled(u, r, STACK_PAGE, USER_STACK_TOP)
    ensures (r, PageOf(STACK_PAGE)) in u
  {
    StackPageAt();
  }

  /** Pages of the segments and of the stack's top page are all in vmas. */
  lemma NewPages(u: UserMap, u': UserMap, segs: seq<Phdr>, mm: Mm, p: Page)
    requires WellFormed(mm) && |mm.vm| == |segs| + 2 && mm.vm[..|segs|] == Vmas(segs) && (mm.pml4, p) in u'
    requires (mm.pml4, p) in u ==> InVmas(Vmas(segs), p)
    requires Grew(u, u', mm.pml4, STACK_PAGE, USER_STACK_TOP)
    ensures InVmas(mm.vm, p)
  {
    var n := |segs|;
    if (mm.pml4, p) in u {
      var i :| 0 <= i < n && Touches(Vmas(segs)[i], UserAddr(p));
      assert mm.vm[..n][i] == mm.vm[i];
      assert Touches(mm.vm[i], UserAddr(p));
    } else {
      assert Touches(mm.vm[n + 1], UserAddr(p));
    }
  }

  /** The new process, once its stack has its top page. */
  lemma NewProcess(role: Roles, u: UserMap, u': UserMap, segs: seq<Phdr>, mm: Mm)
    requires WellFormed(mm) && IsRoot(role, mm.pml4) && |mm.vm| == |segs| + 2 && mm.vm[..|segs|] == Vmas(segs)
    requires forall p: Page :: (mm.pml4, p) in u ==> InVmas(Vmas(segs), p)
    requires Grew(u, u', mm.pml4, STACK_PAGE, USER_STACK_TOP) && Filled(u', mm.pml4, STACK_PAGE, USER_STACK_TOP)
    ensures ProcOk(role, u', mm)
  {
    forall p: Page | (mm.pml4, p) in u' ensures InVmas(mm.vm, p) {
      assert (mm.pml4, p) in u ==> InVmas(Vmas(segs), p);
      NewPages(u, u', segs, mm, p);
    }
    forall p: Page, q: Page | (mm.pml4, p) in u' && q.i4 < 256 && STACK_BASE <= UserAddr(p) <= UserAddr(q) < USER_STACK_TOP
      ensures (mm.pml4, q) in u'
    {
      assert (mm.pml4, p) in u ==> InVmas(Vmas(segs), p);
    }
    TopMapped(u', mm.pml4);
  }

  lemma SameSightOthers(s: Vm, g: Shape, s': Vm, g': Shape, r: nat)
    requires SameSight(s, g, s', g')
    ensures OthersSee(g.maps.user, s.mem, g'.maps.user, s'.mem, r)
  {
  }

  /** The top stack page, and with it the finished process. */
  method AddStack(ghost s0: Vm, ghost g0: Shape, s: Vm, ghost g: Shape, ghost file: seq<nat>, ghost segs: seq<Phdr>, ghost mm: Mm)
    returns (ok: bool, s': Vm, ghost g': Shape)
    requires SegmentsOk(file, segs) && Loading(s0, g0, s, g) && Imaged(s, g, s0.cr3, file, segs)
    requires mm == LayoutOf(s0.cr3, segs) && IsRoot(g0.role, s0.cr3)
    ensures ok ==> ImageBuilt(s0, g0, s', g', mm, file, segs)
    ensures ok <==> Cost(Pages(g.maps.user, s0.cr3) + {PageOf(STACK_PAGE)}) <= Held(s, g, s0.cr3)
    ensures ok ==> Held(s', g', s0.cr3) == Held(s, g, s0.cr3) && Pages(g'.maps.user, s0.cr3) == Pages(g.maps.user, s0.cr3) + {PageOf(STACK_PAGE)}
  {
    StackNeed(g.maps.user, s.cr3, file, segs);
    LayoutBuilt(file, segs, s0.cr3);
    ok, s', g' := KMmap(s, g, STACK_PAGE, PGSIZE);
    if ok {
      StackFill();
      SameSightOthers(s, g, s', g', s.cr3);
      LoadingStep(s0, g0, s, g, s', g', STACK_PAGE, USER_STACK_TOP);
      NewProcess(g'.role, g.maps.user, g'.maps.user, segs, mm);
      NewStackPage(g.maps.user, g'.maps.user, s.cr3, file, segs);
      forall c: nat | c < USER_END ensures ByteAt(g'.maps.user, s'.mem, s0.cr3, c) == ImageByte(file, segs, c) {
        SightBytes(g.maps.user, s.mem, g'.maps.user, s'.mem, s0.cr3, c);
        assert ByteAt(g.maps.user, s.mem, s0.cr3, c) == ImageByte(file, segs, c);
      }
    }
  }

  lemma StackFill()
    ensures FillEnd(STACK_PAGE, PGSIZE) == USER_STACK_TOP && AlignDown(STACK_PAGE) == STACK_PAGE
  {
    NumPagesExact(STACK_PAGE, PGSIZE);
  }

  /** The top stack page is new, so kmmap needs its frame and its new tables. */
  lemma StackNeed(u: UserMap, r: nat, file: seq<nat>, segs: seq<Phdr>)
    requires SegmentsOk(file, segs) && (forall p: Page :: (r, p) in u ==> InVmas(Vmas(segs), p))
    ensures var P, top := Pages(u, r), PageOf(STACK_PAGE);
            && FillSet(AlignDown(STACK_PAGE), PageCount(STACK_PAGE, PGSIZE)) == {top}
            && FillNeed(P, AlignDown(STACK_PAGE), PageCount(STACK_PAGE, PGSIZE)) == Cost(P + {top}) - Cost(P)
  {
    StackPageAt();
    BelowStack(file, segs, PageOf(STACK_PAGE));
    StackFill();
    NumPagesExact(STACK_PAGE, PGSIZE);
    assert PageCount(STACK_PAGE, PGSIZE) == 1;
    assert FillPage(STACK_PAGE, 0) == PageOf(STACK_PAGE);
    assert FillSet(STACK_PAGE, 0) == {};
    assert FillSet(STACK_PAGE, 1) == {PageOf(STACK_PAGE)};
  }

  lemma ProcessAdded(s: Vm, g: Shape, s': Vm, g': Shape, procs: seq<Mm>, mm: Mm)
    requires Processes(s, g, procs) && Sound(s', g') && ProcOk(g'.role, g'.maps.user, mm) && mm.pml4 !in g.role
    requires forall r: nat :: IsRoot(g.role, r) ==> IsRoot(g'.role, r)
    requires forall key: Key :: key.0 != mm.pml4 ==> (key in g'.maps.user <==> key in g.maps.user)
    ensures Processes(s', g', procs + [mm])
  {
    var procs' := procs + [mm];
    forall i | 0 <= i < |procs'| ensures ProcOk(g'.role, g'.maps.user, procs'[i]) && (i < |procs| ==> procs'[i].pml4 != mm.pml4) {
      if i < |procs| {
        assert ProcOk(g.role, g.maps.user, procs[i]);
        ProcSameKeys(g.role, g.maps.user, g'.role, g'.maps.user, procs[i]);
      }
    }
  }

  /** The segments, an empty heap above them, and the top page of the stack. */
  ghost predicate HoldsImage(u: UserMap, mem: Memory, mm: Mm, file: seq<nat>, segs: seq<Phdr>)
    requires SegmentsOk(file, segs)
  {
    && mm == LayoutOf(mm.pml4, segs)
    && ImageIn(u, mem, mm.pml4, file, segs) && StackMapped(u, mm.pml4)
  }

  ghost predicate ImageBuilt(s: Vm, g: Shape, s': Vm, g': Shape, mm: Mm, file: seq<nat>, segs: seq<Phdr>)
    requires SegmentsOk(file, segs)
  {
    && Loading(s, g, s', g') && ProcOk(g'.role, g'.maps.user, mm) && mm.pml4 == s.cr3
    && HoldsImage(g'.maps.user, s'.mem, mm, file, segs)
  }

  /** One more process, with the image in its memory; nobody else's memory has changed. */
  ghost predicate ProcessMade(s: Vm, g: Shape, s': Vm, g': Shape, procs: seq<Mm>, mm: Mm, file: seq<nat>, segs: seq<Phdr>)
    requires SegmentsOk(file, segs)
  {
    && Processes(s', g', procs + [mm]) && s'.cr3 == s.cr3
    && OthersSee(g.maps.user, s.mem, g'.maps.user, s'.mem, mm.pml4)
    && HoldsImage(g'.maps.user, s'.mem, mm, file, segs)
  }

  /** The pages of the segments and the top stack page. */
  ghost function StartPages(segs: seq<Phdr>): set<Page> {
    ImagePages(segs) + {PageOf(STACK_PAGE)}
  }

  /** Frames for them and their tables. */
  ghost function ImageCost(segs: seq<Phdr>): nat {
    Cost(StartPages(segs))
  }

  /** Segments, heap and stack of a new address space, the current one. */
  method LoadImage(s: Vm, ghost g: Shape, file: seq<nat>, phdrs: seq<Phdr>) returns (r: LoadResult, mm: Mm, s': Vm, ghost g': Shape)
    requires Sound(s, g) && (forall p: Page :: (s.cr3, p) !in g.maps.user) && SegmentsOk(file, Loadable(phdrs))
    ensures r.NoSegments? <==> Loadable(phdrs) == []
    ensures r.ProcessReady? <==> Loadable(phdrs) != [] && ImageCost(Loadable(phdrs)) <= |s.alloc.free|
    ensures r.ProcessReady? ==> ImageBuilt(s, g, s', g', mm, file, Loadable(phdrs))
    ensures r.ProcessReady? ==> |s'.alloc.free| == |s.alloc.free| - ImageCost(Loadable(phdrs))
    ensures r.ProcessReady? ==> Pages(g'.maps.user, mm.pml4) == StartPages(Loadable(phdrs))
  {
    mm := Mm(0, [], 0, 0);
    NoPages();
    CostMono(ImagePages(Loadable(phdrs)), StartPages(Loadable(phdrs)));
    var ok, vm, top, s1, g1 := LoadSegments(s, g, file, phdrs);
    if !ok {
      return NoFramesLeft, mm, s1, g1;
    }
    if |vm| == 0 {
      return NoSegments, mm, s1, g1;
    }
    var h := HeapStart(top);
    mm := Mm(s.cr3, vm + [Vma(h, h, Heap)] + [Vma(STACK_BASE, USER_STACK_TOP, Stack)], h, h);
    ok, s', g' := AddStack(s, g, s1, g1, file, Loadable(phdrs), mm);
    r := if ok then ProcessReady else NoFramesLeft;
  }

  /** A new address space, ready to be switched to. */
  method NewSpace(s: Vm, ghost g: Shape) returns (ok: bool, c: nat, s': Vm, ghost g': Shape)
    requires Sound(s, g) && s.freeAddr + 9 * PGSIZE <= U64
    ensures ok ==> Sound(s'.(cr3 := c), g') && Preserves(s, g, s', g') && SameSight(s, g, s', g')
    ensures ok ==> c !in g.role && (forall p: Page :: (c, p) !in g'.maps.user)
    ensures ok <==> SpaceNeed(s, g) <= |s.alloc.free|
    ensures ok ==> |s'.alloc.free| == |s.alloc.free| - SpaceNeed(s, g) && s'.freeAddr == s.freeAddr + 9 * PGSIZE
  {
    ok, c, s', g' := ChildSpace(s, g);
    if ok {
      SwitchOk(s', g', c);
    }
  }

  /** Frames load_elf needs: for the new space, and for the image. */
  ghost function LoadNeed(s: Vm, g: Shape, segs: seq<Phdr>): nat {
    SpaceNeed(s, g) + ImageCost(segs)
  }

  /**
   load_elf up to the argument block: a process whose memory is the image of
   the loadable segments, with an empty heap above them and one stack page.
   An executable without loadable segments makes it walk an empty vma list.
   */
  method LoadElf(s: Vm, ghost g: Shape, ghost procs: seq<Mm>, file: seq<nat>, phdrs: seq<Phdr>)
    returns (r: LoadResult, mm: Mm, s': Vm, ghost g': Shape)
    requires Processes(s, g, procs) && SegmentsOk(file, Loadable(phdrs))
    ensures r.NoSegments? <==> Loadable(phdrs) == [] && WindowRoom(s) && SpaceNeed(s, g) <= |s.alloc.free|
    ensures r.ProcessReady? <==> Loadable(phdrs) != [] && WindowRoom(s) && LoadNeed(s, g, Loadable(phdrs)) <= |s.alloc.free|
    ensures r.ProcessReady? ==> ProcessMade(s, g, s', g', procs, mm, file, Loadable(phdrs)) && HeapOnTop(mm, Loadable(phdrs))
    ensures r.ProcessReady? ==> |s'.alloc.free| == |s.alloc.free| - LoadNeed(s, g, Loadable(phdrs))
    ensures r.ProcessReady? ==> s'.freeAddr == s.freeAddr + 9 * PGSIZE && Pages(g'.maps.user, mm.pml4) == StartPages(Loadable(phdrs))
  {
    mm := Mm(0, [], 0, 0);
    if s.freeAddr + 9 * PGSIZE > U64 {
      return NoFramesLeft, mm, s, g;
    }
    var ok, pml4, s1, g1 := NewSpace(s, g);
    if !ok {
      return NoFramesLeft, mm, s1, g1;
    }
    r, mm, s', g' := LoadImage(s1.(cr3 := pml4), g1, file, phdrs);
    if r.ProcessReady? {
      NewAmong(s, g, s1, g1, s', g', procs, mm, file, Loadable(phdrs));
      LayoutBuilt(file, Loadable(phdrs), mm.pml4);
      s' := s'.(cr3 := s.cr3);
    }
  }

  lemma NewAmong(s: Vm, g: Shape, s1: Vm, g1: Shape, s3: Vm, g3: Shape, procs: seq<Mm>, mm: Mm, file: seq<nat>, segs: seq<Phdr>)
    requires Processes(s, g, procs) && Preserves(s, g, s1, g1) && SameSight(s, g, s1, g1) && mm.pml4 !in g.role
    requires SegmentsOk(file, segs) && ImageBuilt(s1.(cr3 := mm.pml4), g1, s3, g3, mm, file, segs)
    ensures ProcessMade(s, g, s3.(cr3 := s.cr3), g3, procs, mm, file, segs)
  {
    SwitchBack(s, g, s1, g1, s3, g3, mm.pml4);
    ProcessAdded(s, g, s3.(cr3 := s.cr3), g3, procs, mm);
  }

  lemma SwitchBack(s: Vm, g: Shape, s1: Vm, g1: Shape, s3: Vm, g3: Shape, pml4: nat)
    requires Sound(s, g) && Preserves(s, g, s1, g1) && SameSight(s, g, s1, g1) && Loading(s1.(cr3 := pml4), g1, s3, g3)
    ensures Sound(s3.(cr3 := s.cr3), g3)
    ensures OthersSee(g.maps.user, s.mem, g3.maps.user, s3.mem, pml4)
    ensures forall r: nat :: IsRoot(g.role, r) ==> IsRoot(g3.role, r)
  {
    SwitchOk(s3, g3, s.cr3);
    SameSightOthers(s, g, s1, g1, pml4);
    OthersSeeTrans(g.maps.user, s.mem, g1.maps.user, s1.mem, g3.maps.user, s3.mem, pml4);
  }
}
