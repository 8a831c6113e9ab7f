/**
 The argument block `load_elf` leaves at the top of a new process's stack
 (`sys/elf64.c`), and the way `_start` reads it (`crt/crt1.c`). The stack page is
 an array of bytes; addresses in it count from the page's first byte.
 */
module ArgBlock {
  import opened Bits
  import opened Machine
  import opened Move
  import opened Strtok

  /** The stack pointer before the block is built: eight bytes below the top. */
  const START := PGSIZE - 8
  /** Address of the page. */
  const PAGE_ADDR := USER_STACK_TOP - PGSIZE

  type Str = s: seq<Byte> | forall i :: 0 <= i < |s| ==> s[i] != 0

  /** Bytes the strings take with their null bytes. */
  function Total(strs: seq<Str>): nat {
    if strs == [] then 0 else |strs[0]| + 1 + Total(strs[1..])
  }

  lemma {:induction false} TotalBound(strs: seq<Str>)
    requires forall i :: 0 <= i < |strs| ==> |strs[i]| < 100
    ensures Total(strs) <= 100 * |strs|
  {
    if strs != [] {
      TotalBound(strs[1..]);
    }
  }

  // ------------------------------------------------------------ the pieces

  predicate StringAt(page: seq<Byte>, o: nat, s: Str) {
    o + |s| < |page| && page[o..o + |s|] == s && page[o + |s|] == 0
  }

  /** The little-endian number in some bytes. */
  function NumberOf(bytes: seq<Byte>): nat {
    if bytes == [] then 0 else bytes[0] + 256 * NumberOf(bytes[1..])
  }

  function Number(page: seq<Byte>, o: nat, n: nat): nat
    requires o + n <= |page|
  {
    NumberOf(page[o..o + n])
  }

  function Pow256(n: nat): nat {
    if n == 0 then 1 else 256 * Pow256(n - 1)
  }

  /** Bytes from `lo` to `hi` are alike. */
  ghost predicate Same(p: seq<Byte>, q: seq<Byte>, lo: nat, hi: nat) {
    |p| == |q| && hi <= |p| && forall i :: lo <= i < hi ==> p[i] == q[i]
  }

  lemma NumberSame(p: seq<Byte>, q: seq<Byte>, o: nat, n: nat)
    requires Same(p, q, o, o + n)
    ensures Number(p, o, n) == Number(q, o, n)
  {
    assert p[o..o + n] == q[o..o + n];
  }

  lemma StringSame(p: seq<Byte>, q: seq<Byte>, o: nat, s: Str)
    requires StringAt(p, o, s) && Same(p, q, o, o + |s| + 1)
    ensures StringAt(q, o, s)
  {
    assert q[o..o + |s|] == p[o..o + |s|];
  }

  // ---------------------------------------------------------------- writing

  /** memmove of a string and its null byte */
  method CopyString(page: array<Byte>, o: nat, s: Str)
    requires o + |s| < page.Length
    modifies page
    ensures StringAt(page[..], o, s)
    ensures Same(old(page[..]), page[..], 0, o) && Same(old(page[..]), page[..], o + |s| + 1, page.Length)
  {
    var i := 0;
    while i < |s|
      invariant 0 <= i <= |s| && page[o..o + i] == s[..i]
      invariant forall k :: 0 <= k < o || o + i <= k < page.Length ==> page[k] == old(page[k])
    {
      page[o + i] := s[i];
      i := i + 1;
      assert page[o..o + i] == page[o..o + i - 1] + [s[i - 1]];
    }
    page[o + |s|] := 0;
    assert page[o..o + |s|] == s[..|s|] == s;
  }

  /** Stores a word: eight bytes, at any address. */
  method StoreNumber(page: array<Byte>, o: nat, w: nat, n: nat)
    requires o + n <= page.Length && w < Pow256(n)
    modifies page
    ensures Number(page[..], o, n) == w
    ensures Same(old(page[..]), page[..], 0, o) && Same(old(page[..]), page[..], o + n, page.Length)
    decreases n
  {
    if n > 0 {
      page[o] := w % 256;
      StoreNumber(page, o + 1, w / 256, n - 1);
      assert page[o..o + n] == [page[o]] + page[o + 1..o + n];
    }
  }

  /** String `i` sits at `ptrs[i]`, between `lo` and `hi`. */
  ghost predicate Stored(page: seq<Byte>, strs: seq<Str>, ptrs: seq<nat>, lo: nat, hi: nat, i: nat)
    requires i < |strs| && i < |ptrs|
  {
    StringAt(page, ptrs[i], strs[i]) && lo <= ptrs[i] && ptrs[i] + |strs[i]| < hi
  }

  ghost predicate AllStored(page: seq<Byte>, strs: seq<Str>, ptrs: seq<nat>, lo: nat, hi: nat) {
    |ptrs| == |strs| && forall i {:trigger Stored(page, strs, ptrs, lo, hi, i)} :: 0 <= i < |strs| ==> Stored(page, strs, ptrs, lo, hi, i)
  }

  lemma AllStoredSame(p: seq<Byte>, q: seq<Byte>, strs: seq<Str>, ptrs: seq<nat>, lo: nat, hi: nat)
    requires AllStored(p, strs, ptrs, lo, hi) && Same(p, q, lo, hi)
    ensures AllStored(q, strs, ptrs, lo, hi)
  {
    forall i | 0 <= i < |strs| ensures Stored(q, strs, ptrs, lo, hi, i) {
      assert Stored(p, strs, ptrs, lo, hi, i);
      StringSame(p, q, ptrs[i], strs[i]);
    }
  }

  lemma AllStoredCons(p: seq<Byte>, q: seq<Byte>, strs: seq<Str>, ptrs: seq<nat>, o: nat, lo: nat, hi: nat)
    requires strs != [] && AllStored(p, strs[1..], ptrs, lo, hi) && Same(p, q, lo, hi)
    requires StringAt(q, o, strs[0]) && o + |strs[0]| < lo <= hi
    ensures AllStored(q, strs, [o] + ptrs, o, hi)
  {
    AllStoredSame(p, q, strs[1..], ptrs, lo, hi);
    forall i | 0 <= i < |strs| ensures Stored(q, strs, [o] + ptrs, o, hi, i) {
      assert i > 0 ==> Stored(q, strs[1..], ptrs, lo, hi, i - 1);
    }
  }

  /** The strings stand one behind the other from `lo` on. */
  ghost predicate Row(page: seq<Byte>, lo: nat, strs: seq<Str>)
    decreases |strs|
  {
    strs == [] || (StringAt(page, lo, strs[0]) && Row(page, lo + |strs[0]| + 1, strs[1..]))
  }

  lemma {:induction false} RowSame(p: seq<Byte>, q: seq<Byte>, lo: nat, strs: seq<Str>)
    requires Row(p, lo, strs) && lo + Total(strs) <= |p| && Same(p, q, lo, lo + Total(strs))
    ensures Row(q, lo, strs)
    decreases |strs|
  {
    if strs != [] {
      StringSame(p, q, lo, strs[0]);
      RowSame(p, q, lo + |strs[0]| + 1, strs[1..]);
    }
  }

  lemma {:induction false} RowJoin(page: seq<Byte>, lo: nat, a: seq<Str>, b: seq<Str>)
    requires Row(page, lo, a) && Row(page, lo + Total(a), b)
    ensures Row(page, lo, a + b) && Total(a + b) == Total(a) + Total(b)
    decreases |a|
  {
    if a == [] {
      assert a + b == b;
    } else {
      RowJoin(page, lo + |a[0]| + 1, a[1..], b);
      assert (a + b)[1..] == a[1..] + b;
    }
  }

  /** Copies strings downward from `ss`, the last one first. */
  method StoreStrings(page: array<Byte>, ss: nat, strs: seq<Str>) returns (ss': nat, ptrs: seq<nat>)
    requires Total(strs) <= ss <= page.Length
    modifies page
    ensures ss' == ss - Total(strs) && AllStored(page[..], strs, ptrs, ss', ss) && Row(page[..], ss', strs)
    ensures Same(old(page[..]), page[..], 0, ss') && Same(old(page[..]), page[..], ss, page.Length)
  {
    ss', ptrs := ss, [];
    var n := |strs|;
    assert strs[n..] == [];
    while n > 0
      invariant 0 <= n <= |strs| && ss' == ss - Total(strs[n..]) && Total(strs[n..]) <= Total(strs)
      invariant AllStored(page[..], strs[n..], ptrs, ss', ss) && Row(page[..], ss', strs[n..])
      invariant Same(old(page[..]), page[..], 0, ss') && Same(old(page[..]), page[..], ss, page.Length)
    {
      n := n - 1;
      TotalFrom(strs, n);
      ghost var p, lo := page[..], ss';
      ss' := ss' - (|strs[n]| + 1);
      CopyString(page, ss', strs[n]);
      RowSame(p, page[..], lo, strs[n + 1..]);
      assert strs[n..][1..] == strs[n + 1..];
      AllStoredCons(p, page[..], strs[n..], ptrs, ss', lo, ss);
      ptrs := [ss'] + ptrs;
    }
    assert strs[0..] == strs;
  }

  lemma {:induction false} TotalFrom(strs: seq<Str>, n: nat)
    requires n < |strs|
    ensures Total(strs[n..]) == |strs[n]| + 1 + Total(strs[n + 1..]) && Total(strs[n..]) <= Total(strs)
  {
    assert strs[n..][1..] == strs[n + 1..];
    if n > 0 {
      TotalFrom(strs[1..], n - 1);
      assert strs[1..][n - 1..] == strs[n..];
    } else {
      assert strs[0..] == strs;
    }
  }

  /** Eight-byte words `ws`, one after the other. */
  ghost predicate WordsAt(page: seq<Byte>, o: nat, ws: seq<nat>)
    decreases |ws|
  {
    o + 8 * |ws| <= |page| && (ws != [] ==> Number(page, o, 8) == ws[0] && WordsAt(page, o + 8, ws[1..]))
  }

  lemma {:induction false} WordsAtIndex(page: seq<Byte>, o: nat, ws: seq<nat>, i: nat)
    requires WordsAt(page, o, ws) && i < |ws|
    ensures Number(page, o + 8 * i, 8) == ws[i]
    decreases i
  {
    if i > 0 {
      WordsAtIndex(page, o + 8, ws[1..], i - 1);
    }
  }

  lemma {:induction false} WordsAtSame(p: seq<Byte>, q: seq<Byte>, o: nat, ws: seq<nat>)
    requires WordsAt(p, o, ws) && Same(p, q, o, o + 8 * |ws|)
    ensures WordsAt(q, o, ws)
    decreases |ws|
  {
    if ws != [] {
      NumberSame(p, q, o, 8);
      WordsAtSame(p, q, o + 8, ws[1..]);
    }
  }

  lemma Pow256Values()
    ensures Pow256(4) == 0x1_0000_0000 && Pow256(8) == U64
  {
    assert Pow256(4) == 256 * (256 * (256 * (256 * Pow256(0))));
    assert Pow256(8) == 256 * (256 * (256 * (256 * Pow256(4))));
  }

  /** Pushes a word, below words already there. */
  method StoreWord(page: array<Byte>, ss: nat, w: nat, ghost above: seq<nat>) returns (ss': nat)
    requires 8 <= ss && WordsAt(page[..], ss, above) && w < U64
    modifies page
    ensures ss' == ss - 8 && WordsAt(page[..], ss', [w] + above)
    ensures Same(old(page[..]), page[..], 0, ss') && Same(old(page[..]), page[..], ss, page.Length)
  {
    Pow256Values();
    ss' := ss - 8;
    StoreNumber(page, ss', w, 8);
    WordsAtSame(old(page[..]), page[..], ss, above);
    assert ([w] + above)[1..] == above;
  }

  /** Stores the addresses of `ptrs` downward from `ss`, the last one first. */
  method StoreWords(page: array<Byte>, ss: nat, ptrs: seq<nat>, ghost above: seq<nat>) returns (ss': nat)
    requires 8 * |ptrs| <= ss && WordsAt(page[..], ss, above)
    requires forall i :: 0 <= i < |ptrs| ==> Addresses(ptrs)[i] < U64
    modifies page
    ensures ss' == ss - 8 * |ptrs| && WordsAt(page[..], ss', Addresses(ptrs) + above)
    ensures Same(old(page[..]), page[..], 0, ss') && Same(old(page[..]), page[..], ss, page.Length)
  {
    var ws := Addresses(ptrs);
    ss' := ss;
    var n := |ptrs|;
    assert ws[n..] + above == above;
    while n > 0
      invariant 0 <= n <= |ptrs| && ss' == ss - 8 * (|ptrs| - n)
      invariant WordsAt(page[..], ss', ws[n..] + above)
      invariant Same(old(page[..]), page[..], 0, ss') && Same(old(page[..]), page[..], ss, page.Length)
    {
      n := n - 1;
      ss' := StoreWord(page, ss', ws[n], ws[n + 1..] + above);
      assert [ws[n]] + (ws[n + 1..] + above) == ws[n..] + above;
    }
    assert ws[0..] == ws;
  }

  /** The vector of words of the block: argc, the argument pointers, a null, the environment pointers. */
  function Vector(args: seq<nat>, envs: seq<nat>): seq<nat> {
    [|args|] + (Addresses(args) + ([0] + Addresses(envs)))
  }

  function Addresses(offsets: seq<nat>): (r: seq<nat>)
    ensures |r| == |offsets|
  {
    seq(|offsets|, i requires 0 <= i < |offsets| => PAGE_ADDR + offsets[i])
  }

  lemma AddressesFit(page: seq<Byte>, strs: seq<Str>, ptrs: seq<nat>, lo: nat, hi: nat)
    requires AllStored(page, strs, ptrs, lo, hi) && |page| == PGSIZE
    ensures forall i :: 0 <= i < |ptrs| ==> Addresses(ptrs)[i] < U64
  {
    forall i | 0 <= i < |ptrs| ensures Addresses(ptrs)[i] < U64 {
      assert Stored(page, strs, ptrs, lo, hi, i);
    }
  }

  /** The words go below the strings. */
  method StoreVector(page: array<Byte>, top: nat, ap: seq<nat>, ep: seq<nat>) returns (ss: nat)
    requires 8 * (|ap| + |ep| + 2) <= top <= page.Length
    requires |ap| < 11 && forall i :: 0 <= i < |ap| ==> Addresses(ap)[i] < U64
    requires forall i :: 0 <= i < |ep| ==> Addresses(ep)[i] < U64
    modifies page
    ensures ss == top - 8 * (|ap| + |ep| + 2) && WordsAt(page[..], ss, Vector(ap, ep))
    ensures Same(old(page[..]), page[..], 0, ss) && Same(old(page[..]), page[..], top, page.Length)
  {
    ss := StoreWords(page, top, ep, []);
    assert Addresses(ep) + [] == Addresses(ep);
    ss := StoreWord(page, ss, 0, Addresses(ep));
    ss := StoreWords(page, ss, ap, [0] + Addresses(ep));
    ss := StoreWord(page, ss, |ap|, Addresses(ap) + ([0] + Addresses(ep)));
  }

  /** At most ten strings of less than 100 bytes: what the kernel's buffers hold. */
  predicate Small(strs: seq<Str>) {
    |strs| <= 10 && forall i :: 0 <= i < |strs| ==> |strs[i]| < 100
  }

  /** The block that says `args` and `envs`: words from `ss` on, strings above them up to START. */
  ghost predicate Block(page: seq<Byte>, ss: nat, args: seq<Str>, envs: seq<Str>, ap: seq<nat>, ep: seq<nat>) {
    && ss + 8 * (|args| + |envs| + 2) + Total(args) + Total(envs) == START
    && Text(page, args, ap, ss + 8 * (|args| + |envs| + 2), START - Total(envs))
    && Text(page, envs, ep, START - Total(envs), START)
    && WordsAt(page, ss, Vector(ap, ep))
  }

  lemma IsBlock(page: seq<Byte>, ss: nat, s1: nat, s2: nat, args: seq<Str>, envs: seq<Str>, ap: seq<nat>, ep: seq<nat>)
    requires s1 == START - Total(envs) && s2 == s1 - Total(args) && ss == s2 - 8 * (|ap| + |ep| + 2)
    requires Text(page, args, ap, s2, s1) && Text(page, envs, ep, s1, START) && WordsAt(page, ss, Vector(ap, ep))
    ensures Block(page, ss, args, envs, ap, ep)
  {
  }

  /** load_elf's writes: all between the new stack pointer and start_stack, inside the one mapped page. */
  method Build(page: array<Byte>, args: seq<Str>, envs: seq<Str>) returns (ss: nat, ghost ap: seq<nat>, ghost ep: seq<nat>)
    requires page.Length == PGSIZE && Small(args) && Small(envs)
    modifies page
    ensures Block(page[..], ss, args, envs, ap, ep)
    ensures Same(old(page[..]), page[..], 0, ss) && Same(old(page[..]), page[..], START, PGSIZE)
  {
    TotalBound(args);
    TotalBound(envs);
    var s1, s2, aps, eps := StoreTexts(page, args, envs);
    ghost var p2 := page[..];
    AddressesFit(p2, args, aps, s2, s1);
    AddressesFit(p2, envs, eps, s1, START);
    ss := StoreVector(page, s2, aps, eps);
    TextSame(p2, page[..], args, aps, s2, s1);
    TextSame(p2, page[..], envs, eps, s1, START);
    IsBlock(page[..], ss, s1, s2, args, envs, aps, eps);
    ap, ep := aps, eps;
  }

  /** The strings of both vectors, the environment's on top. */
  method StoreTexts(page: array<Byte>, args: seq<Str>, envs: seq<Str>) returns (s1: nat, s2: nat, aps: seq<nat>, eps: seq<nat>)
    requires page.Length == PGSIZE && Total(args) + Total(envs) <= START
    modifies page
    ensures s1 == START - Total(envs) && s2 == s1 - Total(args)
    ensures Text(page[..], args, aps, s2, s1) && Text(page[..], envs, eps, s1, START)
    ensures Same(old(page[..]), page[..], 0, s2) && Same(old(page[..]), page[..], START, PGSIZE)
  {
    s1, eps := StoreStrings(page, START, envs);
    ghost var p1 := page[..];
    s2, aps := StoreStrings(page, s1, args);
    TextSame(p1, page[..], envs, eps, s1, START);
  }

  ghost predicate Text(page: seq<Byte>, strs: seq<Str>, ptrs: seq<nat>, lo: nat, hi: nat) {
    hi == lo + Total(strs) && hi <= |page| && AllStored(page, strs, ptrs, lo, hi) && Row(page, lo, strs)
  }

  lemma TextSame(p: seq<Byte>, q: seq<Byte>, strs: seq<Str>, ptrs: seq<nat>, lo: nat, hi: nat)
    requires Text(p, strs, ptrs, lo, hi) && Same(p, q, lo, hi)
    ensures Text(q, strs, ptrs, lo, hi)
  {
    AllStoredSame(p, q, strs, ptrs, lo, hi);
    RowSame(p, q, lo, strs);
  }

  // ---------------------------------------------------------------- reading

  /** The string a pointer word at `o` leads to. */
  function Follow(page: seq<Byte>, o: nat): seq<int>
    requires o + 8 <= |page|
  {
    var a := Number(page, o, 8);
    if a < PAGE_ADDR then [] else CString(page, a - PAGE_ADDR)
  }

  lemma FollowStored(page: seq<Byte>, o: nat, strs: seq<Str>, ptrs: seq<nat>, lo: nat, hi: nat, i: nat)
    requires AllStored(page, strs, ptrs, lo, hi) && i < |strs| && o + 8 <= |page| && Number(page, o, 8) == PAGE_ADDR + ptrs[i]
    ensures Follow(page, o) == strs[i]
  {
    assert Stored(page, strs, ptrs, lo, hi, i);
    var s := strs[i];
    forall k | ptrs[i] <= k < ptrs[i] + |s| ensures page[k] != 0 {
      assert page[k] == page[ptrs[i]..ptrs[i] + |s|][k - ptrs[i]];
    }
    CStringIs(page, ptrs[i], ptrs[i] + |s|);
  }

  /** The words from `o` on are the addresses of offsets `ptrs`. */
  ghost predicate PointsAt(page: seq<Byte>, o: nat, ptrs: seq<nat>) {
    && o + 8 * |ptrs| <= |page|
    && (forall i {:trigger PointsOne(page, o, ptrs, i)} :: 0 <= i < |ptrs| ==> PointsOne(page, o, ptrs, i))
  }

  ghost predicate PointsOne(page: seq<Byte>, o: nat, ptrs: seq<nat>, i: nat)
    requires i < |ptrs| && o + 8 * |ptrs| <= |page|
  {
    Number(page, o + 8 * i, 8) == PAGE_ADDR + ptrs[i]
  }

  lemma PointsAtPart(page: seq<Byte>, ss: nat, v: seq<nat>, ptrs: seq<nat>, k: nat, o: nat)
    requires WordsAt(page, ss, v) && k + |ptrs| <= |v| && v[k..k + |ptrs|] == Addresses(ptrs) && o == ss + 8 * k
    ensures PointsAt(page, o, ptrs)
  {
    forall i | 0 <= i < |ptrs| ensures PointsOne(page, o, ptrs, i) {
      WordsAtIndex(page, ss, v, k + i);
      assert v[k + i] == v[k..k + |ptrs|][i];
    }
  }

  /** The vector's words, by position. */
  lemma VectorAt(page: seq<Byte>, ss: nat, ap: seq<nat>, ep: seq<nat>)
    requires WordsAt(page, ss, Vector(ap, ep))
    ensures Number(page, ss, 8) == |ap| && Number(page, ss + 8 + 8 * |ap|, 8) == 0
    ensures PointsAt(page, ss + 8, ap) && PointsAt(page, ss + 16 + 8 * |ap|, ep)
  {
    var v := Vector(ap, ep);
    WordsAtIndex(page, ss, v, 0);
    WordsAtIndex(page, ss, v, 1 + |ap|);
    assert v[1..1 + |ap|] == Addresses(ap);
    assert v[2 + |ap|..2 + |ap| + |ep|] == Addresses(ep);
    PointsAtPart(page, ss, v, ap, 1, ss + 8);
    PointsAtPart(page, ss, v, ep, 2 + |ap|, ss + 16 + 8 * |ap|);
  }

  /** The pointer words from `o` on lead to the strings. */
  ghost predicate ReadsBack(page: seq<Byte>, o: nat, strs: seq<Str>) {
    && o + 8 * |strs| <= |page|
    && (forall i {:trigger ReadsOne(page, o, strs, i)} :: 0 <= i < |strs| ==> ReadsOne(page, o, strs, i))
  }

  ghost predicate ReadsOne(page: seq<Byte>, o: nat, strs: seq<Str>, i: nat)
    requires i < |strs| && o + 8 * |strs| <= |page|
  {
    Follow(page, o + 8 * i) == strs[i]
  }

  lemma PointersBack(page: seq<Byte>, o: nat, strs: seq<Str>, ptrs: seq<nat>, lo: nat, hi: nat)
    requires AllStored(page, strs, ptrs, lo, hi) && PointsAt(page, o, ptrs)
    ensures ReadsBack(page, o, strs)
  {
    forall i | 0 <= i < |strs| ensures ReadsOne(page, o, strs, i) {
      assert PointsOne(page, o, ptrs, i);
      FollowStored(page, o + 8 * i, strs, ptrs, lo, hi, i);
    }
  }

  /** The pointer `a` of string `i` leads to its bytes. */
  lemma PointerReads(page: seq<Byte>, o: nat, strs: seq<Str>, i: nat, j: nat) returns (a: nat)
    requires ReadsBack(page, o, strs) && i < |strs| && j < |strs[i]|
    ensures a == Number(page, o + 8 * i, 8)
    ensures PAGE_ADDR <= a && a - PAGE_ADDR + j < |page| && page[a - PAGE_ADDR + j] == strs[i][j]
  {
    assert ReadsOne(page, o, strs, i);
    a := Number(page, o + 8 * i, 8);
    CStringAt(page, a - PAGE_ADDR, j);
  }

  lemma {:induction false} NumberSplit(lo: seq<Byte>, hi: seq<Byte>)
    ensures NumberOf(lo + hi) == NumberOf(lo) + Pow256(|lo|) * NumberOf(hi) && NumberOf(lo) < Pow256(|lo|)
  {
    if lo == [] {
      assert lo + hi == hi;
    } else {
      NumberSplit(lo[1..], hi);
      assert (lo + hi)[1..] == lo[1..] + hi;
      TimesAssoc(Pow256(|lo| - 1), NumberOf(hi));
    }
  }

  lemma TimesAssoc(p: nat, h: nat)
    ensures 256 * (p * h) == (256 * p) * h
  {
  }

  /** _start reads argc as a four-byte int. */
  lemma LowHalf(page: seq<Byte>, o: nat)
    requires o + 8 <= |page| && Number(page, o, 8) < 0x1_0000_0000
    ensures Number(page, o, 4) == Number(page, o, 8)
  {
    Pow256Values();
    NumberSplit(page[o..o + 4], page[o + 4..o + 8]);
    assert page[o..o + 8] == page[o..o + 4] + page[o + 4..o + 8];
  }

  /** Where _start, with stack pointer `rsp`, finds argc, and the vectors argv and envp. */
  function Argc(page: seq<Byte>, rsp: int): nat
    requires 0 <= rsp + 24 && rsp + 28 <= |page|
  {
    Number(page, rsp + 24, 4)
  }

  function Argv(rsp: int): int {
    rsp + 32
  }

  function Envp(page: seq<Byte>, rsp: int): int
    requires 0 <= rsp + 24 && rsp + 28 <= |page|
  {
    Argv(rsp) + 8 * (Argc(page, rsp) + 1)
  }

  lemma TextBack(page: seq<Byte>, o: nat, strs: seq<Str>, ptrs: seq<nat>, lo: nat, hi: nat)
    requires Text(page, strs, ptrs, lo, hi) && PointsAt(page, o, ptrs)
    ensures |ptrs| == |strs| && ReadsBack(page, o, strs)
  {
    PointersBack(page, o, strs, ptrs, lo, hi);
  }

  lemma BlockReads(page: seq<Byte>, ss: nat, args: seq<Str>, envs: seq<Str>, ap: seq<nat>, ep: seq<nat>)
    requires Block(page, ss, args, envs, ap, ep)
    ensures ss + 16 + 8 * |args| <= |page| && Number(page, ss, 8) == |args| && Number(page, ss + 8 + 8 * |args|, 8) == 0
    ensures ReadsBack(page, ss + 8, args) && ReadsBack(page, ss + 16 + 8 * |args|, envs)
  {
    var low, mid := ss + 8 * (|args| + |envs| + 2), START - Total(envs);
    VectorAt(page, ss, ap, ep);
    TextBack(page, ss + 8, args, ap, low, mid);
    TextBack(page, ss + 16 + 8 * |ap|, envs, ep, mid, START);
  }

  lemma ArgcIs(page: seq<Byte>, ss: nat, n: nat)
    requires ss + 8 <= |page| && Number(page, ss, 8) == n <= 10
    ensures Argc(page, ss - 24) == n && Envp(page, ss - 24) == ss + 16 + 8 * n
  {
    LowHalf(page, ss);
  }

  /** _start gets back the strings load_elf was given, when its frame takes the three words it counts on. */
  lemma RoundTrip(page: seq<Byte>, ss: nat, args: seq<Str>, envs: seq<Str>, ap: seq<nat>, ep: seq<nat>) returns (argv: nat, envp: nat)
    requires Block(page, ss, args, envs, ap, ep) && Small(args) && Small(envs)
    ensures ss + 8 <= |page| && argv == Argv(ss - 24) == ss + 8 && envp == Envp(page, ss - 24) == ss + 16 + 8 * |args|
    ensures Argc(page, ss - 24) == |args| && argv + 8 * |args| + 8 <= |page| && Number(page, argv + 8 * |args|, 8) == 0
    ensures ReadsBack(page, argv, args) && ReadsBack(page, envp, envs)
  {
    argv, envp := ss + 8, ss + 16 + 8 * |args|;
    BlockReads(page, ss, args, envs, ap, ep);
    ArgcIs(page, ss, |args|);
  }

  // ------------------------------------------- the word after the environment

  ghost predicate ZeroBytes(page: seq<Byte>, lo: nat, k: nat) {
    lo + k <= |page| && forall i :: lo <= i < lo + k ==> page[i] == 0
  }

  /** The first `k` strings, or all if there are fewer, are empty. */
  predicate FirstEmpty(strs: seq<Str>, k: nat) {
    forall i :: 0 <= i < k && i < |strs| ==> strs[i] == []
  }

  lemma {:induction false} NumberZero(bytes: seq<Byte>)
    ensures NumberOf(bytes) == 0 <==> forall i :: 0 <= i < |bytes| ==> bytes[i] == 0
  {
    if bytes != [] {
      NumberZero(bytes[1..]);
      assert forall i :: 0 < i < |bytes| ==> bytes[i] == bytes[1..][i - 1];
    }
  }

  /** The first `k` string bytes are zero exactly when the first `k` strings, as far as there are so many, are empty. */
  lemma {:induction false} LeadingZeros(page: seq<Byte>, lo: nat, strs: seq<Str>, k: nat)
    requires Row(page, lo, strs) && ZeroBytes(page, lo + Total(strs), k)
    ensures ZeroBytes(page, lo, k) <==> FirstEmpty(strs, k)
    decreases |strs|
  {
    if strs != [] && k > 0 {
      assert StringAt(page, lo, strs[0]);
      if strs[0] == [] {
        LeadingZeros(page, lo + 1, strs[1..], k - 1);
        assert ZeroBytes(page, lo, k) <==> ZeroBytes(page, lo + 1, k - 1);
        assert forall i :: 0 < i < |strs| ==> strs[i] == strs[1..][i - 1];
      } else {
        assert page[lo] == page[lo..lo + |strs[0]|][0];
      }
    }
  }

  lemma NullWord(page: seq<Byte>, low: nat, strs: seq<Str>)
    requires Row(page, low, strs) && ZeroBytes(page, low + Total(strs), 8) && low + 8 <= |page|
    ensures Number(page, low, 8) == 0 <==> FirstEmpty(strs, 8)
  {
    LeadingZeros(page, low, strs, 8);
    var w := page[low..low + 8];
    NumberZero(w);
    assert ZeroBytes(page, low, 8) <==> forall i :: 0 <= i < |w| ==> w[i] == 0 by {
      if forall i :: 0 <= i < |w| ==> w[i] == 0 {
        forall i | low <= i < low + 8 ensures page[i] == 0 {
          assert page[i] == w[i - low];
        }
      }
    }
  }

  /** The word after the environment pointers is null if and only if the first eight strings, or all if fewer, are empty. */
  lemma NullAfterEnvp(page: seq<Byte>, ss: nat, args: seq<Str>, envs: seq<Str>, ap: seq<nat>, ep: seq<nat>) returns (end: nat)
    requires |page| == PGSIZE && Block(page, ss, args, envs, ap, ep) && Small(args)
    requires ZeroBytes(page, START, 8)
    ensures ss + 8 <= |page| && end == Envp(page, ss - 24) + 8 * |envs| && end + 8 <= |page|
    ensures Number(page, end, 8) == 0 <==> FirstEmpty(args + envs, 8)
  {
    end := BlockNull(page, ss, args, envs, ap, ep);
    RoundTripAt(page, ss, args, envs, ap, ep);
  }

  lemma BlockNull(page: seq<Byte>, ss: nat, args: seq<Str>, envs: seq<Str>, ap: seq<nat>, ep: seq<nat>) returns (low: nat)
    requires |page| == PGSIZE && Block(page, ss, args, envs, ap, ep)
    requires ZeroBytes(page, START, 8)
    ensures low == ss + 8 * (|args| + |envs| + 2) && low + 8 <= |page| && (Number(page, low, 8) == 0 <==> FirstEmpty(args + envs, 8))
  {
    low := ss + 8 * (|args| + |envs| + 2);
    RowJoin(page, low, args, envs);
    NullWord(page, low, args + envs);
  }

  lemma RoundTripAt(page: seq<Byte>, ss: nat, args: seq<Str>, envs: seq<Str>, ap: seq<nat>, ep: seq<nat>)
    requires Block(page, ss, args, envs, ap, ep) && Small(args)
    ensures ss + 8 <= |page| && Envp(page, ss - 24) == ss + 8 * (|args| + 2)
  {
    BlockReads(page, ss, args, envs, ap, ep);
    ArgcIs(page, ss, |args|);
  }

  /** So with one argument "a" and one variable "b" it is not null. */
  method UnterminatedExample() returns (page: array<Byte>, ss: nat, ghost ap: seq<nat>, ghost ep: seq<nat>)
    ensures page.Length == PGSIZE && 24 <= ss && ss + 8 <= PGSIZE && Block(page[..], ss, [[97]], [[98]], ap, ep)
    ensures Envp(page[..], ss - 24) + 16 <= PGSIZE && Number(page[..], Envp(page[..], ss - 24) + 8, 8) != 0
  {
    page := new Byte[PGSIZE](i => 0);
    var args: seq<Str>, envs: seq<Str> := [[97]], [[98]];
    ss, ap, ep := Build(page, args, envs);
    assert Total(args) == 2 && Total(envs) == 2;
    ghost var end := NullAfterEnvp(page[..], ss, args, envs, ap, ep);
    assert (args + envs)[0] != [];
  }
}
