/**
 The read-only file system in a ustar archive, `sys/tarfs.c`: the walk over the
 headers, opening a member by path and reading it.
 */
module Tarfs {
  import opened Options
  import opened Machine
  import opened Move

  const BLOCK := 512
  const NAME_SIZE := 100
  /** Where the size and the type are in a header. */
  const SIZE_AT := 124
  const TYPE_AT := 156
  const SIZE_DIGITS := 11
  const DIR: Byte := 53
  const SPACE: Byte := 32

  // -------------------------------------------------------- octal numbers

  const WRAP := 0x1_0000_0000

  /** A char as C reads it. */
  function Signed(c: Byte): int {
    if c >= 128 then c - 256 else c
  }

  /** The int that oct_to_bin accumulates over the digits `s`. */
  function OctInt(s: seq<Byte>): int {
    if s == [] then 0 else ToInt(ToInt(8 * OctInt(s[..|s| - 1])) + Signed(s[|s| - 1]) - 48)
  }

  /** An int returned as a 64-bit unsigned number. */
  function ToUnsigned(x: int): int {
    if x < 0 then x + 0x1_0000_0000_0000_0000 else x
  }

  /** oct_to_bin of a field: all its bytes but the last */
  method OctToBin(s: seq<Byte>) returns (n: int)
    requires s != []
    ensures n == ToUnsigned(OctInt(s[..|s| - 1]))
  {
    var num, c, length := 0, 0, |s| - 1;
    while length > 0
      invariant 0 <= length && c == |s| - 1 - length && num == OctInt(s[..c])
    {
      assert s[..c + 1][..c] == s[..c];
      num := ToInt(8 * num);
      num := ToInt(num + Signed(s[c]) - 48);
      c := c + 1;
      length := length - 1;
    }
    return ToUnsigned(num);
  }

  /** `n` in `d` octal digits, the way archives hold it. */
  function Octal(n: nat, d: nat): (s: seq<Byte>)
    ensures |s| == d
  {
    if d == 0 then [] else Octal(n / 8, d - 1) + [48 + n % 8]
  }

  function Pow8(d: nat): nat {
    if d == 0 then 1 else 8 * Pow8(d - 1)
  }

  lemma ToIntShift(x: int, k: int)
    ensures ToInt(x + WRAP * k) == ToInt(x)
  {
  }

  lemma Shifted(x: int) returns (k: int)
    ensures ToInt(x) == x + WRAP * k
  {
    k := (ToInt(x) - x) / WRAP;
  }

  /** The number the digits make without a bound, whatever the characters are. */
  function OctValue(s: seq<Byte>): int {
    if s == [] then 0 else 8 * OctValue(s[..|s| - 1]) + Signed(s[|s| - 1]) - 48
  }

  /** The int is that number cut once. */
  lemma {:induction false} OctIntExact(s: seq<Byte>)
    ensures OctInt(s) == ToInt(OctValue(s))
  {
    if s != [] {
      var v, d := OctValue(s[..|s| - 1]), Signed(s[|s| - 1]) - 48;
      OctIntExact(s[..|s| - 1]);
      CutOnce(v, d);
    }
  }

  lemma CutOnce(v: int, d: int)
    ensures ToInt(ToInt(8 * ToInt(v)) + d) == ToInt(8 * v + d)
  {
    var a := Shifted(v);
    var b := Shifted(8 * ToInt(v));
    ToIntShift(8 * v + d, 8 * a + b);
    assert ToInt(8 * ToInt(v)) + d == 8 * v + d + WRAP * (8 * a + b);
  }

  lemma {:induction false} OctalInt(n: nat, d: nat)
    requires n < Pow8(d)
    ensures OctInt(Octal(n, d)) == ToInt(n)
  {
    if d > 0 {
      OctalInt(n / 8, d - 1);
      var s := Octal(n, d);
      assert s[..d - 1] == Octal(n / 8, d - 1);
      var a := Shifted(n / 8);
      var b := Shifted(8 * ToInt(n / 8));
      ToIntShift(n, 8 * a + b);
      assert ToInt(8 * ToInt(n / 8)) + n % 8 == n + WRAP * (8 * a + b);
    }
  }

  lemma Pow8Value()
    ensures Pow8(SIZE_DIGITS) == 0x2_0000_0000
  {
    assert Pow8(11) == 0x2_0000_0000;
  }

  /** The size read is the size written exactly when it is below 2^31: the accumulator is an int. */
  lemma SizeRead(n: nat)
    requires n < 0x2_0000_0000
    ensures ToUnsigned(OctInt(Octal(n, SIZE_DIGITS))) == n <==> n < 0x8000_0000
  {
    Pow8Value();
    OctalInt(n, SIZE_DIGITS);
    IntKeeps(n);
  }

  lemma IntKeeps(n: nat)
    requires n < 0x2_0000_0000
    ensures ToUnsigned(ToInt(n)) == n <==> n < 0x8000_0000
  {
    if n >= WRAP {
      ToIntShift(n - WRAP, 1);
      assert ToInt(n) == ToInt(n - WRAP);
    }
  }

  // --------------------------------------------------------------- archives

  /** A member; `pre`, `mid` and `post` are the header fields nothing here reads. */
  datatype Member = Member(name: seq<Byte>, pre: seq<Byte>, mid: seq<Byte>, kind: Byte, post: seq<Byte>, content: seq<Byte>) {
    predicate Valid() {
      && 0 < |name| <= NAME_SIZE && (forall i :: 0 <= i < |name| ==> name[i] != 0)
      && |pre| == 24 && |mid| == 21 && |post| == 355 && |content| < 0x8000_0000
      && (kind == DIR ==> content == [])
    }
  }

  function Zeros(n: nat): (z: seq<Byte>)
    ensures |z| == n && forall i :: 0 <= i < n ==> z[i] == 0
  {
    seq(n, i => 0)
  }

  function Header(m: Member): (h: seq<Byte>)
    requires m.Valid()
    ensures |h| == BLOCK
  {
    m.name + Zeros(NAME_SIZE - |m.name|) + m.pre + Octal(|m.content|, SIZE_DIGITS) + m.mid + [m.kind] + m.post
  }

  /** Bytes that fill the last block. */
  function Padding(n: nat): (p: nat)
    ensures (n + p) % BLOCK == 0 && p < BLOCK
  {
    (BLOCK - n % BLOCK) % BLOCK
  }

  function MemberBytes(m: Member): seq<Byte>
    requires m.Valid()
  {
    Header(m) + m.content + Zeros(Padding(|m.content|))
  }

  ghost predicate AllValid(ms: seq<Member>) {
    forall i {:trigger ms[i]} :: 0 <= i < |ms| ==> ms[i].Valid()
  }

  /** The archive: the members and then a block that starts with a null byte. */
  function Archive(ms: seq<Member>, tail: seq<Byte>): seq<Byte>
    requires forall i {:trigger ms[i]} :: 0 <= i < |ms| ==> ms[i].Valid()
  {
    if ms == [] then tail else MemberBytes(ms[0]) + Archive(ms[1..], tail)
  }

  predicate Tail(tail: seq<Byte>) {
    |tail| >= BLOCK && tail[0] == 0
  }

  /** From offset `h` on, the archive holds the members `ms`. */
  ghost predicate Holds(ar: seq<Byte>, h: nat, ms: seq<Member>, tail: seq<Byte>) {
    AllValid(ms) && Tail(tail) && h <= |ar| && ar[h..] == Archive(ms, tail)
  }

  /** The header fields the code reads. */
  lemma HeaderFields(m: Member)
    requires m.Valid()
    ensures Header(m)[..|m.name|] == m.name && (forall i :: |m.name| <= i < NAME_SIZE ==> Header(m)[i] == 0)
    ensures Header(m)[SIZE_AT..SIZE_AT + SIZE_DIGITS] == Octal(|m.content|, SIZE_DIGITS)
    ensures Header(m)[TYPE_AT] == m.kind
  {
  }

  lemma HeldMember(ar: seq<Byte>, h: nat, ms: seq<Member>, tail: seq<Byte>)
    requires Holds(ar, h, ms, tail) && ms != []
    ensures var m := ms[0]; var n := h + |MemberBytes(m)|;
            && n + BLOCK <= |ar| && Holds(ar, n, ms[1..], tail)
            && ar[h..h + BLOCK] == Header(m) && ar[h + BLOCK..h + BLOCK + |m.content|] == m.content
  {
    var m, k := ms[0], |MemberBytes(ms[0])|;
    assert m.Valid();
    var rest := Archive(ms[1..], tail);
    assert ar[h..] == MemberBytes(m) + rest;
    assert ar[h + k..] == ar[h..][k..] == rest;
    ArchiveLong(ms[1..], tail);
    assert ar[h..h + BLOCK] == ar[h..][..BLOCK] == Header(m);
    assert ar[h + BLOCK..h + BLOCK + |m.content|] == ar[h..][BLOCK..BLOCK + |m.content|];
  }

  lemma ArchiveLong(ms: seq<Member>, tail: seq<Byte>)
    requires AllValid(ms) && Tail(tail)
    ensures |Archive(ms, tail)| >= BLOCK
    ensures Archive(ms, tail)[0] == 0 <==> ms == []
  {
    if ms != [] {
      assert ms[0].Valid();
      HeaderFields(ms[0]);
    }
  }

  // --------------------------------------------------------------- the walk

  /** Offset of member `k`. */
  function StartOf(ms: seq<Member>, k: nat): nat
    requires k <= |ms| && forall i {:trigger ms[i]} :: 0 <= i < |ms| ==> ms[i].Valid()
  {
    if k == 0 then 0 else StartOf(ms, k - 1) + |MemberBytes(ms[k - 1])|
  }

  /** To the next header: past this one and the whole blocks of the member's data. */
  lemma Blocks(m: Member)
    requires m.Valid()
    ensures |MemberBytes(m)| == BLOCK * (if |m.content| > 0 then (511 + |m.content|) / 512 + 1 else 1)
  {
    PaddedBlocks(|m.content|);
  }

  lemma PaddedBlocks(n: nat)
    ensures n + Padding(n) == BLOCK * ((511 + n) / 512)
  {
    var q, r := n / BLOCK, n % BLOCK;
    assert n == BLOCK * q + r;
    if r == 0 {
      assert (511 + n) / 512 == q;
    } else {
      assert (511 + n) / 512 == q + 1;
    }
  }

  /** The size field of a header, as oct_to_bin reads it. */
  method ReadSize(ar: seq<Byte>, h: nat, ghost ms: seq<Member>, ghost tail: seq<Byte>) returns (n: int)
    requires Holds(ar, h, ms, tail) && ms != []
    ensures n == |ms[0].content|
  {
    HeldMember(ar, h, ms, tail);
    n := OctToBin(ar[h + SIZE_AT..h + SIZE_AT + SIZE_DIGITS + 1]);
    SizeField(ar, h, ms[0]);
  }

  lemma SizeField(ar: seq<Byte>, h: nat, m: Member)
    requires m.Valid() && h + BLOCK <= |ar| && ar[h..h + BLOCK] == Header(m)
    ensures ToUnsigned(OctInt(ar[h + SIZE_AT..h + SIZE_AT + SIZE_DIGITS + 1][..SIZE_DIGITS])) == |m.content|
  {
    HeaderFields(m);
    SubRange(ar, h, BLOCK, SIZE_AT, SIZE_AT + SIZE_DIGITS);
    assert ar[h + SIZE_AT..h + SIZE_AT + SIZE_DIGITS + 1][..SIZE_DIGITS] == Header(m)[SIZE_AT..SIZE_AT + SIZE_DIGITS];
    SizeRead(|m.content|);
  }

  /** get_tfs_next of the header at `hdr`, where the members `ms` begin. */
  method GetNext(ar: seq<Byte>, hdr: Option<nat>, ghost ms: seq<Member>, ghost tail: seq<Byte>) returns (r: Option<nat>)
    requires hdr.Some? ==> Holds(ar, hdr.value, ms, tail)
    ensures hdr.None? || |ms| <= 1 ==> r == None
    ensures hdr.Some? && |ms| > 1 ==> r.Some? && r.value == hdr.value + |MemberBytes(ms[0])| && Holds(ar, r.value, ms[1..], tail)
  {
    if hdr.None? {
      return None;
    }
    var h := hdr.value;
    FirstByte(ar, h, ms, tail);
    if ar[h] == 0 {
      return None;
    }
    HeldMember(ar, h, ms, tail);
    Blocks(ms[0]);
    var size := ReadSize(ar, h, ms, tail);
    if size > 0 {
      h := h + BLOCK * ((511 + size) / 512 + 1);
    } else {
      h := h + BLOCK;
    }
    FirstByte(ar, h, ms[1..], tail);
    if ar[h] == 0 {
      return None;
    }
    return Some(h);
  }

  lemma FirstByte(ar: seq<Byte>, h: nat, ms: seq<Member>, tail: seq<Byte>)
    requires Holds(ar, h, ms, tail)
    ensures h < |ar| && (ar[h] == 0 <==> ms == [])
  {
    ArchiveLong(ms, tail);
    assert ar[h] == ar[h..][0];
  }

  /** The walk stands at member `k`, or is past the last. */
  ghost predicate Standing(ar: seq<Byte>, ms: seq<Member>, tail: seq<Byte>, hdr: Option<nat>, k: nat) {
    && AllValid(ms) && k <= |ms|
    && (hdr.None? <==> k == |ms|)
    && (hdr.Some? ==> hdr.value == StartOf(ms, k) && Holds(ar, hdr.value, ms[k..], tail))
  }

  method Advance(ar: seq<Byte>, hdr: Option<nat>, ghost ms: seq<Member>, ghost tail: seq<Byte>, ghost k: nat) returns (next: Option<nat>)
    requires Standing(ar, ms, tail, hdr, k) && hdr.Some?
    ensures Standing(ar, ms, tail, next, k + 1)
  {
    assert ms[k..][0] == ms[k] && ms[k..][1..] == ms[k + 1..];
    next := GetNext(ar, hdr, ms[k..], tail);
  }

  /** The walk from the first header visits every member in order. */
  method Visit(ar: seq<Byte>, ghost ms: seq<Member>, ghost tail: seq<Byte>) returns (hs: seq<nat>)
    requires Holds(ar, 0, ms, tail) && ms != []
    ensures |hs| == |ms| && forall i :: 0 <= i < |hs| ==> hs[i] == StartOf(ms, i)
  {
    hs := [];
    var hdr: Option<nat> := Some(0);
    assert ms[0..] == ms;
    while hdr.Some?
      invariant Standing(ar, ms, tail, hdr, |hs|)
      invariant forall i :: 0 <= i < |hs| ==> hs[i] == StartOf(ms, i)
      decreases |ms| - |hs|
    {
      var next := Advance(ar, hdr, ms, tail, |hs|);
      hs := hs + [hdr.value];
      hdr := next;
    }
  }

  /** Of an archive without members the walk visits the end block: the first header is not looked at. */
  method VisitEmpty(ar: seq<Byte>, ghost tail: seq<Byte>) returns (hs: seq<nat>)
    requires Holds(ar, 0, [], tail)
    ensures hs == [0]
  {
    hs := [];
    var hdr: Option<nat> := Some(0);
    while hdr.Some?
      invariant (hdr == Some(0) && hs == []) || (hdr == None && hs == [0])
      decreases hdr.Some?
    {
      hs := hs + [hdr.value];
      hdr := GetNext(ar, hdr, [], tail);
    }
  }

  // ---------------------------------------------------------- open and read

  const O_WRONLY := 0x1
  const O_RDWR := 0x10
  const O_DIRECTORY := 0x10000

  /** A flag word has the bit `b`, a power of two. */
  predicate Has(flags: nat, b: nat)
    requires b > 0
  {
    (flags / b) % 2 == 1
  }

  /** The bits tfs_open looks at: 0, 4 and 16. */
  lemma HasBits(flags: nat)
    ensures Has(flags, O_WRONLY) <==> flags % 2 == 1
    ensures Has(flags, O_RDWR) <==> flags % 32 >= 16
    ensures Has(flags, O_DIRECTORY) <==> flags % 131072 >= 65536
  {
    var q, r := flags / 32, flags % 32;
    assert flags == 32 * q + r && flags / 16 == 2 * q + r / 16;
    var q1, r1 := flags / 131072, flags % 131072;
    assert flags == 131072 * q1 + r1 && flags / 65536 == 2 * q1 + r1 / 65536;
  }

  /** The path is a prefix of the header's bytes from the name on; the comparison may run on into the fields after the name. */
  predicate Matches(ar: seq<Byte>, h: nat, p: seq<Byte>) {
    h + |p| <= |ar| && ar[h..h + |p|] == p
  }

  /** A path no longer than the name field matches exactly the members whose names start with it. */
  lemma MatchesName(ar: seq<Byte>, h: nat, ms: seq<Member>, tail: seq<Byte>, p: seq<Byte>)
    requires Holds(ar, h, ms, tail) && ms != [] && forall i :: 0 <= i < |p| ==> p[i] != 0
    requires |p| <= NAME_SIZE || |ms[0].name| < NAME_SIZE
    ensures Matches(ar, h, p) <==> p <= ms[0].name
  {
    HeldMember(ar, h, ms, tail);
    var m := ms[0];
    var n := |m.name|;
    HeaderFields(m);
    forall i | 0 <= i < NAME_SIZE ensures ar[h + i] == Header(m)[i] {
      assert ar[h..h + BLOCK][i] == ar[h + i];
    }
    assert forall i :: 0 <= i < n ==> Header(m)[i] == m.name[i];
    assert n < NAME_SIZE ==> ar[h + n] == 0;
    if Matches(ar, h, p) {
      assert forall i :: 0 <= i < |p| ==> p[i] == ar[h + i];
      assert p == m.name[..|p|];
    }
    if p <= m.name {
      assert ar[h..h + |p|] == p;
    }
  }

  lemma SubRange(ar: seq<Byte>, at: nat, n: nat, i: nat, j: nat)
    requires at + n <= |ar| && i <= j <= n
    ensures ar[at..at + n][i..j] == ar[at + i..at + j]
  {
    var s, t := ar[at..at + n], ar[at + i..at + j];
    assert forall k :: 0 <= k < j - i ==> s[i..j][k] == s[i + k] == t[k];
  }

  class TarFile {
    const hdr: nat
    const size: nat
    const flags: nat
    var offset: nat

    constructor (h: nat, n: nat, fl: nat, off: nat)
      ensures hdr == h && size == n && flags == fl && offset == off
    {
      hdr, size, flags, offset := h, n, fl, off;
    }

    /** The bytes after the header. */
    function Content(ar: seq<Byte>): seq<Byte>
      requires hdr + BLOCK + size <= |ar|
    {
      ar[hdr + BLOCK..hdr + BLOCK + size]
    }

    /** tfs_read of a file that is no directory */
    method Read(ar: seq<Byte>, count: nat) returns (out: seq<Byte>)
      requires hdr + BLOCK + size <= |ar| && offset <= size
      modifies this
      ensures offset == (if count < size - old(offset) then old(offset) + count else size)
      ensures out == Content(ar)[old(offset)..offset]
    {
      var left := size - offset;
      var acount := if count < left then count else left;
      out := ar[hdr + BLOCK + offset..hdr + BLOCK + offset + acount];
      SubRange(ar, hdr + BLOCK, size, offset, offset + acount);
      offset := offset + acount;
    }
  }

  /** `k` is the number of leading spaces. */
  ghost predicate LeadingSpaces(path: seq<Byte>, k: nat) {
    k <= |path| && (forall i :: 0 <= i < k ==> path[i] == 32) && (k < |path| ==> path[k] != 32)
  }

  /** The loop over leading spaces */
  method SkipLeading(path: seq<Byte>) returns (p: seq<Byte>, ghost k: nat)
    ensures LeadingSpaces(path, k) && p == path[k..]
  {
    p, k := path, 0;
    while p != [] && p[0] == SPACE
      invariant k <= |path| && p == path[k..] && forall i :: 0 <= i < k ==> path[i] == 32
      decreases |p|
    {
      p, k := p[1..], k + 1;
    }
  }

  /** The first member that matches, and none before it does. */
  ghost predicate FirstMatch(ar: seq<Byte>, ms: seq<Member>, p: seq<Byte>, k: nat)
    requires AllValid(ms)
  {
    && k <= |ms| && (k < |ms| ==> Matches(ar, StartOf(ms, k), p))
    && (forall i :: 0 <= i < k ==> !Matches(ar, StartOf(ms, i), p))
  }

  method Find(ar: seq<Byte>, p: seq<Byte>, ghost ms: seq<Member>, ghost tail: seq<Byte>) returns (hdr: Option<nat>, ghost k: nat)
    requires Holds(ar, 0, ms, tail) && ms != []
    ensures Standing(ar, ms, tail, hdr, k) && FirstMatch(ar, ms, p, k)
  {
    hdr, k := Some(0), 0;
    assert ms[0..] == ms;
    while hdr.Some?
      invariant Standing(ar, ms, tail, hdr, k)
      invariant forall i :: 0 <= i < k ==> !Matches(ar, StartOf(ms, i), p)
      decreases |ms| - k
    {
      var h := hdr.value;
      if Matches(ar, h, p) {
        return;
      }
      hdr := Advance(ar, hdr, ms, tail, k);
      k := k + 1;
    }
  }

  lemma {:induction false} HoldsAt(ar: seq<Byte>, ms: seq<Member>, tail: seq<Byte>, k: nat)
    requires Holds(ar, 0, ms, tail) && k <= |ms|
    ensures Holds(ar, StartOf(ms, k), ms[k..], tail)
  {
    if k == 0 {
      assert ms[0..] == ms;
    } else {
      HoldsAt(ar, ms, tail, k - 1);
      var rest := ms[k - 1..];
      assert rest[0] == ms[k - 1] && rest[1..] == ms[k..];
      HeldMember(ar, StartOf(ms, k - 1), rest, tail);
    }
  }

  /** For a path no longer than the name field, the first match is the first member whose name starts with the path. */
  lemma FirstMatchNames(ar: seq<Byte>, ms: seq<Member>, tail: seq<Byte>, p: seq<Byte>, k: nat)
    requires Holds(ar, 0, ms, tail) && |p| <= NAME_SIZE && forall i :: 0 <= i < |p| ==> p[i] != 0
    ensures FirstMatch(ar, ms, p, k)
            <==> k <= |ms| && (k < |ms| ==> p <= ms[k].name) && forall i :: 0 <= i < k ==> !(p <= ms[i].name)
  {
    forall i | 0 <= i < |ms| ensures Matches(ar, StartOf(ms, i), p) <==> p <= ms[i].name {
      HoldsAt(ar, ms, tail, i);
      assert ms[i..][0] == ms[i];
      MatchesName(ar, StartOf(ms, i), ms[i..], tail, p);
    }
  }

  /** The open file for the member at `hdr`. */
  method MakeFile(ar: seq<Byte>, hdr: Option<nat>, flags: nat, ghost ms: seq<Member>, ghost tail: seq<Byte>, ghost k: nat) returns (f: TarFile)
    requires Standing(ar, ms, tail, hdr, k) && hdr.Some?
    ensures fresh(f) && f.hdr == hdr.value && f.size == |ms[k].content| && f.flags == flags
    ensures f.hdr + BLOCK + f.size <= |ar| && f.Content(ar) == ms[k].content
    ensures f.offset == if ms[k].kind == DIR && k + 1 < |ms| then StartOf(ms, k + 1) else 0
  {
    assert ms[k..][0] == ms[k];
    HeldMember(ar, hdr.value, ms[k..], tail);
    var kind := Kind(ar, hdr, ms, tail, k);
    var offset := 0;
    if kind == DIR {
      var next := Advance(ar, hdr, ms, tail, k);
      if next.Some? {
        offset := next.value;
      }
    }
    var size := ReadSize(ar, hdr.value, ms[k..], tail);
    f := new TarFile(hdr.value, size, flags, offset);
  }

  /** The type of a header. */
  method Kind(ar: seq<Byte>, hdr: Option<nat>, ghost ms: seq<Member>, ghost tail: seq<Byte>, ghost k: nat) returns (c: Byte)
    requires Standing(ar, ms, tail, hdr, k) && hdr.Some?
    ensures c == ms[k].kind
  {
    var h := hdr.value;
    assert ms[k..][0] == ms[k];
    HeldMember(ar, h, ms[k..], tail);
    HeaderFields(ms[k]);
    assert ar[h..h + BLOCK][TYPE_AT] == ar[h + TYPE_AT];
    c := ar[h + TYPE_AT];
  }

  /** tfs_open of a path other than "/"; null stands for failure. */
  method Open(ar: seq<Byte>, path: Option<seq<Byte>>, flags: nat, ghost ms: seq<Member>, ghost tail: seq<Byte>)
    returns (f: TarFile?, ghost k: nat, ghost n: nat)
    requires Holds(ar, 0, ms, tail) && ms != [] && path != Some([47])
    ensures path.None? || flags % 2 == 1 || flags % 32 >= 16 ==> f == null
    ensures path.Some? && flags % 2 == 0 && flags % 32 < 16 ==>
              && LeadingSpaces(path.value, n) && FirstMatch(ar, ms, path.value[n..], k)
              && (f == null <==> k == |ms| || (ms[k].kind != DIR && flags % 131072 >= 65536))
    ensures f != null ==> k < |ms| && fresh(f) && f.hdr == StartOf(ms, k) && f.size == |ms[k].content| && f.flags == flags
    ensures f != null ==> f.hdr + BLOCK + f.size <= |ar| && f.Content(ar) == ms[k].content
    ensures f != null ==> f.offset == if ms[k].kind == DIR && k + 1 < |ms| then StartOf(ms, k + 1) else 0
  {
    f, k, n := null, 0, 0;
    HasBits(flags);
    if path.None? {
      return;
    }
    if Has(flags, O_WRONLY) || Has(flags, O_RDWR) {
      return;
    }
    var p, hdr;
    p, n := SkipLeading(path.value);
    hdr, k := Find(ar, p, ms, tail);
    if hdr.None? {
      return;
    }
    var kind := Kind(ar, hdr, ms, tail, k);
    if kind != DIR && Has(flags, O_DIRECTORY) {
      return;
    }
    f := MakeFile(ar, hdr, flags, ms, tail, k);
  }

  // ----------------------------------------------------------- reading it all

  function Sum(ns: seq<nat>): nat {
    if ns == [] then 0 else Sum(ns[..|ns| - 1]) + ns[|ns| - 1]
  }

  function Flat(ss: seq<seq<Byte>>): seq<Byte> {
    if ss == [] then [] else Flat(ss[..|ss| - 1]) + ss[|ss| - 1]
  }

  /** How far reads of these sizes get in a file of `size` bytes. */
  function Upto(counts: seq<nat>, size: nat): (n: nat)
    ensures n <= size
  {
    if Sum(counts) < size then Sum(counts) else size
  }

  /** What read `i` gives: the bytes between where the reads before it got and where it gets. */
  function Piece(content: seq<Byte>, counts: seq<nat>, i: nat): seq<Byte>
    requires i < |counts|
  {
    UptoGrows(counts, i, |content|);
    content[Upto(counts[..i], |content|)..Upto(counts[..i + 1], |content|)]
  }

  lemma {:induction false} UptoGrows(counts: seq<nat>, i: nat, size: nat)
    requires i < |counts|
    ensures Upto(counts[..i], size) <= Upto(counts[..i + 1], size)
  {
    assert counts[..i + 1][..i] == counts[..i];
  }

  /**
   Reads of any sizes, from the start of a file: each gives the content's next
   bytes, as many as it asked for or as are left; at the end, nothing.
   */
  method ReadAll(ar: seq<Byte>, f: TarFile, counts: seq<nat>) returns (outs: seq<seq<Byte>>)
    requires f.hdr + BLOCK + f.size <= |ar| && f.offset == 0
    modifies f
    ensures |outs| == |counts| && f.offset == Upto(counts, f.size)
    ensures forall i {:trigger outs[i]} :: 0 <= i < |outs| ==>
              outs[i] == Piece(f.Content(ar), counts, i)
    ensures Flat(outs) == f.Content(ar)[..if Sum(counts) < f.size then Sum(counts) else f.size]
  {
    outs := [];
    while |outs| < |counts|
      invariant |outs| <= |counts| && f.offset == Upto(counts[..|outs|], f.size)
      invariant forall i {:trigger outs[i]} :: 0 <= i < |outs| ==>
                  outs[i] == Piece(f.Content(ar), counts, i)
      invariant Flat(outs) == f.Content(ar)[..f.offset]
      decreases |counts| - |outs|
    {
      var n := |outs|;
      assert counts[..n + 1][..n] == counts[..n];
      var out := f.Read(ar, counts[n]);
      assert (outs + [out])[..n] == outs;
      outs := outs + [out];
    }
    assert counts[..|outs|] == counts;
  }
}
