/**
 Virtual addresses as page-table indices, and the pointers `sys/pging.c` builds
 into the page tables: each is an address whose own indices are 510, one to
 four times, followed by leading indices of the address it describes.
 */
module Pointers {
  import opened Bits
  import opened Machine

  /** An index into a 512-entry table, or of a word within a page. */
  type Index = i: int | 0 <= i < 512

  /** A virtual page, as the four indices the walk uses. */
  datatype Page = Page(i4: Index, i3: Index, i2: Index, i1: Index)

  function PageOf(va: nat): Page {
    Page((va / 0x80_0000_0000) % 512, (va / 0x4000_0000) % 512, (va / 0x20_0000) % 512, (va / 0x1000) % 512)
  }

  function WordOf(va: nat): Index {
    (va % PGSIZE) / 8
  }

  const PMLE_REF := 0xFFFF_FF7F_BFDF_E000
  const PDPE_REF := 0xFFFF_FF7F_BFC0_0000
  const PDE_REF := 0xFFFF_FF7F_8000_0000
  const PTE_REF := 0xFFFF_FF00_0000_0000

  /** The page number, times eight, under the self-map prefix of page-table entries; after the right shift the product cannot overflow. */
  function GetPhys(va: nat): nat {
    Or((va * 0x1_0000) % U64 / 0x1000_0000 * 8, PTE_REF)
  }

  /** The same with the last index dropped: page-directory entries. */
  function GetPDT(va: nat): nat {
    Or((va * 0x1_0000) % U64 / 0x20_0000_0000 * 8, PDE_REF)
  }

  /** The same with two indices dropped: entries one level up. */
  function GetPDPT(va: nat): nat {
    Or((va * 0x1_0000) % U64 / 0x4000_0000_0000 * 8, PDPE_REF)
  }

  /** The same with only the first index left: entries of the root. */
  function GetPMLT(va: nat): nat {
    Or((va * 0x1_0000) % U64 / 0x80_0000_0000_0000 * 8, PMLE_REF)
  }

  /** Every 64-bit address is its four indices, its page offset, and the sign extension. */
  lemma Digits(va: nat) returns (high: nat, off: nat)
    requires va < U64
    ensures high < 0x1_0000 && off < PGSIZE
    ensures var p := PageOf(va);
            va == high * 0x1_0000_0000_0000 + p.i4 * 0x80_0000_0000 + p.i3 * 0x4000_0000 + p.i2 * 0x20_0000 + p.i1 * 0x1000 + off
  {
    high, off := va / 0x1_0000_0000_0000, va % PGSIZE;
    var a, b, c, d := va / 0x80_0000_0000, va / 0x4000_0000, va / 0x20_0000, va / 0x1000;
    assert c == d / 512 && b == c / 512 && a == b / 512 && high == a / 512;
  }

  /** The four indices of an address put together from given digits. */
  lemma FromDigits(high: nat, p: Page, off: nat)
    requires off < PGSIZE
    ensures var va := high * 0x1_0000_0000_0000 + p.i4 * 0x80_0000_0000 + p.i3 * 0x4000_0000 + p.i2 * 0x20_0000 + p.i1 * 0x1000 + off;
            PageOf(va) == p && WordOf(va) == off / 8 && va % PGSIZE == off
  {
    var va := high * 0x1_0000_0000_0000 + p.i4 * 0x80_0000_0000 + p.i3 * 0x4000_0000 + p.i2 * 0x20_0000 + p.i1 * 0x1000 + off;
    var a, b, c, d := va / 0x80_0000_0000, va / 0x4000_0000, va / 0x20_0000, va / 0x1000;
    assert c == d / 512 && b == c / 512 && a == b / 512;
    assert d == ((((high * 512 + p.i4) * 512 + p.i3) * 512) + p.i2) * 512 + p.i1;
    Peel(((high * 512 + p.i4) * 512 + p.i3) * 512 + p.i2, p.i1);
    Peel((high * 512 + p.i4) * 512 + p.i3, p.i2);
    Peel(high * 512 + p.i4, p.i3);
    Peel(high, p.i4);
  }

  lemma Peel(q: nat, d: Index)
    ensures (q * 512 + d) / 512 == q && (q * 512 + d) % 512 == d
  {
  }

  /** vaddr << 16 drops the sign extension. */
  lemma DropSign(va: nat, high: nat, low: nat)
    requires va == high * 0x1_0000_0000_0000 + low && low < 0x1_0000_0000_0000 && high < 0x1_0000
    ensures (va * 0x1_0000) % U64 == low * 0x1_0000
  {
    assert va * 0x1_0000 == high * U64 + low * 0x1_0000;
  }

  /** Below each reference constant's lowest set bit, or is addition. */
  lemma OrRefs(a: nat)
    ensures a < 0x80_0000_0000 ==> Or(a, PTE_REF) == PTE_REF + a
    ensures a < 0x4000_0000 ==> Or(a, PDE_REF) == PDE_REF + a
    ensures a < 0x20_0000 ==> Or(a, PDPE_REF) == PDPE_REF + a
    ensures a < 0x1000 ==> Or(a, PMLE_REF) == PMLE_REF + a
  {
    Pow2Values();
    if a < 0x80_0000_0000 {
      OrDisjoint(a, 0x1FF_FFFE, 39);
    }
    if a < 0x4000_0000 {
      OrDisjoint(a, 0x3_FFFF_FDFE, 30);
    }
    if a < 0x20_0000 {
      OrDisjoint(a, 0x7FF_FFFB_FDFE, 21);
    }
    if a < 0x1000 {
      OrDisjoint(a, 0xF_FFFF_F7FB_FDFE, 12);
    }
  }

  lemma GetPhysField(va: nat)
    requires va < U64
    ensures var p := PageOf(va);
            (va * 0x1_0000) % U64 / 0x1000_0000 == p.i4 * 0x800_0000 + p.i3 * 0x4_0000 + p.i2 * 0x200 + p.i1
  {
    var p := PageOf(va);
    var high, off := Digits(va);
    var n: nat, rest: nat := p.i4 * 0x800_0000 + p.i3 * 0x4_0000 + p.i2 * 0x200 + p.i1, off;
    DropSign(va, high, n * 0x1000 + rest);
    assert (n * 0x1000 + rest) * 0x1_0000 == n * 0x1000_0000 + rest * 0x1_0000;
  }

  lemma GetPhysValue(va: nat)
    requires va < U64
    ensures var p := PageOf(va);
            GetPhys(va) == PTE_REF + (p.i4 * 0x800_0000 + p.i3 * 0x4_0000 + p.i2 * 0x200 + p.i1) * 8
  {
    var p := PageOf(va);
    GetPhysField(va);
    OrRefs((p.i4 * 0x800_0000 + p.i3 * 0x4_0000 + p.i2 * 0x200 + p.i1) * 8);
  }

  lemma GetPhysDigits(va: nat)
    requires va < U64
    ensures var p := PageOf(va);
            PageOf(GetPhys(va)) == Page(510, p.i4, p.i3, p.i2) && WordOf(GetPhys(va)) == p.i1 && GetPhys(va) < U64
  {
    var p := PageOf(va);
    GetPhysValue(va);
    FromDigits(0xFFFF, Page(510, p.i4, p.i3, p.i2), p.i1 * 8);
  }

  lemma GetPDTField(va: nat)
    requires va < U64
    ensures var p := PageOf(va);
            (va * 0x1_0000) % U64 / 0x20_0000_0000 == p.i4 * 0x4_0000 + p.i3 * 0x200 + p.i2
  {
    var p := PageOf(va);
    var high, off := Digits(va);
    var n: nat, rest: nat := p.i4 * 0x4_0000 + p.i3 * 0x200 + p.i2, p.i1 * 0x1000 + off;
    DropSign(va, high, n * 0x20_0000 + rest);
    assert (n * 0x20_0000 + rest) * 0x1_0000 == n * 0x20_0000_0000 + rest * 0x1_0000;
  }

  lemma GetPDTValue(va: nat)
    requires va < U64
    ensures var p := PageOf(va);
            GetPDT(va) == PDE_REF + (p.i4 * 0x4_0000 + p.i3 * 0x200 + p.i2) * 8
  {
    var p := PageOf(va);
    GetPDTField(va);
    OrRefs((p.i4 * 0x4_0000 + p.i3 * 0x200 + p.i2) * 8);
  }

  lemma GetPDTDigits(va: nat)
    requires va < U64
    ensures var p := PageOf(va);
            PageOf(GetPDT(va)) == Page(510, 510, p.i4, p.i3) && WordOf(GetPDT(va)) == p.i2 && GetPDT(va) < U64
  {
    var p := PageOf(va);
    GetPDTValue(va);
    FromDigits(0xFFFF, Page(510, 510, p.i4, p.i3), p.i2 * 8);
  }

  lemma GetPDPTField(va: nat)
    requires va < U64
    ensures var p := PageOf(va);
            (va * 0x1_0000) % U64 / 0x4000_0000_0000 == p.i4 * 0x200 + p.i3
  {
    var p := PageOf(va);
    var high, off := Digits(va);
    var n: nat, rest: nat := p.i4 * 0x200 + p.i3, p.i2 * 0x20_0000 + p.i1 * 0x1000 + off;
    DropSign(va, high, n * 0x4000_0000 + rest);
    assert (n * 0x4000_0000 + rest) * 0x1_0000 == n * 0x4000_0000_0000 + rest * 0x1_0000;
  }

  lemma GetPDPTValue(va: nat)
    requires va < U64
    ensures var p := PageOf(va);
            GetPDPT(va) == PDPE_REF + (p.i4 * 0x200 + p.i3) * 8
  {
    var p := PageOf(va);
    GetPDPTField(va);
    OrRefs((p.i4 * 0x200 + p.i3) * 8);
  }

  lemma GetPDPTDigits(va: nat)
    requires va < U64
    ensures var p := PageOf(va);
            PageOf(GetPDPT(va)) == Page(510, 510, 510, p.i4) && WordOf(GetPDPT(va)) == p.i3 && GetPDPT(va) < U64
  {
    var p := PageOf(va);
    GetPDPTValue(va);
    FromDigits(0xFFFF, Page(510, 510, 510, p.i4), p.i3 * 8);
  }

  lemma GetPMLTField(va: nat)
    requires va < U64
    ensures var p := PageOf(va);
            (va * 0x1_0000) % U64 / 0x80_0000_0000_0000 == p.i4
  {
    var p := PageOf(va);
    var high, off := Digits(va);
    var n: nat, rest: nat := p.i4, p.i3 * 0x4000_0000 + p.i2 * 0x20_0000 + p.i1 * 0x1000 + off;
    DropSign(va, high, n * 0x80_0000_0000 + rest);
    assert (n * 0x80_0000_0000 + rest) * 0x1_0000 == n * 0x80_0000_0000_0000 + rest * 0x1_0000;
  }

  lemma GetPMLTValue(va: nat)
    requires va < U64
    ensures var p := PageOf(va);
            GetPMLT(va) == PMLE_REF + (p.i4) * 8
  {
    var p := PageOf(va);
    GetPMLTField(va);
    OrRefs((p.i4) * 8);
  }

  lemma GetPMLTDigits(va: nat)
    requires va < U64
    ensures var p := PageOf(va);
            PageOf(GetPMLT(va)) == Page(510, 510, 510, 510) && WordOf(GetPMLT(va)) == p.i4 && GetPMLT(va) < U64
  {
    var p := PageOf(va);
    GetPMLTValue(va);
    FromDigits(0xFFFF, Page(510, 510, 510, 510), p.i4 * 8);
  }
}
