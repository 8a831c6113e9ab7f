/** Constants and address arithmetic shared by the memory model. */
module Machine {
  const PGSIZE := 4096
  /** Start of the kernel's window onto physical memory, and of the kernel image in it. */
  const KERN := 0xFFFF_FFFF_8000_0000
  const KERNBASE := 0xFFFF_FFFF_8020_0000
  const USER_STACK_TOP := 0xF0_0000_0000
  const USER_STACK_SIZE := 0x1_0000

  function AlignDown(x: nat): (r: nat)
    ensures r % PGSIZE == 0 && r <= x < r + PGSIZE
  {
    x - x % PGSIZE
  }

  /** Up to the next page boundary, for the positive arguments the kernel uses. */
  function AlignUp(x: nat): (r: nat)
    requires x > 0
    ensures r % PGSIZE == 0 && x <= r < x + PGSIZE
  {
    AlignDown(x - 1) + PGSIZE
  }

  /** What is cut off is a multiple of 2^32. */
  lemma ToIntCuts(x: int)
    ensures (x - ToInt(x)) % 0x1_0000_0000 == 0
  {
  }

  /** Conversion to a 32-bit int. */
  function ToInt(x: int): (r: int)
    ensures -0x8000_0000 <= r < 0x8000_0000 && (x >= 0 ==> r <= x)
    ensures -0x8000_0000 <= x < 0x8000_0000 ==> r == x
  {
    var y := x % 0x1_0000_0000;
    if y >= 0x8000_0000 then y - 0x1_0000_0000 else y
  }
}
