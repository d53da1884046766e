/** Page size, page-table-entry bits and address rounding of the x86 MMU as the kernel uses them. */
module Mmu {

  const PGSIZE: nat := 4096

  const PTE_P: bv32 := 0x001      // present
  const PTE_W: bv32 := 0x002      // writable
  const PTE_U: bv32 := 0x004      // user
  const PTE_SHARE: bv32 := 0x400  // shared between parent and child
  const PTE_SYSCALL: bv32 := 0xe07 // the bits a user process may pass to a system call

  /** A 32-bit machine word. */
  const WORD: nat := 0x1_0000_0000

  /** `ROUNDDOWN(a, PGSIZE)`: the start of the page that holds `a`. */
  function RoundDown(a: nat): (r: nat)
    ensures r % PGSIZE == 0
    ensures r <= a < r + PGSIZE
  {
    a - a % PGSIZE
  }

  /** The page number of an address, `PGNUM(a)`. */
  function PageNumber(a: nat): (pn: nat)
    ensures pn * PGSIZE <= a < (pn + 1) * PGSIZE
  {
    a / PGSIZE
  }

  /** The page-directory index of an address, `PDX(a)`: 1024 pages per directory entry. */
  function DirIndex(a: nat): (pdx: nat)
    ensures pdx * 1024 * PGSIZE <= a < (pdx + 1) * 1024 * PGSIZE
  {
    a / (1024 * PGSIZE)
  }
}
