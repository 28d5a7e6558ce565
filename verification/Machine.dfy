/** Bytes, pages, sectors and addresses. */
module Machine {
  type Byte = b: int | 0 <= b < 256

  const PGSIZE: nat := 4096

  /** Where user addresses end and the kernel's begin. */
  const PHYS_BASE: nat := 0xC000_0000

  const SECTOR_SIZE: nat := 512

  function Zeros(n: nat): (z: seq<Byte>)
    ensures |z| == n
  {
    seq(n, _ => 0)
  }
}
