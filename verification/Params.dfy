/** The sizes of kernel/param.h and kernel/memlayout.h. */
module Params {
  const NPROC := 64
  const NFILE := 100
  const NINODE := 50
  const ROOTDEV := 1
  const MAXOPBLOCKS := 10
  const LOGSIZE := 30   // MAXOPBLOCKS * 3
  const NBUF := 30      // MAXOPBLOCKS * 3

  const PGSIZE := 4096
  const KERNBASE := 0x8000_0000
  const PHYSTOP := 0x8800_0000
}
