/** What several modules need: optional values, duplicate-free sequences, and the machine's sizes. */
module Basics {
  const WORD: nat := 0x1_0000_0000            // one more than the largest uint32_t
  const PAGE: nat := 0x1000                   // PAGE_SIZE
  const KERNEL_OFFSET: nat := 0xC000_0000     // where the kernel's addresses begin

  datatype Option<+T> = None | Some(value: T)

  predicate NoDup<T(==)>(s: seq<T>) { forall i, j | 0 <= i < j < |s| :: s[i] != s[j] }
}
