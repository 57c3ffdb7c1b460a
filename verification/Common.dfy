/** What several parts of the kernel share. */
module Common {
  datatype Option<T> = None | Some(value: T)

  const PAGE_SIZE := 4096

  predicate PageAligned(a: nat) { a % PAGE_SIZE == 0 }
}
