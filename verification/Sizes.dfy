/** The sizes the shared memory is cut into. */
module Sizes {
  const PAGE_SIZE: nat := 4096

  /** NETFRONT_BUF_SIZE: one buffer per slot. */
  const BUF_SIZE: nat := 2048
}
