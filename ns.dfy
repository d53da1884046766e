/**
 * The request page the network pumps share with the network server (`union Nsipc` of inc/ns.h,
 * which is not part of this model): a `struct jif_pkt`, a length word followed by the frame bytes,
 * filling one page.
 */
module Ns {
  import Mmu

  /** The IPC tag of a frame the input pump hands to the network server. */
  const NSREQ_INPUT: int := 10
  /** The IPC tag of a frame the network server hands to the output pump. */
  const NSREQ_OUTPUT: int := 11

  /** Bytes of `jp_data`: the rest of the page after the 4-byte `jp_len`. */
  const JpDataCapacity: nat := Mmu.PGSIZE - 4
}
