/** What a worker found: the arguments of the two submit calls. */
module Shares {
  datatype Share =
    | ClassicShare(jobId: string, extranonce2: string, ntime: string, nonceHex: string)
    | BlobShare(jobId: string, blob: string)
}
