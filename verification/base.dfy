/** Bytes, optional values and the status codes shared by every component. */
module Base {
  type byte = x: int | 0 <= x < 256

  datatype Option<+T> = None | Some(value: T)

  lemma ByteRoundTrip(b: byte)
    ensures (b as bv8) as int == b
  {
    if b < 16 {
    } else if b < 32 {
    } else if b < 64 {
    } else if b < 128 {
    } else {
    }
  }

  /** The error codes the modelled functions return. */
  datatype Status =
    | Success
    | NoData
    | BuffLimit
    | BadData
    | InvalidSize
    | WriteFailed
    | NodeTimeout
    | InvalidId
    | MaskConflict
    | AccessDenied
    | IdConflict
    | BusIdNotMatch
    | NotInited
    | NotFound
    | NoConnection
    | Ttl
    | BadNodeNum
    | ChannelSizeTooSmall
}
