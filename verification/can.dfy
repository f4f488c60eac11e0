/** Classic CAN frames as the driver stores them (struct can_frame), with the
    flag bits the kernel keeps above the identifier. */
module Can {
  import opened Words

  const EFF_FLAG: mask := 0x8000_0000
  const RTR_FLAG: mask := 0x4000_0000
  const ERR_FLAG: mask := 0x2000_0000
  /** CAN_EFF_MASK and CAN_ERR_MASK select the same 29 bits. */
  const EFF_RANGE: int := 0x2000_0000
  const SFF_RANGE: int := 0x800
  const MAX_DLC: int := 8
  /** Slots of the character device's receive ring. */
  const RING_SIZE: nat := 8

  const ZERO8: seq<byte> := [0, 0, 0, 0, 0, 0, 0, 0]

  datatype Frame = Frame(id: u32, dlc: byte, data: seq<byte>)

  /** A frame with the time it was received at, as queued for the character device. */
  datatype Msg = Msg(hwtstamp: int, frame: Frame)

  function Min(a: int, b: int): int { if a < b then a else b }

  /** The eight data bytes of a frame: `n` bytes of `b` from `p` on, zero after them. */
  function Padded(b: seq<byte>, p: nat, n: nat): (r: seq<byte>)
    requires n <= 8 && p + n <= |b|
    ensures |r| == 8 && forall k :: n <= k < 8 ==> r[k] == 0
  {
    b[p..p + n] + ZERO8[n..]
  }

  /** Identifiers the decoder produces: flags consistent with the number. */
  predicate DecodedId(id: u32) {
    var base := if Has(id, RTR_FLAG) then id - RTR_FLAG else id;
    base < SFF_RANGE || EFF_FLAG <= base < EFF_FLAG + EFF_RANGE
  }

  /** What every decoded frame handed to either interface looks like. */
  predicate WellFormed(f: Frame) {
    DecodedId(f.id) && f.dlc <= MAX_DLC && |f.data| == 8 && forall k :: f.dlc <= k < 8 ==> f.data[k] == 0
  }
}
