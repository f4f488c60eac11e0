/** Machine words of the driver, the bit tests it performs on them and the
    little-endian layout of its multi-byte fields. */
module Words {
  type byte = x: int | 0 <= x < 0x100
  type u16 = x: int | 0 <= x < 0x1_0000
  type u32 = x: int | 0 <= x < 0x1_0000_0000
  type u64 = x: int | 0 <= x < 0x1_0000_0000_0000_0000
  type mask = x: int | 0 < x witness 1

  const WORD16: int := 0x1_0000
  const WORD32: int := 0x1_0000_0000
  const WORD64: int := 0x1_0000_0000_0000_0000

  datatype Option<+T> = None | Some(value: T)

  /** Zero or the negative error codes the receive path and its readers return. */
  datatype Errno = Ok | Inval | NoMem | Shutdown | NoBufs | Again

  /** `x & m` for a mask `m` of one bit. */
  predicate Has(x: nat, m: mask) {
    x / m % 2 == 1
  }

  /** `x | m` for a mask `m` of one bit. */
  function With(x: nat, m: mask): (r: nat) {
    if Has(x, m) then x else x + m
  }

  function Le16(b: seq<byte>, i: nat): (r: u16)
    requires i + 2 <= |b|
  {
    (b[i] as int) + 0x100 * (b[i + 1] as int)
  }

  function Le32(b: seq<byte>, i: nat): (r: u32)
    requires i + 4 <= |b|
  {
    (b[i] as int) + 0x100 * (b[i + 1] as int) + 0x1_0000 * (b[i + 2] as int) + 0x100_0000 * (b[i + 3] as int)
  }

  function Bytes16(v: u16): (r: seq<byte>)
    ensures |r| == 2 && Le16(r, 0) == v
  {
    [v % 0x100, v / 0x100]
  }

  function Bytes32(v: u32): (r: seq<byte>)
    ensures |r| == 4 && Le32(r, 0) == v
  {
    var v1 := v / 0x100;
    var v2 := v1 / 0x100;
    [v % 0x100, v1 % 0x100, v2 % 0x100, v2 / 0x100]
  }

  /** Quotient and remainder are fixed by their defining equation. */
  lemma DivMod8(x: int, q: int, r: int)
    requires x == 0x100 * q + r && 0 <= r < 0x100
    ensures x / 0x100 == q && x % 0x100 == r
  {
  }

  lemma DivMod16(x: int, q: int, r: int)
    requires x == WORD16 * q + r && 0 <= r < WORD16
    ensures x / WORD16 == q && x % WORD16 == r
  {
  }

  lemma Mod64(x: nat)
    requires x < WORD64
    ensures x % WORD64 == x
  {
  }
}
