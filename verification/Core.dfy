/** Machine integers, addresses and the small wrappers every component shares.
    Fixed-width arithmetic is written out: the release profile of the workspace leaves
    overflow checks off, so `+`, `-` and `*` wrap. */
module Core {
  const U32: nat := 0x1_0000_0000
  const U64: nat := 0x1_0000_0000_0000_0000
  const U127: nat := 0x8000_0000_0000_0000_0000_0000_0000_0000
  const U128: nat := 0x1_0000_0000_0000_0000_0000_0000_0000_0000

  newtype byte = x: int | 0 <= x < 256
  type u32 = x: nat | x < 0x1_0000_0000
  type u64 = x: nat | x < 0x1_0000_0000_0000_0000
  type u128 = x: nat | x < 0x1_0000_0000_0000_0000_0000_0000_0000_0000

  type Bytes20 = s: seq<byte> | |s| == 20 witness [0, 0, 0, 0, 0, 0, 0, 0, 0, 0, 0, 0, 0, 0, 0, 0, 0, 0, 0, 0]

  /** A 20-byte account address. */
  datatype Address = Address(bytes: Bytes20)
  const ZERO_ADDRESS: Address := Address([0, 0, 0, 0, 0, 0, 0, 0, 0, 0, 0, 0, 0, 0, 0, 0, 0, 0, 0, 0])

  /** A 32-byte digest, read as a number. */
  datatype Hash = Hash(id: nat)

  datatype Option<+T> = None | Some(value: T) {
    function GetOr(default: T): T {
      match this
      case Some(v) => v
      case None => default
    }
  }

  datatype Result<+T, +E> = Ok(value: T) | Err(error: E)

  function Min(a: nat, b: nat): nat { if a <= b then a else b }

  function SatSub(a: nat, b: nat): nat { if a <= b then 0 else a - b }

  function Add128(a: u128, b: u128): u128 { if a + b < U128 then a + b else a + b - U128 }

  function Sub128(a: u128, b: u128): u128 { if b <= a then a - b else U128 + a - b }

  function Add64(a: u64, b: u64): u64 { if a + b < U64 then a + b else a + b - U64 }

  function Mul64(a: u64, b: u64): u64 { (a * b) % U64 }

  /** `x as i128` followed by wrapping `i128` arithmetic. */
  function WrapI128(x: int): int {
    var r := x % U128;
    if r < U127 then r else r - U128
  }

  function Pow2(k: nat): (p: nat)
    ensures p > 0
  {
    if k == 0 then 1 else 2 * Pow2(k - 1)
  }

  lemma MulMonotone(a: nat, b: nat, c: nat)
    requires a <= b
    ensures a * c <= b * c
  {
  }

  lemma U64Product(a: u64, b: u64)
    ensures a * b < U128
  {
    MulMonotone(a, U64, b);
    assert U64 * b <= U64 * (U64 - 1);
  }
}
