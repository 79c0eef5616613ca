/** SHA-256 as section 5.1.1, section 4.2.2 and section 6.2.2 of FIPS 180-4 define it. */
module Sha256Spec {
  import opened Core
  import opened Bytes

  // ---- Functions on words ----

  function FromBits(x: bv32): u32 { x as nat }

  function BigSigma0(n: u32): u32 {
    var x := n as bv32;
    FromBits(((x >> 2) | (x << 30)) ^ ((x >> 13) | (x << 19)) ^ ((x >> 22) | (x << 10)))
  }

  function BigSigma1(n: u32): u32 {
    var x := n as bv32;
    FromBits(((x >> 6) | (x << 26)) ^ ((x >> 11) | (x << 21)) ^ ((x >> 25) | (x << 7)))
  }

  function SmallSigma0(n: u32): u32 {
    var x := n as bv32;
    FromBits(((x >> 7) | (x << 25)) ^ ((x >> 18) | (x << 14)) ^ (x >> 3))
  }

  function SmallSigma1(n: u32): u32 {
    var x := n as bv32;
    FromBits(((x >> 17) | (x << 15)) ^ ((x >> 19) | (x << 13)) ^ (x >> 10))
  }

  function Ch(x: u32, y: u32, z: u32): u32 {
    var (a, b, c) := (x as bv32, y as bv32, z as bv32);
    FromBits((a & b) ^ (!a & c))
  }

  function Maj(x: u32, y: u32, z: u32): u32 {
    var (a, b, c) := (x as bv32, y as bv32, z as bv32);
    FromBits((a & b) ^ (a & c) ^ (b & c))
  }

  /** Addition modulo 2^32. */
  function Plus(x: u32, y: u32): u32 { if x + y < U32 then x + y else x + y - U32 }

  // ---- Constants ----

  function Prime(t: nat): (k: nat) {
    match t
    case 0 => 2 case 1 => 3 case 2 => 5 case 3 => 7 case 4 => 11 case 5 => 13 case 6 => 17 case 7 => 19
    case 8 => 23 case 9 => 29 case 10 => 31 case 11 => 37 case 12 => 41 case 13 => 43 case 14 => 47 case 15 => 53
    case 16 => 59 case 17 => 61 case 18 => 67 case 19 => 71 case 20 => 73 case 21 => 79 case 22 => 83 case 23 => 89
    case 24 => 97 case 25 => 101 case 26 => 103 case 27 => 107
    case 28 => 109 case 29 => 113 case 30 => 127 case 31 => 131
    case 32 => 137 case 33 => 139 case 34 => 149 case 35 => 151
    case 36 => 157 case 37 => 163 case 38 => 167 case 39 => 173
    case 40 => 179 case 41 => 181 case 42 => 191 case 43 => 193
    case 44 => 197 case 45 => 199 case 46 => 211 case 47 => 223
    case 48 => 227 case 49 => 229 case 50 => 233 case 51 => 239
    case 52 => 241 case 53 => 251 case 54 => 257 case 55 => 263
    case 56 => 269 case 57 => 271 case 58 => 277 case 59 => 281
    case 60 => 283 case 61 => 293 case 62 => 307 case _ => 311
  }

  function RoundConstant(t: nat): (k: nat) {
    match t
    case 0 => 0x428a2f98 case 1 => 0x71374491 case 2 => 0xb5c0fbcf case 3 => 0xe9b5dba5
    case 4 => 0x3956c25b case 5 => 0x59f111f1 case 6 => 0x923f82a4 case 7 => 0xab1c5ed5
    case 8 => 0xd807aa98 case 9 => 0x12835b01 case 10 => 0x243185be case 11 => 0x550c7dc3
    case 12 => 0x72be5d74 case 13 => 0x80deb1fe case 14 => 0x9bdc06a7 case 15 => 0xc19bf174
    case 16 => 0xe49b69c1 case 17 => 0xefbe4786 case 18 => 0x0fc19dc6 case 19 => 0x240ca1cc
    case 20 => 0x2de92c6f case 21 => 0x4a7484aa case 22 => 0x5cb0a9dc case 23 => 0x76f988da
    case 24 => 0x983e5152 case 25 => 0xa831c66d case 26 => 0xb00327c8 case 27 => 0xbf597fc7
    case 28 => 0xc6e00bf3 case 29 => 0xd5a79147 case 30 => 0x06ca6351 case 31 => 0x14292967
    case 32 => 0x27b70a85 case 33 => 0x2e1b2138 case 34 => 0x4d2c6dfc case 35 => 0x53380d13
    case 36 => 0x650a7354 case 37 => 0x766a0abb case 38 => 0x81c2c92e case 39 => 0x92722c85
    case 40 => 0xa2bfe8a1 case 41 => 0xa81a664b case 42 => 0xc24b8b70 case 43 => 0xc76c51a3
    case 44 => 0xd192e819 case 45 => 0xd6990624 case 46 => 0xf40e3585 case 47 => 0x106aa070
    case 48 => 0x19a4c116 case 49 => 0x1e376c08 case 50 => 0x2748774c case 51 => 0x34b0bcb5
    case 52 => 0x391c0cb3 case 53 => 0x4ed8aa4a case 54 => 0x5b9cca4f case 55 => 0x682e6ff3
    case 56 => 0x748f82ee case 57 => 0x78a5636f case 58 => 0x84c87814 case 59 => 0x8cc70208
    case 60 => 0x90befffa case 61 => 0xa4506ceb case 62 => 0xbef9a3f7 case _ => 0xc67178f2
  }

  function InitialWord(t: nat): (k: nat) {
    match t
    case 0 => 0x6a09e667 case 1 => 0xbb67ae85 case 2 => 0x3c6ef372 case 3 => 0xa54ff53a
    case 4 => 0x510e527f case 5 => 0x9b05688c case 6 => 0x1f83d9ab case _ => 0x5be0cd19
  }

  /** `k` is the first 32 bits of the fractional part of the cube root of `p`, with integer part `c`. */
  predicate CubeRootBits(k: nat, p: nat, c: nat) {
    var low, high := c * U32 + k, c * U32 + k + 1;
    k < U32 && low * low * low <= p * (U32 * U32 * U32) < high * high * high
  }

  /** The same for the square root. */
  predicate SquareRootBits(k: nat, p: nat, c: nat) {
    var low, high := c * U32 + k, c * U32 + k + 1;
    k < U32 && low * low <= p * (U32 * U32) < high * high
  }

  function CubeRootFloor(p: nat): nat {
    if p < 8 then 1 else if p < 27 then 2 else if p < 64 then 3 else if p < 125 then 4 else if p < 216 then 5 else 6
  }

  function SquareRootFloor(p: nat): nat { if p < 4 then 1 else if p < 9 then 2 else if p < 16 then 3 else 4 }

  predicate RoundConstantAt(t: nat)
    requires t < 64
  {
    CubeRootBits(RoundConstant(t), Prime(t), CubeRootFloor(Prime(t)))
  }

  lemma RoundConstantRow0()
    ensures forall t :: 0 <= t < 8 ==> RoundConstantAt(t)
  {
    assert CubeRootBits(0x428a2f98, 2, 1) && CubeRootBits(0x71374491, 3, 1);
    assert CubeRootBits(0xb5c0fbcf, 5, 1) && CubeRootBits(0xe9b5dba5, 7, 1);
    assert CubeRootBits(0x3956c25b, 11, 2) && CubeRootBits(0x59f111f1, 13, 2);
    assert CubeRootBits(0x923f82a4, 17, 2) && CubeRootBits(0xab1c5ed5, 19, 2);
  }

  lemma RoundConstantRow1()
    ensures forall t :: 8 <= t < 16 ==> RoundConstantAt(t)
  {
    assert CubeRootBits(0xd807aa98, 23, 2) && CubeRootBits(0x12835b01, 29, 3);
    assert CubeRootBits(0x243185be, 31, 3) && CubeRootBits(0x550c7dc3, 37, 3);
    assert CubeRootBits(0x72be5d74, 41, 3) && CubeRootBits(0x80deb1fe, 43, 3);
    assert CubeRootBits(0x9bdc06a7, 47, 3) && CubeRootBits(0xc19bf174, 53, 3);
  }

  lemma RoundConstantRow2()
    ensures forall t :: 16 <= t < 24 ==> RoundConstantAt(t)
  {
    assert CubeRootBits(0xe49b69c1, 59, 3) && CubeRootBits(0xefbe4786, 61, 3);
    assert CubeRootBits(0x0fc19dc6, 67, 4) && CubeRootBits(0x240ca1cc, 71, 4);
    assert CubeRootBits(0x2de92c6f, 73, 4) && CubeRootBits(0x4a7484aa, 79, 4);
    assert CubeRootBits(0x5cb0a9dc, 83, 4) && CubeRootBits(0x76f988da, 89, 4);
  }

  lemma RoundConstantRow3()
    ensures forall t :: 24 <= t < 32 ==> RoundConstantAt(t)
  {
    assert CubeRootBits(0x983e5152, 97, 4) && CubeRootBits(0xa831c66d, 101, 4);
    assert CubeRootBits(0xb00327c8, 103, 4) && CubeRootBits(0xbf597fc7, 107, 4);
    assert CubeRootBits(0xc6e00bf3, 109, 4) && CubeRootBits(0xd5a79147, 113, 4);
    assert CubeRootBits(0x06ca6351, 127, 5) && CubeRootBits(0x14292967, 131, 5);
  }

  lemma RoundConstantRow4()
    ensures forall t :: 32 <= t < 40 ==> RoundConstantAt(t)
  {
    assert CubeRootBits(0x27b70a85, 137, 5) && CubeRootBits(0x2e1b2138, 139, 5);
    assert CubeRootBits(0x4d2c6dfc, 149, 5) && CubeRootBits(0x53380d13, 151, 5);
    assert CubeRootBits(0x650a7354, 157, 5) && CubeRootBits(0x766a0abb, 163, 5);
    assert CubeRootBits(0x81c2c92e, 167, 5) && CubeRootBits(0x92722c85, 173, 5);
  }

  lemma RoundConstantRow5()
    ensures forall t :: 40 <= t < 48 ==> RoundConstantAt(t)
  {
    assert CubeRootBits(0xa2bfe8a1, 179, 5) && CubeRootBits(0xa81a664b, 181, 5);
    assert CubeRootBits(0xc24b8b70, 191, 5) && CubeRootBits(0xc76c51a3, 193, 5);
    assert CubeRootBits(0xd192e819, 197, 5) && CubeRootBits(0xd6990624, 199, 5);
    assert CubeRootBits(0xf40e3585, 211, 5) && CubeRootBits(0x106aa070, 223, 6);
  }

  lemma RoundConstantRow6()
    ensures forall t :: 48 <= t < 56 ==> RoundConstantAt(t)
  {
    assert CubeRootBits(0x19a4c116, 227, 6) && CubeRootBits(0x1e376c08, 229, 6);
    assert CubeRootBits(0x2748774c, 233, 6) && CubeRootBits(0x34b0bcb5, 239, 6);
    assert CubeRootBits(0x391c0cb3, 241, 6) && CubeRootBits(0x4ed8aa4a, 251, 6);
    assert CubeRootBits(0x5b9cca4f, 257, 6) && CubeRootBits(0x682e6ff3, 263, 6);
  }

  lemma RoundConstantRow7()
    ensures forall t :: 56 <= t < 64 ==> RoundConstantAt(t)
  {
    assert CubeRootBits(0x748f82ee, 269, 6) && CubeRootBits(0x78a5636f, 271, 6);
    assert CubeRootBits(0x84c87814, 277, 6) && CubeRootBits(0x8cc70208, 281, 6);
    assert CubeRootBits(0x90befffa, 283, 6) && CubeRootBits(0xa4506ceb, 293, 6);
    assert CubeRootBits(0xbef9a3f7, 307, 6) && CubeRootBits(0xc67178f2, 311, 6);
  }

  lemma RoundConstantsAre()
    ensures forall t :: 0 <= t < 64 ==> RoundConstantAt(t)
  {
    hide *;
    RoundConstantRow0();
    RoundConstantRow1();
    RoundConstantRow2();
    RoundConstantRow3();
    RoundConstantRow4();
    RoundConstantRow5();
    RoundConstantRow6();
    RoundConstantRow7();
  }

  predicate InitialWordAt(t: nat)
    requires t < 8
  {
    SquareRootBits(InitialWord(t), Prime(t), SquareRootFloor(Prime(t)))
  }

  lemma InitialWordsAre()
    ensures forall t :: 0 <= t < 8 ==> InitialWordAt(t)
  {
    assert InitialWordAt(0) && InitialWordAt(1) && InitialWordAt(2) && InitialWordAt(3)
           && InitialWordAt(4) && InitialWordAt(5) && InitialWordAt(6) && InitialWordAt(7);
  }

  // ---- Padding, on bit strings ----

  newtype bit = x: int | 0 <= x < 2

  /** The low `k` bits of `n`, most significant first. */
  function Bin(n: nat, k: nat): (r: seq<bit>)
    ensures |r| == k
  {
    if k == 0 then [] else Bin(n / 2, k - 1) + [(n % 2) as bit]
  }

  function Bits(s: Bytes): (r: seq<bit>)
    ensures |r| == 8 * |s|
  {
    if s == [] then [] else Bits(s[..|s| - 1]) + Bin(s[|s| - 1] as nat, 8)
  }

  function Zeros(k: nat): (r: seq<bit>)
    ensures |r| == k
  {
    seq(k, _ => 0)
  }

  /** The smallest solution `k` (two of them differ by a multiple of 512) of `l + 1 + k = 448 mod 512`. */
  function ZeroBits(l: nat): (k: nat)
    ensures (l + 1 + k) % 512 == 448
    ensures k < 512
  {
    (447 - l) % 512
  }

  function PaddedBits(m: seq<bit>): seq<bit> {
    m + [1] + Zeros(ZeroBits(|m|)) + Bin(|m|, 64)
  }

  // ---- Compression ----

  datatype Words = Words(a: u32, b: u32, c: u32, d: u32, e: u32, f: u32, g: u32, h: u32)

  function Add(x: Words, y: Words): Words {
    Words(Plus(x.a, y.a), Plus(x.b, y.b), Plus(x.c, y.c), Plus(x.d, y.d),
          Plus(x.e, y.e), Plus(x.f, y.f), Plus(x.g, y.g), Plus(x.h, y.h))
  }

  function Initial(): Words {
    Words(InitialWord(0), InitialWord(1), InitialWord(2), InitialWord(3),
          InitialWord(4), InitialWord(5), InitialWord(6), InitialWord(7))
  }

  function BeWord(a: byte, b: byte, c: byte, d: byte): u32 {
    (a as nat * 0x1000000 + b as nat * 0x10000 + c as nat * 0x100 + d as nat)
  }

  /** Word `t` of the message schedule of a block. */
  function Schedule(block: Bytes, t: nat): u32
    requires |block| == 64 && t < 64
  {
    if t < 16 then BeWord(block[4 * t], block[4 * t + 1], block[4 * t + 2], block[4 * t + 3])
    else Plus(Plus(Plus(SmallSigma1(Schedule(block, t - 2)), Schedule(block, t - 7)),
                   SmallSigma0(Schedule(block, t - 15))), Schedule(block, t - 16))
  }

  function Round(v: Words, k: u32, w: u32): Words {
    var t1 := Plus(Plus(Plus(Plus(v.h, BigSigma1(v.e)), Ch(v.e, v.f, v.g)), k), w);
    var t2 := Plus(BigSigma0(v.a), Maj(v.a, v.b, v.c));
    Words(Plus(t1, t2), v.a, v.b, v.c, Plus(v.d, t1), v.e, v.f, v.g)
  }

  function Constant(t: nat): u32
    requires t < 64
  {
    assert RoundConstantAt(t) by { RoundConstantsAre(); }
    RoundConstant(t)
  }

  /** The working variables after the first `t` rounds. */
  function Rounds(v: Words, block: Bytes, t: nat): Words
    requires |block| == 64 && t <= 64
  {
    if t == 0 then v else Round(Rounds(v, block, t - 1), Constant(t - 1), Schedule(block, t - 1))
  }

  function Compress(h: Words, block: Bytes): Words
    requires |block| == 64
  {
    Add(h, Rounds(h, block, 64))
  }

  /** The hash value after the first `n` blocks of a padded message. */
  function HashBlocks(m: Bytes, n: nat): Words
    requires 64 * n <= |m|
  {
    if n == 0 then Initial() else Compress(HashBlocks(m, n - 1), m[64 * (n - 1)..64 * n])
  }

  function Output(h: Words): (r: Bytes)
    ensures |r| == 32
  {
    ToBe(h.a, 4) + ToBe(h.b, 4) + ToBe(h.c, 4) + ToBe(h.d, 4)
    + ToBe(h.e, 4) + ToBe(h.f, 4) + ToBe(h.g, 4) + ToBe(h.h, 4)
  }
}
