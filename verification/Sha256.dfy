/** The contract's own SHA-256 (contracts/bridge/src/lib.rs, `simple_sha256`): a padding loop, an
    in-place schedule, sixty-four rounds and a fold over the blocks, proved equal to the standard. */
module Sha256 {
  import opened Core
  import opened Bytes
  import opened Sha256Spec

  // ---- Padding ----

  function ZeroBytes(k: nat): (r: Bytes)
    ensures |r| == k
  {
    seq(k, _ => 0)
  }

  /** Bytes of zero fill after a message of `n` bytes and its 0x80 mark. */
  function Fill(n: nat): (z: nat)
    ensures z < 64 && (n + 1 + z) % 64 == 56
  {
    (55 - n) % 64
  }

  function BitLength(n: nat): u64 { 8 * n % U64 }

  /** What the padding loop makes of the data; the bit length is cut to 64 bits. */
  function Padded(data: Bytes): (r: Bytes)
    ensures |r| == |data| + 1 + Fill(|data|) + 8
  {
    data + [0x80] + ZeroBytes(Fill(|data|)) + ToBe(BitLength(|data|), 8)
  }

  /** The padded message is a whole number of blocks. */
  lemma WholeBlocks(data: Bytes)
    ensures |Padded(data)| % 64 == 0
  {
    hide Padded;
    var n := |data| + 1 + Fill(|data|);
    assert n % 64 == 56 && |Padded(data)| == n + 8;
    hide *;
    EightMore(n);
  }

  lemma EightMore(n: nat)
    requires n % 64 == 56
    ensures (n + 8) % 64 == 0
  {
  }

  method Pad(data: Bytes) returns (padded: Bytes)
    ensures padded == Padded(data) && |padded| % 64 == 0
  {
    hide ToBe;
    var bitLength := BitLength(|data|);
    padded := data + [0x80];
    ghost var pushed := 0;
    while |padded| % 64 != 56
      invariant pushed <= Fill(|data|) && padded == data + [0x80] + ZeroBytes(pushed)
      decreases Fill(|data|) - pushed
    {
      PushesLeft(|data|, pushed);
      padded := padded + [0];
      pushed := pushed + 1;
      assert ZeroBytes(pushed) == ZeroBytes(pushed - 1) + [0];
    }
    PushesLeft(|data|, pushed);
    padded := padded + ToBe(bitLength, 8);
    WholeBlocks(data);
  }

  /** The loop stops exactly when the fill is complete. */
  lemma PushesLeft(n: nat, pushed: nat)
    requires pushed <= Fill(n)
    ensures (n + 1 + pushed) % 64 == 56 <==> pushed == Fill(n)
  {
    var z := Fill(n);
    if (n + 1 + pushed) % 64 == 56 {
      assert (z - pushed) % 64 == 0;
    }
  }

  lemma {:induction false} BitsConcat(a: Bytes, b: Bytes)
    ensures Bits(a + b) == Bits(a) + Bits(b)
  {
    if b == [] {
      assert a + b == a;
    } else {
      var n := |b| - 1;
      assert (a + b)[..|a| + n] == a + b[..n];
      BitsConcat(a, b[..n]);
    }
  }

  lemma {:induction false} BinZero(k: nat)
    ensures Bin(0, k) == Zeros(k)
  {
    if k > 0 { BinZero(k - 1); }
  }

  lemma {:induction false} BitsOfZeros(k: nat)
    ensures Bits(ZeroBytes(k)) == Zeros(8 * k)
  {
    if k > 0 {
      BitsOfZeros(k - 1);
      assert ZeroBytes(k)[..k - 1] == ZeroBytes(k - 1);
      BinZero(8);
    }
  }

  lemma BinLast(n: nat, k: nat)
    requires k > 0
    ensures Bin(n, k) == Bin(n / 2, k - 1) + [(n % 2) as bit]
  {
  }

  /** A byte holds the last eight bits. */
  lemma BinByte(n: nat, k: nat)
    ensures Bin(n, k + 8) == Bin(n / 256, k) + Bin(n % 256, 8)
  {
    hide Bin;
    var q, m := n / 256, n % 256;
    BinPeel(q, m, k, 8, 256, 128);
    BinPeel(q, m / 2, k, 7, 128, 64);
    BinPeel(q, m / 4, k, 6, 64, 32);
    BinPeel(q, m / 8, k, 5, 32, 16);
    BinPeel(q, m / 16, k, 4, 16, 8);
    BinPeel(q, m / 32, k, 3, 8, 4);
    BinPeel(q, m / 64, k, 2, 4, 2);
    BinPeel(q, m / 128, k, 1, 2, 1);
    BinNone(m / 256);
    assert m / 256 == 0;
    assert Bin(q, k) + [] == Bin(q, k);
  }

  lemma BinNone(n: nat)
    ensures Bin(n, 0) == []
  {
  }

  /** Both sides of the split lose the same last bit. */
  lemma BinPeel(q: nat, m: nat, k: nat, j: nat, p: nat, half: nat)
    requires j > 0 && p == 2 * half && p <= 256 && 0 < half
    ensures Bin(p * q + m, k + j) == Bin(half * q + m / 2, k + j - 1) + [(m % 2) as bit]
    ensures Bin(m, j) == Bin(m / 2, j - 1) + [(m % 2) as bit]
  {
    hide Bin;
    Halve(half * q, m);
    assert p * q == 2 * (half * q);
    BinLast(p * q + m, k + j);
    BinLast(m, j);
  }

  lemma Halve(x: nat, m: nat)
    ensures (2 * x + m) / 2 == x + m / 2 && (2 * x + m) % 2 == m % 2
  {
  }

  lemma {:induction false} BitsOfNumber(n: nat, k: nat)
    ensures Bits(ToBe(n, k)) == Bin(n, 8 * k)
  {
    if k > 0 {
      BitsOfNumber(n / 256, k - 1);
      assert ToBe(n, k)[..k - 1] == ToBe(n / 256, k - 1);
      BinByte(n, 8 * (k - 1));
    }
  }

  lemma MarkBits()
    ensures Bits([0x80]) == [1] + Zeros(7)
  {
    assert [0x80 as byte][..0] == [];
    assert Bits([0x80]) == Bits([]) + Bin(128, 8);
    hide Bin, Bits;
    BinNone(0);
    BinLast(128, 8);
    BinLast(64, 7);
    BinLast(32, 6);
    BinLast(16, 5);
    BinLast(8, 4);
    BinLast(4, 3);
    BinLast(2, 2);
    BinLast(1, 1);
  }

  /** The padded bytes are the bits that section 5.1.1 asks for, for messages below 2^64 bits. */
  lemma PaddingIsStandard(data: Bytes)
    requires 8 * |data| < U64
    ensures Bits(Padded(data)) == PaddedBits(Bits(data))
  {
    hide *;
    var z := Fill(|data|);
    var mark: Bytes := [0x80];
    PaddedIs(data);
    BitLengthIs(|data|);
    BitsConcat(data + mark + ZeroBytes(z), ToBe(8 * |data|, 8));
    BitsConcat(data + mark, ZeroBytes(z));
    BitsConcat(data, mark);
    MarkBits();
    BitsOfZeros(z);
    BitsOfNumber(8 * |data|, 8);
    FillBits(|data|);
    ZerosConcat(7, 8 * z);
    PaddedBitsAre(Bits(data), z);
  }

  lemma BitLengthIs(n: nat)
    requires 8 * n < U64
    ensures BitLength(n) == 8 * n
  {
  }

  lemma PaddedIs(data: Bytes)
    ensures Padded(data) == data + [0x80] + ZeroBytes(Fill(|data|)) + ToBe(BitLength(|data|), 8)
  {
    hide ToBe, Fill, ZeroBytes, BitLength;
  }

  lemma PaddedBitsAre(m: seq<bit>, z: nat)
    requires ZeroBits(|m|) == 7 + 8 * z
    requires Zeros(7) + Zeros(8 * z) == Zeros(7 + 8 * z)
    ensures m + ([1] + Zeros(7)) + Zeros(8 * z) + Bin(|m|, 64) == PaddedBits(m)
  {
    hide Zeros, Bin, ZeroBits;
    Regroup(m, [1], Zeros(7), Zeros(8 * z));
  }

  lemma Regroup<T>(a: seq<T>, b: seq<T>, c: seq<T>, d: seq<T>)
    ensures a + (b + c) + d == a + b + (c + d)
  {
  }

  lemma ZerosConcat(i: nat, j: nat)
    ensures Zeros(i) + Zeros(j) == Zeros(i + j)
  {
  }

  lemma FillBits(n: nat)
    ensures ZeroBits(8 * n) == 7 + 8 * Fill(n)
  {
    var z, k := Fill(n), ZeroBits(8 * n);
    assert (8 * n + 1 + (7 + 8 * z)) % 512 == 448;
    assert (k - (7 + 8 * z)) % 512 == 0;
  }

  /** Different messages stay different when padded. */
  lemma PaddingInjective(a: Bytes, b: Bytes)
    requires 8 * |a| < U64 && 8 * |b| < U64 && Padded(a) == Padded(b)
    ensures a == b
  {
    hide *;
    PaddedParts(a);
    PaddedParts(b);
    WidthsAre();
    BeInjective(8 * |a|, 8 * |b|, 8);
  }

  lemma PaddedParts(data: Bytes)
    requires 8 * |data| < U64
    ensures Padded(data)[|Padded(data)| - 8..] == ToBe(8 * |data|, 8)
    ensures Padded(data)[..|data|] == data
  {
    hide *;
    PaddedIs(data);
    BitLengthIs(|data|);
  }

  lemma {:induction false} BinInjective(m: nat, n: nat, k: nat)
    requires m < Pow2(k) && n < Pow2(k) && Bin(m, k) == Bin(n, k)
    ensures m == n
  {
    if k > 0 {
      var a, b := Bin(m, k), Bin(n, k);
      assert a[..k - 1] == Bin(m / 2, k - 1) && b[..k - 1] == Bin(n / 2, k - 1);
      assert a[k - 1] as nat == m % 2 && b[k - 1] as nat == n % 2;
      BinInjective(m / 2, n / 2, k - 1);
    }
  }

  /** Bytes are determined by their bits. */
  lemma {:induction false} BitsInjective(a: Bytes, b: Bytes)
    requires Bits(a) == Bits(b)
    ensures a == b
  {
    if a != [] {
      hide Bin;
      var n := |a| - 1;
      assert |a| == |b|;
      assert Bits(a)[..8 * n] == Bits(a[..n]) && Bits(b)[..8 * n] == Bits(b[..n]);
      assert Bits(a)[8 * n..] == Bin(a[n] as nat, 8) && Bits(b)[8 * n..] == Bin(b[n] as nat, 8);
      BitsInjective(a[..n], b[..n]);
      assert Pow2(8) == 256;
      BinInjective(a[n] as nat, b[n] as nat, 8);
      assert a == a[..n] + [a[n]] && b == b[..n] + [b[n]];
    }
  }

  // ---- One block ----

  function Mix0(n: u32): u32 {
    var x := n as bv32;
    FromBits(x.RotateRight(7) ^ x.RotateRight(18) ^ (x >> 3))
  }

  function Mix1(n: u32): u32 {
    var x := n as bv32;
    FromBits(x.RotateRight(17) ^ x.RotateRight(19) ^ (x >> 10))
  }

  function Turn1(n: u32): u32 {
    var x := n as bv32;
    FromBits(x.RotateRight(6) ^ x.RotateRight(11) ^ x.RotateRight(25))
  }

  function Turn0(n: u32): u32 {
    var x := n as bv32;
    FromBits(x.RotateRight(2) ^ x.RotateRight(13) ^ x.RotateRight(22))
  }

  /** Rotations of the machine are the shift-and-or of the standard. */
  lemma RotationsAre(x: u32)
    ensures Mix0(x) == SmallSigma0(x) && Mix1(x) == SmallSigma1(x)
    ensures Turn1(x) == BigSigma1(x) && Turn0(x) == BigSigma0(x)
  {
  }

  lemma SumOrder(a: u32, b: u32, c: u32, d: u32)
    ensures Plus(Plus(Plus(a, b), c), d) == Plus(Plus(Plus(d, c), b), a)
  {
  }

  lemma ScheduleStep(chunk: Bytes, t: nat)
    requires |chunk| == 64 && 16 <= t < 64
    ensures Schedule(chunk, t) == Plus(Plus(Plus(Schedule(chunk, t - 16), Mix0(Schedule(chunk, t - 15))),
                                            Schedule(chunk, t - 7)), Mix1(Schedule(chunk, t - 2)))
  {
    hide *;
    ScheduleUnfold(chunk, t);
    RotationsAre(Schedule(chunk, t - 15));
    RotationsAre(Schedule(chunk, t - 2));
    SumOrder(SmallSigma1(Schedule(chunk, t - 2)), Schedule(chunk, t - 7),
             SmallSigma0(Schedule(chunk, t - 15)), Schedule(chunk, t - 16));
  }

  lemma ScheduleUnfold(chunk: Bytes, t: nat)
    requires |chunk| == 64 && 16 <= t < 64
    ensures Schedule(chunk, t) ==
            Plus(Plus(Plus(SmallSigma1(Schedule(chunk, t - 2)), Schedule(chunk, t - 7)),
                      SmallSigma0(Schedule(chunk, t - 15))), Schedule(chunk, t - 16))
  {
    hide SmallSigma0, SmallSigma1, BeWord, Plus;
  }

  lemma ScheduleStart(chunk: Bytes, t: nat)
    requires |chunk| == 64 && t < 16
    ensures Schedule(chunk, t) == BeWord(chunk[4 * t], chunk[4 * t + 1], chunk[4 * t + 2], chunk[4 * t + 3])
  {
    hide BeWord;
  }

  method FillSchedule(chunk: Bytes) returns (w: array<u32>)
    requires |chunk| == 64
    ensures fresh(w) && w.Length == 64
    ensures forall t :: 0 <= t < 64 ==> w[t] == Schedule(chunk, t)
  {
    hide *;
    w := new u32[64];
    for i := 0 to 16
      invariant forall t :: 0 <= t < i ==> w[t] == Schedule(chunk, t)
    {
      ScheduleStart(chunk, i);
      w[i] := BeWord(chunk[i * 4], chunk[i * 4 + 1], chunk[i * 4 + 2], chunk[i * 4 + 3]);
    }
    for i := 16 to 64
      invariant forall t :: 0 <= t < i ==> w[t] == Schedule(chunk, t)
    {
      ScheduleStep(chunk, i);
      var s0 := Mix0(w[i - 15]);
      var s1 := Mix1(w[i - 2]);
      w[i] := Plus(Plus(Plus(w[i - 16], s0), w[i - 7]), s1);
    }
  }

  lemma RoundStep(v: Words, k: u32, w: u32)
    ensures var temp1 := Plus(Plus(Plus(Plus(v.h, Turn1(v.e)), Ch(v.e, v.f, v.g)), k), w);
            var temp2 := Plus(Turn0(v.a), Maj(v.a, v.b, v.c));
            Round(v, k, w) == Words(Plus(temp1, temp2), v.a, v.b, v.c, Plus(v.d, temp1), v.e, v.f, v.g)
  {
    hide BigSigma0, BigSigma1, SmallSigma0, SmallSigma1, Mix0, Mix1, Turn0, Turn1, Plus, Ch, Maj;
    RotationsAre(v.e);
    RotationsAre(v.a);
  }

  lemma RoundsStep(v: Words, block: Bytes, t: nat)
    requires |block| == 64 && t < 64
    ensures Rounds(v, block, 0) == v
    ensures Rounds(v, block, t + 1) == Round(Rounds(v, block, t), Constant(t), Schedule(block, t))
  {
    hide Round, Constant, Schedule;
  }

  method RunRounds(v: Words, chunk: Bytes, w: array<u32>) returns (r: Words)
    requires |chunk| == 64 && w.Length == 64
    requires forall t :: 0 <= t < 64 ==> w[t] == Schedule(chunk, t)
    ensures r == Rounds(v, chunk, 64)
  {
    hide *;
    var a, b, c, d, e, f, g, hh := v.a, v.b, v.c, v.d, v.e, v.f, v.g, v.h;
    RoundsStep(v, chunk, 0);
    for i := 0 to 64
      invariant Words(a, b, c, d, e, f, g, hh) == Rounds(v, chunk, i)
    {
      RoundsStep(v, chunk, i);
      RoundStep(Rounds(v, chunk, i), Constant(i), w[i]);
      var s1 := Turn1(e);
      var ch := Ch(e, f, g);
      var temp1 := Plus(Plus(Plus(Plus(hh, s1), ch), Constant(i)), w[i]);
      var s0 := Turn0(a);
      var maj := Maj(a, b, c);
      var temp2 := Plus(s0, maj);
      hh := g;
      g := f;
      f := e;
      e := Plus(d, temp1);
      d := c;
      c := b;
      b := a;
      a := Plus(temp1, temp2);
    }
    r := Words(a, b, c, d, e, f, g, hh);
  }

  // ---- The whole message ----

  function Digest(data: Bytes): (r: Bytes)
    ensures |r| == 32
  {
    var m := Padded(data);
    Output(HashBlocks(m, |m| / 64))
  }

  method SimpleSha256(data: Bytes) returns (digest: Bytes)
    ensures digest == Digest(data)
  {
    hide Padded, Compress, Initial, ToBe;
    var padded := Pad(data);
    var h := Initial();
    for n := 0 to |padded| / 64
      invariant h == HashBlocks(padded, n)
    {
      var chunk := padded[64 * n..64 * (n + 1)];
      h := CompressBlock(h, chunk);
    }
    digest := Output(h);
  }

  method CompressBlock(h: Words, chunk: Bytes) returns (r: Words)
    requires |chunk| == 64
    ensures r == Compress(h, chunk)
  {
    hide Rounds, Schedule;
    var w := FillSchedule(chunk);
    var v := RunRounds(h, chunk, w);
    r := Add(h, v);
  }

  /** The digest is the standard's: the hash of the one byte string with the standard's padded bits. */
  lemma DigestIsStandard(data: Bytes, padded: Bytes)
    requires 8 * |data| < U64 && Bits(padded) == PaddedBits(Bits(data))
    ensures Digest(data) == Output(HashBlocks(padded, |padded| / 64))
  {
    hide Bits, PaddedBits, HashBlocks, Output, Padded;
    PaddingIsStandard(data);
    BitsInjective(padded, Padded(data));
  }
}
