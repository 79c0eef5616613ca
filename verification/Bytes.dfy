/** Fixed-width little-endian numbers as byte strings. */
module Bytes {
  import opened Core

  type Bytes = seq<byte>

  function Pow256(k: nat): (p: nat)
    ensures p > 0
  {
    if k == 0 then 1 else 256 * Pow256(k - 1)
  }

  /** The low `k` bytes of `n`, least significant first. */
  function ToLe(n: nat, k: nat): (r: Bytes)
    ensures |r| == k
  {
    if k == 0 then [] else [(n % 256) as byte] + ToLe(n / 256, k - 1)
  }

  function FromLe(s: Bytes): (n: nat)
    ensures n < Pow256(|s|)
  {
    if s == [] then 0 else s[0] as nat + 256 * FromLe(s[1..])
  }

  lemma {:induction false} LeRoundTrip(n: nat, k: nat)
    requires n < Pow256(k)
    ensures FromLe(ToLe(n, k)) == n
  {
    if k > 0 {
      LeRoundTrip(n / 256, k - 1);
      assert ToLe(n, k)[1..] == ToLe(n / 256, k - 1);
    }
  }

  lemma {:induction false} LeRoundTripBack(s: Bytes)
    ensures ToLe(FromLe(s), |s|) == s
  {
    if s != [] {
      LeRoundTripBack(s[1..]);
      assert FromLe(s) / 256 == FromLe(s[1..]) && FromLe(s) % 256 == s[0] as nat;
      assert s == [s[0]] + s[1..];
    }
  }

  lemma WidthsAre()
    ensures Pow256(4) == U32 && Pow256(8) == U64 && Pow256(16) == U128
  {
    assert Pow256(4) == 256 * 256 * 256 * 256;
    assert Pow256(8) == 256 * 256 * 256 * 256 * Pow256(4);
    assert Pow256(12) == 256 * 256 * 256 * 256 * Pow256(8);
    assert Pow256(16) == 256 * 256 * 256 * 256 * Pow256(12);
  }

  /** The low `k` bytes of `n`, most significant first. */
  function ToBe(n: nat, k: nat): (r: Bytes)
    ensures |r| == k
  {
    if k == 0 then [] else ToBe(n / 256, k - 1) + [(n % 256) as byte]
  }

  lemma {:induction false} BeInjective(m: nat, n: nat, k: nat)
    requires m < Pow256(k) && n < Pow256(k) && ToBe(m, k) == ToBe(n, k)
    ensures m == n
  {
    if k > 0 {
      var a, b := ToBe(m, k), ToBe(n, k);
      assert a[..k - 1] == ToBe(m / 256, k - 1) && b[..k - 1] == ToBe(n / 256, k - 1);
      assert a[k - 1] as nat == m % 256 && b[k - 1] as nat == n % 256;
      BeInjective(m / 256, n / 256, k - 1);
    }
  }
}
