/** Length-prefixed hashing (crates/crypto/src/hash.rs): the framing is uniquely decodable, so two
    pairs with one digest are a collision of the underlying hash function. */
module Framing {
  import opened Core
  import opened Bytes

  type Hasher<!D> = Bytes -> D

  /** Each item preceded by its length as a little-endian u64. */
  function Framed(item: Bytes): Bytes { ToLe(AsU64(|item|), 8) + item }

  function AsU64(n: nat): u64 { n % U64 }

  lemma AsU64Is(n: nat)
    requires n < U64
    ensures AsU64(n) == n
  {
  }

  function Frame(items: seq<Bytes>): Bytes {
    if items == [] then [] else Framed(items[0]) + Frame(items[1..])
  }

  method HashMultiple<D>(H: Hasher<D>, items: seq<Bytes>) returns (d: D)
    ensures d == H(Frame(items))
  {
    hide ToLe, AsU64;
    var fed: Bytes := [];
    for i := 0 to |items|
      invariant Frame(items) == fed + Frame(items[i..])
    {
      var item := items[i];
      assert items[i..][1..] == items[i + 1..];
      fed := fed + ToLe(AsU64(|item|), 8);
      fed := fed + item;
    }
    assert fed == Frame(items);
    d := H(fed);
  }

  predicate Framable(items: seq<Bytes>) { forall i :: 0 <= i < |items| ==> |items[i]| < U64 }

  lemma FramedParts(x: Bytes, r: Bytes)
    requires |x| < U64
    ensures var s := Framed(x) + r;
            |s| >= 8 && FromLe(s[..8]) == |x| && |s| >= 8 + |x| && s[8..8 + |x|] == x && s[8 + |x|..] == r
  {
    hide FromLe, ToLe, AsU64;
    AsU64Is(|x|);
    WidthsAre();
    LeRoundTrip(|x|, 8);
    assert (ToLe(|x|, 8) + x + r)[..8] == ToLe(|x|, 8);
  }

  /** The framing is uniquely decodable. */
  lemma {:induction false} FrameInjective(a: seq<Bytes>, b: seq<Bytes>)
    requires Framable(a) && Framable(b) && Frame(a) == Frame(b)
    ensures a == b
  {
    hide FromLe, Framed;
    if a != [] { FramedParts(a[0], Frame(a[1..])); }
    if b != [] { FramedParts(b[0], Frame(b[1..])); }
    if a != [] && b != [] {
      FrameInjective(a[1..], b[1..]);
      assert a == [a[0]] + a[1..] && b == [b[0]] + b[1..];
    }
  }

  /** Two different inputs with one digest. */
  predicate Collision<D(==)>(H: Hasher<D>, x: Bytes, y: Bytes) { x != y && H(x) == H(y) }

  /** Different item lists with one digest are a collision. */
  lemma FrameBinding<D>(H: Hasher<D>, a: seq<Bytes>, b: seq<Bytes>)
    requires Framable(a) && Framable(b) && a != b && H(Frame(a)) == H(Frame(b))
    ensures Collision(H, Frame(a), Frame(b))
  {
    if Frame(a) == Frame(b) { FrameInjective(a, b); }
  }
}

/** The two together: digests of 32 bytes, pairs hashed through the framing. */
module MerkleOverBytes {
  import opened Bytes
  import opened Framing
  import Merkle

  type Digest = s: Bytes | |s| == 32 witness ToLe(0, 32)

  function PairOf(H: Hasher<Digest>): Merkle.PairHash<Digest> {
    (a: Digest, b: Digest) => H(Frame([a, b]))
  }

  lemma ClashCollides(H: Hasher<Digest>, c: Merkle.Clash<Digest>)
    requires c.Valid(PairOf(H))
    ensures Collision(H, Frame([c.a.0, c.a.1]), Frame([c.b.0, c.b.1]))
  {
    var a: seq<Bytes>, b: seq<Bytes> := [c.a.0, c.a.1], [c.b.0, c.b.1];
    assert a[0] == c.a.0 && a[1] == c.a.1 && b[0] == c.b.0 && b[1] == c.b.1;
    FrameBinding(H, a, b);
  }

  function Leaves(H: Hasher<Digest>, items: seq<Bytes>): (r: seq<Digest>)
    ensures |r| == |items|
    ensures forall i :: 0 <= i < |items| ==> r[i] == H(items[i])
  {
    seq(|items|, i requires 0 <= i < |items| => H(items[i]))
  }

  method ComputeMerkleRoot(H: Hasher<Digest>, items: seq<Bytes>) returns (root: Digest)
    ensures root == if items == [] then ToLe(0, 32) else Merkle.Root(PairOf(H), Leaves(H, items))
  {
    var zero: Digest := ToLe(0, 32);
    var t := Merkle.NewTree(PairOf(H), zero, Leaves(H, items));
    Merkle.RootNodeIs(PairOf(H), zero, Leaves(H, items));
    root := Merkle.RootNode(zero, t);
  }

  /** Equally many raw items with one root are the same items, or the hash function collides. */
  lemma ItemsBinding(H: Hasher<Digest>, a: seq<Bytes>, b: seq<Bytes>) returns (x: Bytes, y: Bytes)
    requires |a| == |b| > 0 && a != b
    requires Merkle.Root(PairOf(H), Leaves(H, a)) == Merkle.Root(PairOf(H), Leaves(H, b))
    ensures Collision(H, x, y)
  {
    if Leaves(H, a) == Leaves(H, b) {
      var i :| 0 <= i < |a| && a[i] != b[i];
      assert Leaves(H, a)[i] == Leaves(H, b)[i];
      x, y := a[i], b[i];
    } else {
      var c := Merkle.RootBinding(PairOf(H), Leaves(H, a), Leaves(H, b));
      ClashCollides(H, c);
      x, y := Frame([c.a.0, c.a.1]), Frame([c.b.0, c.b.1]);
    }
  }
}
