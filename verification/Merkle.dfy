/** The Merkle tree of crates/crypto/src/merkle.rs. The pair hash is a parameter and nothing is
    assumed about it: the binding results hand back two different pairs with one digest. */
module Merkle {
  import opened Core

  type PairHash<!D> = (D, D) -> D

  datatype Clash<D(==)> = Clash(a: (D, D), b: (D, D)) {
    /** Two different pairs with one digest. */
    predicate Valid(h: PairHash<D>) { a != b && h(a.0, a.1) == h(b.0, b.1) }
  }

  // ---- Layers ----

  /** Node `i` of the layer, or its last node: an odd layer ends with a copy of its last node. */
  function Node<D>(layer: seq<D>, i: nat): D
    requires layer != []
  {
    layer[Min(i, |layer| - 1)]
  }

  function Up<D>(h: PairHash<D>, layer: seq<D>): (r: seq<D>)
    ensures |r| == (|layer| + 1) / 2
    ensures forall i :: 0 <= i < |r| ==> r[i] == h(Node(layer, 2 * i), Node(layer, 2 * i + 1))
  {
    seq((|layer| + 1) / 2, i requires 0 <= i < (|layer| + 1) / 2 => h(Node(layer, 2 * i), Node(layer, 2 * i + 1)))
  }

  function Layers<D>(h: PairHash<D>, layer: seq<D>): (r: seq<seq<D>>)
    ensures |r| >= 1 && r[0] == layer
    decreases |layer|
  {
    if |layer| <= 1 then [layer] else [layer] + Layers(h, Up(h, layer))
  }

  function Root<D>(h: PairHash<D>, leaves: seq<D>): D
    requires leaves != []
    decreases |leaves|
  {
    if |leaves| == 1 then leaves[0] else Root(h, Up(h, leaves))
  }

  datatype Tree<D> = Tree(leaves: seq<D>, layers: seq<seq<D>>)

  /** What the builder makes of the leaves; `zero` stands for the root of no leaves. */
  function Built<D>(h: PairHash<D>, zero: D, leaves: seq<D>): Tree<D> {
    Tree(leaves, if leaves == [] then [[zero]] else Layers(h, leaves))
  }

  method NextLayer<D>(h: PairHash<D>, layer: seq<D>) returns (next: seq<D>)
    requires |layer| > 1
    ensures next == Up(h, layer)
  {
    var current := layer;
    if |current| % 2 != 0 {
      current := current + [current[|current| - 1]];
    }
    next := [];
    for i := 0 to |current| / 2
      invariant |next| == i
      invariant forall j :: 0 <= j < i ==> next[j] == h(current[2 * j], current[2 * j + 1])
    {
      next := next + [h(current[2 * i], current[2 * i + 1])];
    }
  }

  method NewTree<D>(h: PairHash<D>, zero: D, leaves: seq<D>) returns (t: Tree<D>)
    ensures t == Built(h, zero, leaves)
  {
    if leaves == [] {
      return Tree([], [[zero]]);
    }
    var done: seq<seq<D>> := [];
    var current := leaves;
    while |current| > 1
      invariant |current| >= 1 && Layers(h, leaves) == done + Layers(h, current)
      decreases |current|
    {
      done := done + [current];
      current := NextLayer(h, current);
    }
    t := Tree(leaves, done + [current]);
  }

  /** The first node of the last layer. */
  function RootNode<D>(zero: D, t: Tree<D>): D {
    if t.layers == [] || t.layers[|t.layers| - 1] == [] then zero else t.layers[|t.layers| - 1][0]
  }

  lemma {:induction false} LastLayer<D>(h: PairHash<D>, layer: seq<D>)
    requires layer != []
    ensures var ls := Layers(h, layer); ls[|ls| - 1] == [Root(h, layer)]
    decreases |layer|
  {
    if |layer| > 1 {
      LastLayer(h, Up(h, layer));
      var above := Layers(h, Up(h, layer));
      assert ([layer] + above)[|above|] == above[|above| - 1];
    }
  }

  lemma RootNodeIs<D>(h: PairHash<D>, zero: D, leaves: seq<D>)
    ensures RootNode(zero, Built(h, zero, leaves)) == if leaves == [] then zero else Root(h, leaves)
  {
    if leaves != [] { LastLayer(h, leaves); }
  }

  // ---- Proofs ----

  datatype Position = Left | Right

  datatype Proof<D> = Proof(leaf: D, siblings: seq<(D, Position)>)

  function Sibling<D>(layer: seq<D>, i: nat): (D, Position)
    requires i < |layer|
  {
    if i % 2 == 0 then (Node(layer, i + 1), Right) else (layer[i - 1], Left)
  }

  function Siblings<D>(h: PairHash<D>, layer: seq<D>, i: nat): seq<(D, Position)>
    requires i < |layer|
    decreases |layer|
  {
    if |layer| == 1 then [] else [Sibling(layer, i)] + Siblings(h, Up(h, layer), i / 2)
  }

  function Join<D>(h: PairHash<D>, node: D, s: (D, Position)): D {
    if s.1.Left? then h(s.0, node) else h(node, s.0)
  }

  function Climb<D>(h: PairHash<D>, node: D, path: seq<(D, Position)>): D
    decreases |path|
  {
    if path == [] then node else Climb(h, Join(h, node, path[0]), path[1..])
  }

  method MakeProof<D>(h: PairHash<D>, zero: D, t: Tree<D>, index: nat) returns (r: Option<Proof<D>>)
    requires t == Built(h, zero, t.leaves)
    ensures r == if index < |t.leaves| then Some(Proof(t.leaves[index], Siblings(h, t.leaves, index))) else None
  {
    hide Siblings, Layers, Root;
    if index >= |t.leaves| { return None; }
    var siblings: seq<(D, Position)> := [];
    var idx: nat := index;
    for k := 0 to |t.layers| - 1
      invariant t.layers[k..] == Layers(h, t.layers[k]) && idx < |t.layers[k]|
      invariant Siblings(h, t.leaves, index) == siblings + Siblings(h, t.layers[k], idx)
    {
      var layer := t.layers[k];
      LayersStep(h, t.layers[k..]);
      SiblingsStep(h, layer, idx);
      assert t.layers[k..][1..] == t.layers[k + 1..];
      var at := if idx % 2 == 0 then idx + 1 else idx - 1;
      at := Min(at, |layer| - 1);
      var position := if idx % 2 == 0 then Right else Left;
      siblings := siblings + [(layer[at], position)];
      idx := idx / 2;
    }
    LastLayer(h, t.leaves);
    NoSiblings(h, t.layers[|t.layers| - 1], idx);
    assert siblings + [] == siblings;
    return Some(Proof(t.leaves[index], siblings));
  }

  lemma SiblingsStep<D>(h: PairHash<D>, layer: seq<D>, i: nat)
    requires i < |layer| && |layer| > 1
    ensures i / 2 < |Up(h, layer)|
    ensures Siblings(h, layer, i) == [Sibling(layer, i)] + Siblings(h, Up(h, layer), i / 2)
  {
  }

  lemma NoSiblings<D>(h: PairHash<D>, layer: seq<D>, i: nat)
    requires i < |layer| == 1
    ensures Siblings(h, layer, i) == []
  {
  }

  lemma LayersStep<D>(h: PairHash<D>, layers: seq<seq<D>>)
    requires |layers| > 1 && layers == Layers(h, layers[0])
    ensures |layers[0]| > 1 && layers[1] == Up(h, layers[0]) && layers[1..] == Layers(h, layers[1])
  {
  }

  method VerifyProof<D(==)>(h: PairHash<D>, root: D, proof: Proof<D>) returns (ok: bool)
    ensures ok <==> Climb(h, proof.leaf, proof.siblings) == root
  {
    var current := proof.leaf;
    for i := 0 to |proof.siblings|
      invariant Climb(h, proof.leaf, proof.siblings) == Climb(h, current, proof.siblings[i..])
    {
      var (sibling, position) := proof.siblings[i];
      assert proof.siblings[i..][1..] == proof.siblings[i + 1..];
      match position {
        case Left => current := h(sibling, current);
        case Right => current := h(current, sibling);
      }
    }
    ok := current == root;
  }

  lemma JoinIsParent<D>(h: PairHash<D>, layer: seq<D>, i: nat)
    requires i < |layer| && |layer| > 1
    ensures Join(h, layer[i], Sibling(layer, i)) == Up(h, layer)[i / 2]
  {
  }

  /** Completeness: the proof of every leaf climbs to the root. */
  lemma {:induction false} ProofClimbsToRoot<D>(h: PairHash<D>, leaves: seq<D>, i: nat)
    requires i < |leaves|
    ensures Climb(h, leaves[i], Siblings(h, leaves, i)) == Root(h, leaves)
    decreases |leaves|
  {
    if |leaves| > 1 {
      JoinIsParent(h, leaves, i);
      ProofClimbsToRoot(h, Up(h, leaves), i / 2);
    }
  }

  /** Layers above the leaves. */
  function Height(n: nat): nat { if n <= 1 then 0 else 1 + Height((n + 1) / 2) }

  /** The least `k` with `2^k` at least `n`. */
  lemma {:induction false} HeightIsLog(n: nat)
    requires n > 0
    ensures Pow2(Height(n)) >= n && (Height(n) > 0 ==> Pow2(Height(n) - 1) < n)
  {
    if n > 1 { HeightIsLog((n + 1) / 2); }
  }

  lemma {:induction false} ProofLength<D>(h: PairHash<D>, leaves: seq<D>, i: nat)
    requires i < |leaves|
    ensures |Siblings(h, leaves, i)| == Height(|leaves|)
    decreases |leaves|
  {
    if |leaves| > 1 { ProofLength(h, Up(h, leaves), i / 2); }
  }

  // ---- Binding ----

  lemma LayerBinding<D>(h: PairHash<D>, a: seq<D>, b: seq<D>) returns (c: Clash<D>)
    requires |a| == |b| > 1 && a != b && Up(h, a) == Up(h, b)
    ensures c.Valid(h)
  {
    var i :| 0 <= i < |a| && a[i] != b[i];
    var j := i / 2;
    c := Clash((Node(a, 2 * j), Node(a, 2 * j + 1)), (Node(b, 2 * j), Node(b, 2 * j + 1)));
    assert Up(h, a)[j] == Up(h, b)[j];
  }

  /** Two leaf lists of one length with one root are equal, or a clash is at hand. */
  lemma {:induction false} RootBinding<D>(h: PairHash<D>, a: seq<D>, b: seq<D>) returns (c: Clash<D>)
    requires |a| == |b| > 0 && a != b && Root(h, a) == Root(h, b)
    ensures c.Valid(h)
    decreases |a|
  {
    assert |a| > 1;
    if Up(h, a) == Up(h, b) {
      c := LayerBinding(h, a, b);
    } else {
      c := RootBinding(h, Up(h, a), Up(h, b));
    }
  }

  /** A path has the length and the positions of leaf `i` among `n`. */
  predicate ShapedFor<D>(path: seq<(D, Position)>, n: nat, i: nat)
    requires i < n
    decreases n
  {
    if n == 1 then path == []
    else path != [] && path[0].1 == (if i % 2 == 0 then Right else Left) && ShapedFor(path[1..], (n + 1) / 2, i / 2)
  }

  /** Any accepted proof of the shape of leaf `i` is the honest one, or a clash is at hand. */
  lemma {:induction false} ProofBinding<D>(h: PairHash<D>, leaves: seq<D>, i: nat, proof: Proof<D>)
    returns (c: Clash<D>)
    requires i < |leaves| && ShapedFor(proof.siblings, |leaves|, i)
    requires Climb(h, proof.leaf, proof.siblings) == Root(h, leaves)
    requires proof != Proof(leaves[i], Siblings(h, leaves, i))
    ensures c.Valid(h)
    decreases |leaves|
  {
    var up, s, path := Up(h, leaves), Sibling(leaves, i), proof.siblings;
    assert |leaves| > 1;
    var joined := Join(h, proof.leaf, path[0]);
    JoinIsParent(h, leaves, i);
    if Proof(joined, path[1..]) != Proof(up[i / 2], Siblings(h, up, i / 2)) {
      c := ProofBinding(h, up, i / 2, Proof(joined, path[1..]));
    } else {
      assert path == [path[0]] + path[1..];
      c := if i % 2 == 0 then Clash((proof.leaf, path[0].0), (leaves[i], s.0))
           else Clash((path[0].0, proof.leaf), (s.0, leaves[i]));
    }
  }

  // ---- Lists of different lengths ----

  /** The slots one layer below: two children each, the second clamped to the layer's end. */
  function Below(above: seq<nat>, n: nat): (r: seq<nat>)
    requires n > 0
    ensures |r| == 2 * |above|
    ensures forall t :: 0 <= t < |r| ==> r[t] < n
  {
    seq(2 * |above|, t requires 0 <= t < 2 * |above| => Min(2 * above[t / 2] + t % 2, n - 1))
  }

  /** Which of `n` leaves sits at each position of the full binary tree that the copies fill up. */
  function Slots(n: nat): (r: seq<nat>)
    requires n > 0
    ensures forall t :: 0 <= t < |r| ==> r[t] < n
  {
    if n == 1 then [0] else Below(Slots((n + 1) / 2), n)
  }

  function Expanded<D>(leaves: seq<D>): (r: seq<D>)
    requires leaves != []
    ensures |r| == |Slots(|leaves|)|
    ensures forall t :: 0 <= t < |r| ==> r[t] == leaves[Slots(|leaves|)[t]]
  {
    seq(|Slots(|leaves|)|, t requires 0 <= t < |Slots(|leaves|)| => leaves[Slots(|leaves|)[t]])
  }

  lemma {:induction false} SlotsLength(n: nat)
    requires n > 0
    ensures |Slots(n)| == Pow2(Height(n))
  {
    if n > 1 { SlotsLength((n + 1) / 2); }
  }

  lemma UpExpanded<D>(h: PairHash<D>, leaves: seq<D>)
    requires |leaves| > 1
    ensures Up(h, Expanded(leaves)) == Expanded(Up(h, leaves))
  {
    var e, above := Expanded(leaves), Expanded(Up(h, leaves));
    forall t | 0 <= t < |above| ensures Up(h, e)[t] == above[t] {
      UpExpandedAt(h, leaves, t);
    }
  }

  lemma UpExpandedAt<D>(h: PairHash<D>, leaves: seq<D>, t: nat)
    requires |leaves| > 1 && t < |Expanded(Up(h, leaves))|
    ensures |Up(h, Expanded(leaves))| == |Expanded(Up(h, leaves))|
    ensures Up(h, Expanded(leaves))[t] == Expanded(Up(h, leaves))[t]
  {
    hide Slots;
    var e, j := Expanded(leaves), Slots((|leaves| + 1) / 2)[t];
    ChildSlots(|leaves|, t);
    assert Node(e, 2 * t) == e[2 * t] == Node(leaves, 2 * j);
    assert Node(e, 2 * t + 1) == e[2 * t + 1] == Node(leaves, 2 * j + 1);
  }

  lemma ChildSlots(n: nat, t: nat)
    requires n > 1 && t < |Slots((n + 1) / 2)|
    ensures |Slots(n)| == 2 * |Slots((n + 1) / 2)|
    ensures Slots(n)[2 * t] == 2 * Slots((n + 1) / 2)[t]
    ensures Slots(n)[2 * t + 1] == Min(2 * Slots((n + 1) / 2)[t] + 1, n - 1)
  {
    hide *;
    SlotsBelow(n);
    BelowAt(Slots((n + 1) / 2), n, t);
  }

  lemma SlotsBelow(n: nat)
    requires n > 1
    ensures Slots(n) == Below(Slots((n + 1) / 2), n)
  {
    hide Below;
  }

  lemma BelowAt(above: seq<nat>, n: nat, t: nat)
    requires n > 1 && t < |above| && above[t] < (n + 1) / 2
    ensures Below(above, n)[2 * t] == 2 * above[t]
    ensures Below(above, n)[2 * t + 1] == Min(2 * above[t] + 1, n - 1)
  {
    assert 2 * t / 2 == t && 2 * t % 2 == 0;
    assert (2 * t + 1) / 2 == t && (2 * t + 1) % 2 == 1;
  }

  lemma {:induction false} RootOfExpanded<D>(h: PairHash<D>, leaves: seq<D>)
    requires leaves != []
    ensures Expanded(leaves) != [] && Root(h, Expanded(leaves)) == Root(h, leaves)
    decreases |leaves|
  {
    SlotsLength(|leaves|);
    if |leaves| == 1 {
      assert Expanded(leaves) == leaves;
    } else {
      hide Slots;
      HeightIsLog(|leaves|);
      UpExpanded(h, leaves);
      RootOfExpanded(h, Up(h, leaves));
    }
  }

  /** The layer `d` levels above. */
  function Lifted<D>(h: PairHash<D>, layer: seq<D>, d: nat): seq<D>
    decreases d
  {
    if d == 0 then layer else Lifted(h, Up(h, layer), d - 1)
  }

  lemma LiftedStep<D>(h: PairHash<D>, layer: seq<D>, d: nat)
    ensures Lifted(h, layer, 0) == layer && (d > 0 ==> Lifted(h, layer, d) == Lifted(h, Up(h, layer), d - 1))
  {
  }

  lemma UpHalves<D>(h: PairHash<D>, layer: seq<D>, k: nat)
    requires |layer| == Pow2(k) && k > 0
    ensures |Up(h, layer)| == Pow2(k - 1) && Root(h, Up(h, layer)) == Root(h, layer)
  {
    hide Root;
    RootUp(h, layer);
  }

  lemma {:induction false} LiftedIs<D>(h: PairHash<D>, layer: seq<D>, k: nat, d: nat)
    requires |layer| == Pow2(k) && d <= k
    ensures |Lifted(h, layer, d)| == Pow2(k - d) && Root(h, Lifted(h, layer, d)) == Root(h, layer)
    decreases d
  {
    hide *;
    LiftedStep(h, layer, d);
    if d > 0 {
      UpHalves(h, layer, k);
      LiftedIs(h, Up(h, layer), k - 1, d - 1);
    }
  }

  /** The full tree of `a`, lifted to the height of the one of `b` if that is lower. */
  function Aligned<D>(h: PairHash<D>, a: seq<D>, b: seq<D>): seq<D>
    requires a != [] && b != []
  {
    Lifted(h, Expanded(a), SatSub(Height(|a|), Height(|b|)))
  }

  lemma AlignedIs<D>(h: PairHash<D>, a: seq<D>, b: seq<D>)
    requires a != [] && b != []
    ensures |Aligned(h, a, b)| == Pow2(Min(Height(|a|), Height(|b|)))
    ensures Root(h, Aligned(h, a, b)) == Root(h, a)
  {
    hide Root, Slots, Height, Expanded, Lifted;
    RootOfExpanded(h, a);
    SlotsLength(|a|);
    LiftedIs(h, Expanded(a), Height(|a|), SatSub(Height(|a|), Height(|b|)));
  }

  /** Lists of any lengths whose full trees agree from the lower height up have the same root. */
  lemma SameExpansionSameRoot<D>(h: PairHash<D>, a: seq<D>, b: seq<D>)
    requires a != [] && b != [] && Aligned(h, a, b) == Aligned(h, b, a)
    ensures Root(h, a) == Root(h, b)
  {
    hide Root, Aligned;
    AlignedIs(h, a, b);
    AlignedIs(h, b, a);
  }

  /** And no others do, without a clash. */
  lemma SameRootSameExpansion<D>(h: PairHash<D>, a: seq<D>, b: seq<D>) returns (c: Clash<D>)
    requires a != [] && b != [] && Root(h, a) == Root(h, b) && Aligned(h, a, b) != Aligned(h, b, a)
    ensures c.Valid(h)
  {
    hide Root, Aligned;
    AlignedIs(h, a, b);
    AlignedIs(h, b, a);
    c := RootBinding(h, Aligned(h, a, b), Aligned(h, b, a));
  }

  lemma RepeatedNode<D>(layer: seq<D>, i: nat)
    requires layer != []
    ensures Node(layer + [layer[|layer| - 1]], i) == Node(layer, i)
  {
  }

  /** So the root does not bind the number of leaves: repeating the last of an odd list keeps it. */
  lemma RepeatedLastLeaf<D>(h: PairHash<D>, leaves: seq<D>)
    requires |leaves| % 2 == 1 && |leaves| > 1
    ensures Root(h, leaves + [leaves[|leaves| - 1]]) == Root(h, leaves)
  {
    hide *;
    var last := leaves[|leaves| - 1];
    RepeatedUp(h, leaves);
    RootUp(h, leaves);
    RootUp(h, leaves + [last]);
  }

  lemma RepeatedUp<D>(h: PairHash<D>, leaves: seq<D>)
    requires |leaves| % 2 == 1
    ensures Up(h, leaves + [leaves[|leaves| - 1]]) == Up(h, leaves)
  {
    hide Node, Up;
    var more := leaves + [leaves[|leaves| - 1]];
    assert |Up(h, more)| == |Up(h, leaves)|;
    forall i | 0 <= i < |Up(h, leaves)| ensures Up(h, more)[i] == Up(h, leaves)[i] {
      RepeatedNode(leaves, 2 * i);
      RepeatedNode(leaves, 2 * i + 1);
    }
  }

  lemma RootUp<D>(h: PairHash<D>, leaves: seq<D>)
    requires |leaves| > 1
    ensures Root(h, leaves) == Root(h, Up(h, leaves))
  {
  }
}
