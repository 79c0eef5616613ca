/** Stake-weighted proposer selection (crates/consensus/src/pos.rs). The seeded random draw is a
    function from the total stake to a number below it. */
module Proposer {
  import opened Core
  import opened Ledger
  import Conservation

  datatype Error = NoActiveValidators | ZeroStake | WrongProposer(expected: Address)

  type Draw = u128 -> u128

  /** Stake of the first `i` validators. */
  function Prefix(vs: seq<Validator>, i: nat): nat
    requires i <= |vs|
  {
    Conservation.SumStakes(vs[..i])
  }

  lemma PrefixStep(vs: seq<Validator>, i: nat)
    requires i < |vs|
    ensures Prefix(vs, 0) == 0 && Prefix(vs, i + 1) == Prefix(vs, i) + vs[i].stake
  {
    assert vs[..i + 1][..i] == vs[..i];
  }

  /** The running sum in 128 bits. */
  function Running(vs: seq<Validator>, i: nat): u128
    requires i <= |vs|
  {
    Prefix(vs, i) % U128
  }

  /** The first position whose running sum exceeds the target; the last one if there is none. */
  function Chosen(vs: seq<Validator>, target: nat, from: nat): (i: nat)
    requires from < |vs|
    ensures from <= i < |vs|
    decreases |vs| - from
  {
    if target < Running(vs, from + 1) || from + 1 == |vs| then from else Chosen(vs, target, from + 1)
  }

  function Selected(vs: seq<Validator>, draw: Draw): Result<Address, Error> {
    if vs == [] then Err(NoActiveValidators)
    else if |vs| == 1 then Ok(vs[0].address)
    else if Running(vs, |vs|) == 0 then Err(ZeroStake)
    else Ok(vs[Chosen(vs, draw(Running(vs, |vs|)), 0)].address)
  }

  method SelectProposer(vs: seq<Validator>, draw: Draw) returns (r: Result<Address, Error>)
    ensures r == Selected(vs, draw)
  {
    hide Prefix;
    if vs == [] { return Err(NoActiveValidators); }
    if |vs| == 1 { return Ok(vs[0].address); }
    var total := TotalStake(vs);
    if total == 0 { return Err(ZeroStake); }
    var target := draw(total);
    var cumulative: u128 := 0;
    RunningStart(vs);
    for i := 0 to |vs|
      invariant cumulative == Running(vs, i)
      invariant i < |vs| ==> Chosen(vs, target, 0) == Chosen(vs, target, i)
      invariant i == |vs| ==> Chosen(vs, target, 0) == |vs| - 1
    {
      RunningStep(vs, i);
      cumulative := Add128(cumulative, vs[i].stake);
      if target < cumulative { return Ok(vs[i].address); }
    }
    return Ok(vs[|vs| - 1].address);
  }

  method TotalStake(vs: seq<Validator>) returns (total: u128)
    ensures total == Running(vs, |vs|)
  {
    hide Prefix;
    total := 0;
    RunningStart(vs);
    for i := 0 to |vs|
      invariant total == Running(vs, i)
    {
      RunningStep(vs, i);
      total := Add128(total, vs[i].stake);
    }
  }

  lemma RunningStart(vs: seq<Validator>)
    ensures Running(vs, 0) == 0
  {
  }

  lemma RunningStep(vs: seq<Validator>, i: nat)
    requires i < |vs|
    ensures Running(vs, 0) == 0 && Running(vs, i + 1) == Add128(Running(vs, i), vs[i].stake)
  {
    hide Prefix;
    PrefixStep(vs, i);
  }

  function Verified(proposer: Address, vs: seq<Validator>, draw: Draw): Result<(), Error> {
    match Selected(vs, draw)
    case Err(e) => Err(e)
    case Ok(a) => if proposer == a then Ok(()) else Err(WrongProposer(a))
  }

  /** Verification accepts exactly the selected address. */
  lemma VerifiesExactlySelected(proposer: Address, vs: seq<Validator>, draw: Draw)
    ensures Verified(proposer, vs, draw) == Ok(()) <==> Selected(vs, draw) == Ok(proposer)
  {
    hide Selected;
  }

  // ---- Exact proportionality ----

  lemma {:induction false} PrefixMonotone(vs: seq<Validator>, i: nat, j: nat)
    requires i <= j <= |vs|
    ensures Prefix(vs, i) <= Prefix(vs, j)
  {
    hide Prefix;
    if i < j {
      PrefixMonotone(vs, i, j - 1);
      PrefixStep(vs, j - 1);
    }
  }

  /** Position `i` owns the targets from the stake before it to the stake up to it. */
  lemma {:induction false} ChosenIff(vs: seq<Validator>, target: nat, from: nat, i: nat)
    requires from < |vs| && i < |vs| && Prefix(vs, |vs|) < U128
    requires Prefix(vs, from) <= target < Prefix(vs, |vs|)
    ensures Chosen(vs, target, from) == i <==> Prefix(vs, i) <= target < Prefix(vs, i + 1)
    decreases |vs| - from
  {
    hide Prefix;
    PrefixMonotone(vs, from + 1, |vs|);
    if target < Prefix(vs, from + 1) {
      if i < from {
        PrefixMonotone(vs, i + 1, from);
      } else if i > from {
        PrefixMonotone(vs, from + 1, i);
      }
    } else {
      assert from + 1 < |vs|;
      ChosenIff(vs, target, from + 1, i);
    }
  }

  function Targets(lo: nat, hi: nat): (r: set<nat>)
    ensures forall t :: t in r <==> lo <= t < hi
  {
    if lo >= hi then {} else Targets(lo, hi - 1) + {hi - 1}
  }

  lemma {:induction false} TargetsSize(lo: nat, hi: nat)
    requires lo <= hi
    ensures |Targets(lo, hi)| == hi - lo
    decreases hi - lo
  {
    if lo < hi { TargetsSize(lo, hi - 1); }
  }

  /** The targets of a draw that choose position `i`. */
  function Choosing(vs: seq<Validator>, i: nat): set<nat>
    requires vs != []
  {
    set t | t in Targets(0, Prefix(vs, |vs|)) && Chosen(vs, t, 0) == i
  }

  lemma ChoosingIs(vs: seq<Validator>, i: nat, t: nat)
    requires i < |vs| && Prefix(vs, |vs|) < U128
    ensures t in Choosing(vs, i) <==> Prefix(vs, i) <= t < Prefix(vs, i + 1)
  {
    hide Prefix;
    PrefixMonotone(vs, i + 1, |vs|);
    PrefixZero(vs);
    if t < Prefix(vs, |vs|) { ChosenIff(vs, t, 0, i); }
  }

  /** Exactly `stake` of the `total` targets choose a position; a position without stake has none. */
  lemma ExactlyProportional(vs: seq<Validator>, i: nat)
    requires i < |vs| && Prefix(vs, |vs|) < U128
    ensures |Choosing(vs, i)| == vs[i].stake
  {
    hide *;
    PrefixStep(vs, i);
    TargetsSize(Prefix(vs, i), Prefix(vs, i + 1));
    forall t: nat ensures t in Choosing(vs, i) <==> t in Targets(Prefix(vs, i), Prefix(vs, i + 1)) {
      ChoosingIs(vs, i, t);
    }
    assert Choosing(vs, i) == Targets(Prefix(vs, i), Prefix(vs, i + 1));
  }

  lemma PrefixZero(vs: seq<Validator>)
    ensures Prefix(vs, 0) == 0
  {
  }

  /** The loop always finds a position below its running sum: the fallback is never taken. */
  lemma FallbackUnreachable(vs: seq<Validator>, target: nat)
    requires vs != [] && Prefix(vs, |vs|) < U128 && target < Prefix(vs, |vs|)
    ensures target < Running(vs, Chosen(vs, target, 0) + 1)
  {
    hide Prefix;
    PrefixZero(vs);
    var i := Chosen(vs, target, 0);
    PrefixMonotone(vs, i + 1, |vs|);
    ChosenIff(vs, target, 0, i);
  }

  /** Some address passes verification, and no other one: that of the only validator, or of the one
      whose interval of stake holds the target, which then has stake. */
  lemma OneProposerVerifies(vs: seq<Validator>, draw: Draw)
    requires vs != [] && Prefix(vs, |vs|) < U128
    requires |vs| > 1 ==> draw(Prefix(vs, |vs|)) < Prefix(vs, |vs|)
    ensures exists i :: 0 <= i < |vs| && Wins(vs, draw, i)
                        && forall p :: Verified(p, vs, draw) == Ok(()) <==> p == vs[i].address
  {
    hide Prefix, Chosen, Verified;
    forall p { VerifiesExactlySelected(p, vs, draw); }
    if |vs| == 1 {
      assert Wins(vs, draw, 0);
    } else {
      var target := draw(Prefix(vs, |vs|));
      assert Running(vs, |vs|) == Prefix(vs, |vs|);
      var i := Chosen(vs, target, 0);
      PrefixZero(vs);
      ChosenIff(vs, target, 0, i);
      PrefixStep(vs, i);
      assert Wins(vs, draw, i);
    }
  }

  /** Nobody passes exactly when there is no validator, or several without stake in 128 bits. */
  lemma NobodyVerifiesIff(vs: seq<Validator>, draw: Draw)
    ensures (forall p :: Verified(p, vs, draw) != Ok(())) <==> vs == [] || (|vs| > 1 && Prefix(vs, |vs|) % U128 == 0)
  {
    hide Prefix, Chosen, Verified;
    forall p { VerifiesExactlySelected(p, vs, draw); }
    if Selected(vs, draw).Ok? { VerifiesExactlySelected(Selected(vs, draw).value, vs, draw); }
  }

  /** The only validator, or the one with stake whose interval holds the target. */
  predicate Wins(vs: seq<Validator>, draw: Draw, i: nat)
    requires i < |vs| && Prefix(vs, |vs|) < U128
  {
    |vs| == 1 || (vs[i].stake > 0 && Prefix(vs, i) <= draw(Prefix(vs, |vs|)) < Prefix(vs, i + 1))
  }
}
