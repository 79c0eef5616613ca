/** Active stake, the two-thirds threshold and the intersection of quorums
    (crates/core/src/validator.rs). */
module Quorum {
  import opened Core
  import opened Ledger

  predicate Voting(v: Validator) { v.isActive && v.jailedUntil.None? }

  /** Stake of the active, unjailed validators whose address is in `who`. */
  function StakeOf(vs: seq<Validator>, who: set<Address>): nat {
    if vs == [] then 0
    else var v := vs[|vs| - 1];
         StakeOf(vs[..|vs| - 1], who) + (if Voting(v) && v.address in who then v.stake else 0)
  }

  function ActiveStake(vs: seq<Validator>): nat {
    if vs == [] then 0
    else var v := vs[|vs| - 1]; ActiveStake(vs[..|vs| - 1]) + (if Voting(v) then v.stake else 0)
  }

  /** `(total * 2).div_ceil(3)` in 128 bits. */
  function Threshold(vs: seq<Validator>): nat { (2 * (ActiveStake(vs) % U128) % U128 + 2) / 3 }

  /** The threshold is two thirds of the active stake, rounded up, exactly below 2^127. */
  lemma ThresholdIsTwoThirdsIff(vs: seq<Validator>)
    requires ActiveStake(vs) < U128
    ensures Threshold(vs) == (2 * ActiveStake(vs) + 2) / 3 <==> ActiveStake(vs) < U127
  {
    hide ActiveStake;
  }

  /** Inclusion and exclusion, validator by validator. */
  lemma {:induction false} StakeOfUnion(vs: seq<Validator>, a: set<Address>, b: set<Address>)
    ensures StakeOf(vs, a) + StakeOf(vs, b) == StakeOf(vs, a + b) + StakeOf(vs, a * b)
    ensures StakeOf(vs, a) <= ActiveStake(vs)
  {
    if vs != [] { StakeOfUnion(vs[..|vs| - 1], a, b); }
  }

  lemma {:induction false} StakeOfDifference(vs: seq<Validator>, a: set<Address>, f: set<Address>)
    requires StakeOf(vs, a) > StakeOf(vs, f)
    ensures exists i :: 0 <= i < |vs| && Voting(vs[i]) && vs[i].address in a - f
  {
    var n := |vs| - 1;
    if !(Voting(vs[n]) && vs[n].address in a - f) {
      StakeOfDifference(vs[..n], a, f);
      var i :| 0 <= i < n && Voting(vs[..n][i]) && vs[..n][i].address in a - f;
      assert Voting(vs[i]) && vs[i].address in a - f;
    }
  }

  /** Any two sets of voters that reach the threshold share a third of the active stake. */
  lemma QuorumsIntersect(vs: seq<Validator>, a: set<Address>, b: set<Address>)
    requires ActiveStake(vs) < U127
    requires StakeOf(vs, a) >= Threshold(vs) && StakeOf(vs, b) >= Threshold(vs)
    ensures 3 * StakeOf(vs, a * b) >= ActiveStake(vs)
  {
    hide ActiveStake, StakeOf;
    StakeOfUnion(vs, a, b);
    StakeOfUnion(vs, a + b, {});
    ThresholdIsTwoThirdsIff(vs);
  }

  /** With less than a third of the active stake faulty, they share an honest voter. */
  lemma HonestVoterInBoth(vs: seq<Validator>, a: set<Address>, b: set<Address>, faulty: set<Address>)
    requires ActiveStake(vs) < U127 && 3 * StakeOf(vs, faulty) < ActiveStake(vs)
    requires StakeOf(vs, a) >= Threshold(vs) && StakeOf(vs, b) >= Threshold(vs)
    ensures exists i :: 0 <= i < |vs| && Voting(vs[i]) && vs[i].address in (a * b) - faulty
  {
    hide ActiveStake, StakeOf;
    QuorumsIntersect(vs, a, b);
    StakeOfDifference(vs, a * b, faulty);
  }
}
