/** Conservation over whole runs: at every height, accounts + stakes + gas burned + value lost +
    stake dropped at epoch changes equals what genesis put in. */
module Books {
  import opened Core
  import opened Ledger
  import opened Blocks
  import opened Conservation
  import opened Solvency
  import Sorting

  // ---- One block ----

  /** No contract run that succeeds. */
  predicate PlainBlock(w: World, b: Block, vm: seq<VmAnswer>)
    requires |vm| == |b.txs|
  {
    forall j :: 0 <= j < |b.txs| ==> NoContractRun(RunTxs(w, b, vm, j), b.txs[j], vm[j])
  }

  predicate CostsInRange(b: Block) { forall j :: 0 <= j < |b.txs| ==> InRange(b.txs[j]) }

  function BlockBurned(w: World, b: Block, vm: seq<VmAnswer>, k: nat): nat
    requires k <= |b.txs| == |vm|
  {
    if k == 0 then 0
    else BlockBurned(w, b, vm, k - 1) + Burned(RunTxs(w, b, vm, k - 1), b.txs[k - 1], vm[k - 1])
  }

  function BlockLost(w: World, b: Block, vm: seq<VmAnswer>, k: nat): nat
    requires k <= |b.txs| == |vm|
  {
    if k == 0 then 0
    else BlockLost(w, b, vm, k - 1) + Lost(RunTxs(w, b, vm, k - 1), b.txs[k - 1], vm[k - 1])
  }

  function BlockWraps(w: World, b: Block, vm: seq<VmAnswer>, k: nat): int
    requires k <= |b.txs| == |vm|
  {
    if k == 0 then 0
    else BlockWraps(w, b, vm, k - 1) + Wraps(RunTxs(w, b, vm, k - 1), b.txs[k - 1], vm[k - 1])
  }

  /** The books of a block balance, with wrap-arounds counted. */
  lemma {:induction false} BlockBooks(w: World, b: Block, vm: seq<VmAnswer>, k: nat)
    requires k <= |b.txs| == |vm| && PlainBlock(w, b, vm)
    ensures Supply(RunTxs(w, b, vm, k)) + BlockBurned(w, b, vm, k) + BlockLost(w, b, vm, k)
            + U128 * BlockWraps(w, b, vm, k) == Supply(w)
  {
    hide Step, Supply, Burned, Lost, Wraps, NoContractRun;
    if k > 0 {
      BlockBooks(w, b, vm, k - 1);
      StepBooks(RunTxs(w, b, vm, k - 1), b.txs[k - 1], vm[k - 1], b.number, k - 1);
    }
  }

  /** No operation of the first `k` transactions wraps around. */
  predicate UnwrappedBlock(w: World, b: Block, vm: seq<VmAnswer>, k: nat)
    requires k <= |b.txs| == |vm|
  {
    forall j :: 0 <= j < k ==> !Wrapped(RunTxs(w, b, vm, j), b.txs[j], vm[j])
  }

  /** None of the first `k` transactions costs more than its sender has. */
  predicate SolventBlock(w: World, b: Block, vm: seq<VmAnswer>, k: nat)
    requires k <= |b.txs| == |vm|
  {
    forall j :: 0 <= j < k ==> !Overdrawn(RunTxs(w, b, vm, j), b.txs[j], vm[j])
  }

  predicate FittingBlock(w: World, b: Block, vm: seq<VmAnswer>, k: nat)
    requires k <= |b.txs| == |vm|
  {
    forall j :: 0 <= j < k ==> Fits(RunTxs(w, b, vm, j), b.txs[j], vm[j])
  }

  /** The books of the block balance after each of its transactions, without counting wrap-arounds. */
  ghost predicate BalancedBlock(w: World, b: Block, vm: seq<VmAnswer>, k: nat)
    requires k <= |b.txs| == |vm|
  {
    forall j :: 0 <= j <= k ==>
      Supply(RunTxs(w, b, vm, j)) + BlockBurned(w, b, vm, j) + BlockLost(w, b, vm, j) == Supply(w)
  }

  lemma {:induction false} FittingCounts(w: World, b: Block, vm: seq<VmAnswer>, k: nat)
    requires k <= |b.txs| == |vm| && PlainBlock(w, b, vm) && FittingBlock(w, b, vm, k) && Supply(w) < U128
    ensures BlockWraps(w, b, vm, k) == 0 && Supply(RunTxs(w, b, vm, k)) < U128
  {
    hide Step, Supply, Wraps, NoContractRun, Fits, BlockBurned, BlockLost, RunTxs;
    if k > 0 {
      FittingCounts(w, b, vm, k - 1);
      FitsIff(RunTxs(w, b, vm, k - 1), b.txs[k - 1], vm[k - 1]);
    }
    BlockBooks(w, b, vm, k);
  }

  lemma SolventIsFitting(w: World, b: Block, vm: seq<VmAnswer>, k: nat)
    requires k <= |b.txs| == |vm| && SolventBlock(w, b, vm, k)
    ensures FittingBlock(w, b, vm, k)
  {
    hide RunTxs, Fits, Overdrawn;
    forall j | 0 <= j < k ensures Fits(RunTxs(w, b, vm, j), b.txs[j], vm[j]) {
      SolventFits(RunTxs(w, b, vm, j), b.txs[j], vm[j]);
    }
  }

  /** In a block nothing wraps around exactly when nobody is overdrawn. */
  lemma {:induction false} BlockWrapsIff(w: World, b: Block, vm: seq<VmAnswer>, k: nat)
    requires k <= |b.txs| == |vm| && PlainBlock(w, b, vm) && Supply(w) < U128
    ensures UnwrappedBlock(w, b, vm, k) <==> SolventBlock(w, b, vm, k)
  {
    hide RunTxs, Wrapped, Overdrawn, PlainBlock, FittingBlock, Supply;
    if k > 0 {
      BlockWrapsIff(w, b, vm, k - 1);
      if SolventBlock(w, b, vm, k - 1) {
        SolventIsFitting(w, b, vm, k - 1);
        FittingCounts(w, b, vm, k - 1);
        WrappedIff(RunTxs(w, b, vm, k - 1), b.txs[k - 1], vm[k - 1]);
      }
    }
  }

  /** A block balances throughout exactly when each of its transactions fits. */
  lemma {:induction false} BlockBalancesIff(w: World, b: Block, vm: seq<VmAnswer>, k: nat)
    requires k <= |b.txs| == |vm| && PlainBlock(w, b, vm) && Supply(w) < U128
    ensures BalancedBlock(w, b, vm, k) <==> FittingBlock(w, b, vm, k)
  {
    hide RunTxs, Fits, BlockBurned, BlockLost, Supply, NoContractRun, Wraps;
    BlockBooks(w, b, vm, k);
    if k == 0 {
      forall j | 0 <= j <= k
        ensures Supply(RunTxs(w, b, vm, j)) + BlockBurned(w, b, vm, j) + BlockLost(w, b, vm, j) == Supply(w)
      {
        BlockBooks(w, b, vm, j);
      }
    } else {
      BlockBalancesIff(w, b, vm, k - 1);
      if FittingBlock(w, b, vm, k - 1) {
        FittingCounts(w, b, vm, k - 1);
        FitsIff(RunTxs(w, b, vm, k - 1), b.txs[k - 1], vm[k - 1]);
      }
    }
  }

  // ---- Epoch rebuilds only drop stake ----

  lemma {:induction false} UnjailKeepsStakes(vs: seq<Validator>, now: u64, minStake: u128)
    ensures SumStakes(UnjailAll(vs, now, minStake)) == SumStakes(vs)
  {
    if vs != [] {
      var n := |vs| - 1;
      UnjailKeepsStakes(vs[..n], now, minStake);
      assert UnjailAll(vs, now, minStake)[..n] == UnjailAll(vs[..n], now, minStake);
    }
  }

  lemma {:induction false} SumStakesConcat(a: seq<Validator>, b: seq<Validator>)
    ensures SumStakes(a + b) == SumStakes(a) + SumStakes(b)
  {
    if b == [] {
      assert a + b == a;
    } else {
      var n := |b| - 1;
      assert (a + b)[..|a| + n] == a + b[..n];
      SumStakesConcat(a, b[..n]);
    }
  }

  lemma {:induction false} EligibleSum(vs: seq<Validator>, minStake: u128)
    ensures SumStakes(Eligible(vs, minStake)) <= SumStakes(vs)
  {
    if vs != [] {
      var n := |vs| - 1;
      EligibleSum(vs[..n], minStake);
      SumStakesConcat(Eligible(vs[..n], minStake), if vs[n].stake >= minStake then [vs[n]] else []);
    }
  }

  lemma {:induction false} PlaceSum(vs: seq<Validator>, v: Validator)
    ensures SumStakes(Sorting.Place(vs, v, AtLeast)) == SumStakes(vs) + v.stake
  {
    if vs == [] || AtLeast(vs[|vs| - 1], v) {
      SumStakesConcat(vs, [v]);
    } else {
      var n := |vs| - 1;
      PlaceSum(vs[..n], v);
      SumStakesConcat(Sorting.Place(vs[..n], v, AtLeast), [vs[n]]);
    }
  }

  lemma {:induction false} SortSum(vs: seq<Validator>)
    ensures SumStakes(SortByStake(vs)) == SumStakes(vs)
  {
    if vs != [] {
      SortSum(vs[..|vs| - 1]);
      PlaceSum(SortByStake(vs[..|vs| - 1]), vs[|vs| - 1]);
    }
  }

  lemma RebuildOnlyDrops(vs: ValidatorSet, p: Params, now: u64)
    ensures SumStakes(Rebuilt(vs, p, now).validators) <= SumStakes(vs.validators)
  {
    var all := UnjailAll(vs.validators, now, p.minStake);
    UnjailKeepsStakes(vs.validators, now, p.minStake);
    EligibleSum(all, p.minStake);
    SortSum(Eligible(all, p.minStake));
    TruncateSum(SortByStake(Eligible(all, p.minStake)), p.maxValidators);
  }

  lemma TruncateSum(vs: seq<Validator>, n: nat)
    ensures SumStakes(Truncate(vs, n)) <= SumStakes(vs)
  {
    var m := Min(|vs|, n);
    SumStakesConcat(vs[..m], vs[m..]);
    assert vs == vs[..m] + vs[m..];
  }

  // ---- Runs ----

  datatype Totals = Totals(burned: nat, lost: nat, dropped: nat, wraps: int)

  /** Stake of validators that an epoch change leaves out of the set. */
  function Dropped(c: Chain, p: Params, now: u64): nat {
    if c.height != c.epoch.end then 0
    else SatSub(SumStakes(c.epoch.vs.validators), SumStakes(Rebuilt(c.epoch.vs, p, now).validators))
  }

  function TotalsAfter(c: Chain, p: Params, run: Run, k: nat): Totals
    requires k <= |run|
  {
    if k == 0 then Totals(0, 0, 0, 0)
    else
      var d, t, before := After(c, p, run, k - 1), run[k - 1], TotalsAfter(c, p, run, k - 1);
      if !Extends(d, t.block) then before
      else Totals(before.burned + BlockBurned(d.AsWorld(), t.block, t.vm, |t.block.txs|),
                  before.lost + BlockLost(d.AsWorld(), t.block, t.vm, |t.block.txs|),
                  before.dropped + Dropped(Applied(d, t.block, t.vm), p, t.now),
                  before.wraps + BlockWraps(d.AsWorld(), t.block, t.vm, |t.block.txs|))
  }

  predicate PlainRun(c: Chain, p: Params, run: Run) {
    forall k :: 0 <= k < |run| && Extends(After(c, p, run, k), run[k].block) ==>
      PlainBlock(After(c, p, run, k).AsWorld(), run[k].block, run[k].vm)
  }

  /** Every cost of the run is in range. */
  predicate InRangeRun(run: Run) { forall k :: 0 <= k < |run| ==> CostsInRange(run[k].block) }

  /** At every point of every run without successful contract runs: supply, gas burned, value lost and
      stake dropped add up to the start, with 128-bit wrap-arounds counted. */
  lemma {:induction false} RunBooks(c: Chain, p: Params, run: Run, k: nat)
    requires k <= |run| && PlainRun(c, p, run)
    ensures var t := TotalsAfter(c, p, run, k);
            Supply(c.AsWorld()) ==
            Supply(After(c, p, run, k).AsWorld()) + t.burned + t.lost + t.dropped + U128 * t.wraps
  {
    hide Step, RunTxs, BlockBurned, BlockLost, BlockWraps, PlainBlock, Rebuilt, SumStakes, SumBalances;
    if k > 0 {
      RunBooks(c, p, run, k - 1);
      var d, t := After(c, p, run, k - 1), run[k - 1];
      if Extends(d, t.block) {
        BlockBooks(d.AsWorld(), t.block, t.vm, |t.block.txs|);
        RebuildOnlyDrops(Applied(d, t.block, t.vm).epoch.vs, p, t.now);
      }
    }
  }

  predicate UnwrappedRun(c: Chain, p: Params, run: Run, k: nat)
    requires k <= |run|
  {
    forall i :: 0 <= i < k && Extends(After(c, p, run, i), run[i].block) ==>
      UnwrappedBlock(After(c, p, run, i).AsWorld(), run[i].block, run[i].vm, |run[i].block.txs|)
  }

  predicate SolventRun(c: Chain, p: Params, run: Run, k: nat)
    requires k <= |run|
  {
    forall i :: 0 <= i < k && Extends(After(c, p, run, i), run[i].block) ==>
      SolventBlock(After(c, p, run, i).AsWorld(), run[i].block, run[i].vm, |run[i].block.txs|)
  }

  predicate FittingRun(c: Chain, p: Params, run: Run, k: nat)
    requires k <= |run|
  {
    forall i :: 0 <= i < k && Extends(After(c, p, run, i), run[i].block) ==>
      FittingBlock(After(c, p, run, i).AsWorld(), run[i].block, run[i].vm, |run[i].block.txs|)
  }

  /** The books balance after every transaction of every block. */
  ghost predicate BalancedRun(c: Chain, p: Params, run: Run, k: nat)
    requires k <= |run|
  {
    forall i :: 0 <= i < k && Extends(After(c, p, run, i), run[i].block) ==>
      BalancedBlock(After(c, p, run, i).AsWorld(), run[i].block, run[i].vm, |run[i].block.txs|)
  }

  lemma {:induction false} FittingRunCounts(c: Chain, p: Params, run: Run, k: nat)
    requires k <= |run| && PlainRun(c, p, run) && FittingRun(c, p, run, k) && Supply(c.AsWorld()) < U128
    ensures TotalsAfter(c, p, run, k).wraps == 0 && Supply(After(c, p, run, k).AsWorld()) < U128
  {
    hide After, BlockBurned, BlockLost, BlockWraps, PlainBlock, FittingBlock, Dropped, Supply, Applied;
    if k > 0 {
      FittingRunCounts(c, p, run, k - 1);
      var d, t := After(c, p, run, k - 1), run[k - 1];
      if Extends(d, t.block) { FittingCounts(d.AsWorld(), t.block, t.vm, |t.block.txs|); }
    }
    RunBooks(c, p, run, k);
  }

  lemma SolventRunFits(c: Chain, p: Params, run: Run, k: nat)
    requires k <= |run| && SolventRun(c, p, run, k)
    ensures FittingRun(c, p, run, k)
  {
    hide After, SolventBlock, FittingBlock;
    forall i | 0 <= i < k && Extends(After(c, p, run, i), run[i].block)
      ensures FittingBlock(After(c, p, run, i).AsWorld(), run[i].block, run[i].vm, |run[i].block.txs|)
    {
      SolventIsFitting(After(c, p, run, i).AsWorld(), run[i].block, run[i].vm, |run[i].block.txs|);
    }
  }

  /** From less than 2^128 in all: over a run nothing ever wraps around exactly when no accepted transaction
      costs more than its sender has. */
  lemma {:induction false} RunWrapsIff(c: Chain, p: Params, run: Run, k: nat)
    requires k <= |run| && PlainRun(c, p, run) && Supply(c.AsWorld()) < U128
    ensures UnwrappedRun(c, p, run, k) <==> SolventRun(c, p, run, k)
  {
    hide After, UnwrappedBlock, SolventBlock, PlainBlock, Supply, FittingRun;
    if k > 0 {
      RunWrapsIff(c, p, run, k - 1);
      var d, t := After(c, p, run, k - 1), run[k - 1];
      if SolventRun(c, p, run, k - 1) && Extends(d, t.block) {
        SolventRunFits(c, p, run, k - 1);
        FittingRunCounts(c, p, run, k - 1);
        BlockWrapsIff(d.AsWorld(), t.block, t.vm, |t.block.txs|);
      }
    }
  }

  /** The books balance throughout a run exactly when every transaction of it fits. */
  lemma {:induction false} RunBalancesIff(c: Chain, p: Params, run: Run, k: nat)
    requires k <= |run| && PlainRun(c, p, run) && Supply(c.AsWorld()) < U128
    ensures BalancedRun(c, p, run, k) <==> FittingRun(c, p, run, k)
  {
    hide After, BalancedBlock, FittingBlock, PlainBlock, Supply;
    if k > 0 {
      RunBalancesIff(c, p, run, k - 1);
      var d, t := After(c, p, run, k - 1), run[k - 1];
      if FittingRun(c, p, run, k - 1) && Extends(d, t.block) {
        FittingRunCounts(c, p, run, k - 1);
        BlockBalancesIff(d.AsWorld(), t.block, t.vm, |t.block.txs|);
      }
    }
  }

  lemma InRangeSolvent(w: World, b: Block, vm: seq<VmAnswer>, k: nat)
    requires k <= |b.txs| == |vm| && CostsInRange(b)
    ensures SolventBlock(w, b, vm, k)
  {
    hide RunTxs, InRange;
    forall j | 0 <= j < k ensures !Overdrawn(RunTxs(w, b, vm, j), b.txs[j], vm[j]) {
      if Accepted(RunTxs(w, b, vm, j), b.txs[j]) { OverdrawnIff(RunTxs(w, b, vm, j), b.txs[j], vm[j]); }
    }
  }

  /** In particular nothing wraps around while total costs are in range. */
  lemma RunNeverWraps(c: Chain, p: Params, run: Run, k: nat)
    requires k <= |run| && PlainRun(c, p, run) && InRangeRun(run) && Supply(c.AsWorld()) < U128
    ensures UnwrappedRun(c, p, run, k) && FittingRun(c, p, run, k)
  {
    hide After, UnwrappedRun, SolventBlock, PlainRun, Supply, FittingRun, CostsInRange;
    forall i | 0 <= i < k && Extends(After(c, p, run, i), run[i].block)
      ensures SolventBlock(After(c, p, run, i).AsWorld(), run[i].block, run[i].vm, |run[i].block.txs|)
    {
      InRangeSolvent(After(c, p, run, i).AsWorld(), run[i].block, run[i].vm, |run[i].block.txs|);
    }
    RunWrapsIff(c, p, run, k);
    SolventRunFits(c, p, run, k);
  }

  // ---- When a whole run loses nothing ----

  /** Some accepted transaction of the block pays itself, or has a refund over 64 bits. */
  predicate Leaks(w: World, tx: Tx, vm: VmAnswer) {
    Accepted(w, tx) && ((SelfTransfer(tx) && tx.value > 0) || FullRefund(w, tx, vm) >= U64)
  }

  lemma LostIff(w: World, tx: Tx, vm: VmAnswer)
    ensures Lost(w, tx, vm) > 0 <==> Leaks(w, tx, vm)
  {
    hide Accepted, FullRefund;
  }

  lemma {:induction false} BlockLosesNothingIff(w: World, b: Block, vm: seq<VmAnswer>, k: nat)
    requires k <= |b.txs| == |vm|
    ensures BlockLost(w, b, vm, k) == 0 <==>
            forall j :: 0 <= j < k ==> !Leaks(RunTxs(w, b, vm, j), b.txs[j], vm[j])
  {
    hide Step, Leaks, Lost, RunTxs;
    if k > 0 {
      BlockLosesNothingIff(w, b, vm, k - 1);
      LostIff(RunTxs(w, b, vm, k - 1), b.txs[k - 1], vm[k - 1]);
    }
  }

  predicate LeakFreeRun(c: Chain, p: Params, run: Run, k: nat)
    requires k <= |run|
  {
    forall i, j :: 0 <= i < k && Extends(After(c, p, run, i), run[i].block) && 0 <= j < |run[i].block.txs| ==>
      !Leaks(RunTxs(After(c, p, run, i).AsWorld(), run[i].block, run[i].vm, j), run[i].block.txs[j], run[i].vm[j])
  }

  lemma {:induction false} RunLosesNothingIff(c: Chain, p: Params, run: Run, k: nat)
    requires k <= |run|
    ensures TotalsAfter(c, p, run, k).lost == 0 <==> LeakFreeRun(c, p, run, k)
  {
    hide Step, Leaks, RunTxs, After, BlockLost, BlockBurned, BlockWraps, Dropped;
    if k > 0 {
      RunLosesNothingIff(c, p, run, k - 1);
      var d, t := After(c, p, run, k - 1), run[k - 1];
      if Extends(d, t.block) { BlockLosesNothingIff(d.AsWorld(), t.block, t.vm, |t.block.txs|); }
    }
  }

  /** Where every transaction fits, balances, stakes, burned gas and dropped stake add up to the start
      exactly on leak-free runs. */
  lemma RunConservesIff(c: Chain, p: Params, run: Run)
    requires PlainRun(c, p, run) && FittingRun(c, p, run, |run|) && Supply(c.AsWorld()) < U128
    ensures (var t := TotalsAfter(c, p, run, |run|);
             Supply(After(c, p, run, |run|).AsWorld()) + t.burned + t.dropped == Supply(c.AsWorld()))
       <==> LeakFreeRun(c, p, run, |run|)
  {
    hide *;
    RunBooks(c, p, run, |run|);
    FittingRunCounts(c, p, run, |run|);
    RunLosesNothingIff(c, p, run, |run|);
  }
}
