/** Blocks and epochs as functions of the chain's value: folding the one-transaction step over a
    block, and rebuilding the validator set at the end of an epoch. */
module Blocks {
  import opened Core
  import opened Ledger
  import Sorting

  datatype Block = Block(hash: Hash, parent: Hash, number: nat, txs: seq<Tx>)

  datatype Epoch = Epoch(number: nat, start: nat, end: nat, vs: ValidatorSet)

  datatype Params = Params(epochLength: u64, minStake: u128, maxValidators: nat)

  datatype Chain = Chain(accounts: Accounts, epoch: Epoch, height: nat, head: Hash) {
    function AsWorld(): World { World(accounts, epoch.vs) }
  }

  /** Every account is stored under its own address. */
  ghost predicate Keyed(m: Accounts) { forall a :: a in m ==> m[a].address == a }

  // ---- Blocks ----

  /** The world after the first `k` transactions of the block. */
  function RunTxs(w: World, b: Block, vm: seq<VmAnswer>, k: nat): World
    requires k <= |b.txs| == |vm|
  {
    if k == 0 then w else Step(RunTxs(w, b, vm, k - 1), b.txs[k - 1], vm[k - 1], b.number, k - 1).world
  }

  /** The receipts of the first `k` transactions, in order. */
  function Receipts(w: World, b: Block, vm: seq<VmAnswer>, k: nat): seq<Receipt>
    requires k <= |b.txs| == |vm|
  {
    if k == 0 then []
    else Receipts(w, b, vm, k - 1) +
         [Step(RunTxs(w, b, vm, k - 1), b.txs[k - 1], vm[k - 1], b.number, k - 1).receipt]
  }

  predicate Extends(c: Chain, b: Block) { b.parent == c.head && b.number == c.height + 1 }

  function Applied(c: Chain, b: Block, vm: seq<VmAnswer>): Chain
    requires |vm| == |b.txs|
  {
    var w := RunTxs(c.AsWorld(), b, vm, |b.txs|);
    Chain(w.accounts, c.epoch.(vs := w.vs), b.number, b.hash)
  }

  // ---- Epochs ----

  function Unjail(v: Validator, now: u64, minStake: u128): Validator {
    if v.jailedUntil.Some? && now >= v.jailedUntil.value then
      v.(jailedUntil := None, isActive := v.isActive || v.stake >= minStake)
    else v
  }

  function UnjailAll(vs: seq<Validator>, now: u64, minStake: u128): (r: seq<Validator>)
    ensures |r| == |vs|
    ensures forall i :: 0 <= i < |vs| ==> r[i] == Unjail(vs[i], now, minStake)
  {
    seq(|vs|, i requires 0 <= i < |vs| => Unjail(vs[i], now, minStake))
  }

  function Eligible(vs: seq<Validator>, minStake: u128): seq<Validator> {
    if vs == [] then []
    else Eligible(vs[..|vs| - 1], minStake) +
         (if vs[|vs| - 1].stake >= minStake then [vs[|vs| - 1]] else [])
  }

  predicate AtLeast(v: Validator, u: Validator) { v.stake >= u.stake }

  /** The stable sort by stake, largest first. */
  function SortByStake(vs: seq<Validator>): seq<Validator> { Sorting.Sort(vs, AtLeast) }

  function Truncate(vs: seq<Validator>, n: nat): seq<Validator> { vs[..Min(|vs|, n)] }

  function Rebuilt(vs: ValidatorSet, p: Params, now: u64): ValidatorSet {
    var pool := Eligible(UnjailAll(vs.validators, now, p.minStake), p.minStake);
    NewValidatorSet(Truncate(SortByStake(pool), p.maxValidators), p.minStake, p.maxValidators)
  }

  function Advanced(c: Chain, p: Params, now: u64): Chain {
    if c.height != c.epoch.end then c
    else c.(epoch := Epoch(c.epoch.number + 1, c.height + 1, c.height + p.epochLength, Rebuilt(c.epoch.vs, p, now)))
  }

  // ---- Runs: the engine applies a block and then checks the epoch boundary ----

  datatype Tick = Tick(block: Block, vm: seq<VmAnswer>, now: u64)

  type Run = r: seq<Tick> | forall i :: 0 <= i < |r| ==> |r[i].vm| == |r[i].block.txs| witness []

  function After(c: Chain, p: Params, run: Run, k: nat): Chain
    requires k <= |run|
  {
    if k == 0 then c
    else
      var d := After(c, p, run, k - 1);
      var t := run[k - 1];
      if Extends(d, t.block) then Advanced(Applied(d, t.block, t.vm), p, t.now) else d
  }
}
