/** Contract code and contract storage, which a block writes straight to the database while it runs
    (crates/consensus/src/state.rs), and why a contract's code is always there to be run. */
module CodeStore {
  import opened Core
  import opened Bytes
  import opened Ledger
  import opened Blocks
  import opened Journal

  datatype Store = Store(codes: map<Hash, Bytes>, slots: Db)

  function DeployStore(s: Store, tx: Tx, vm: VmAnswer): Store {
    match vm.deploy
    case None => s
    case Some(d) => Store(s.codes[d.code := tx.data], Written(s.slots, d.changes))
  }

  function CallStore(w: World, s: Store, tx: Tx, vm: VmAnswer): Store {
    if CallReturns(w, tx, vm) && vm.call.value.status.Success?
    then s.(slots := Written(s.slots, vm.call.value.changes)) else s
  }

  function StepStore(w: World, s: Store, tx: Tx, vm: VmAnswer): Store {
    if !Accepted(w, tx) then s
    else if tx.kind.ContractDeploy? then DeployStore(s, tx, vm)
    else if tx.kind.ContractCall? then CallStore(w, s, tx, vm)
    else s
  }

  /** The store after the first `k` transactions of the block. */
  function RunStore(w: World, s: Store, b: Block, vm: seq<VmAnswer>, k: nat): Store
    requires k <= |b.txs| == |vm|
  {
    if k == 0 then s else StepStore(RunTxs(w, b, vm, k - 1), RunStore(w, s, b, vm, k - 1), b.txs[k - 1], vm[k - 1])
  }

  /** The store after the first `k` ticks of a run. */
  function StoreAfter(c: Chain, p: Params, s: Store, run: Run, k: nat): Store
    requires k <= |run|
  {
    if k == 0 then s
    else
      var d, t := After(c, p, run, k - 1), run[k - 1];
      var before := StoreAfter(c, p, s, run, k - 1);
      if Extends(d, t.block) then RunStore(d.AsWorld(), before, t.block, t.vm, |t.block.txs|) else before
  }

  // ---- A contract's code is stored ----

  /** Every account that carries a code hash has that code stored. */
  ghost predicate CodeHeld(m: Accounts, s: Store) {
    forall a :: a in m && m[a].code.Some? ==> m[a].code.value in s.codes
  }

  /** The code hash an account can have after a transaction: its old one, or the deployed one. */
  predicate CodeFrom(w: World, tx: Tx, vm: VmAnswer, code: Option<Hash>) {
    || code.None?
    || (exists a :: a in w.accounts && w.accounts[a].code == code)
    || (tx.kind.ContractDeploy? && vm.deploy.Some? && code == Some(vm.deploy.value.code))
  }

  lemma LookupCode(w: World, tx: Tx, vm: VmAnswer, a: Address)
    ensures CodeFrom(w, tx, vm, Lookup(w.accounts, a).code)
  {
  }

  lemma StepCode(w: World, tx: Tx, vm: VmAnswer, number: nat, i: nat, a: Address)
    ensures CodeFrom(w, tx, vm, Lookup(Step(w, tx, vm, number, i).world.accounts, a).code)
  {
    hide CodeFrom, Sub128, Add128, WrapI128, StakeAdded, StakeRemoved, IndexOf;
    LookupCode(w, tx, vm, a);
    LookupCode(w, tx, vm, tx.from);
    LookupCode(w, tx, vm, tx.Target());
    if tx.kind.ContractDeploy? && vm.deploy.Some? { DeployedCode(w, tx, vm); }
  }

  lemma DeployedCode(w: World, tx: Tx, vm: VmAnswer)
    requires tx.kind.ContractDeploy? && vm.deploy.Some?
    ensures CodeFrom(w, tx, vm, Some(vm.deploy.value.code))
  {
  }

  lemma StepKeepsCode(w: World, s: Store, tx: Tx, vm: VmAnswer, number: nat, i: nat)
    requires CodeHeld(w.accounts, s)
    ensures CodeHeld(Step(w, tx, vm, number, i).world.accounts, StepStore(w, s, tx, vm))
  {
    var m, t := Step(w, tx, vm, number, i).world.accounts, StepStore(w, s, tx, vm);
    forall a | a in m && m[a].code.Some? ensures m[a].code.value in t.codes {
      if Accepted(w, tx) {
        hide Step, Accepted, Written;
        StepCode(w, tx, vm, number, i, a);
      }
    }
  }

  lemma {:induction false} BlockKeepsCode(w: World, s: Store, b: Block, vm: seq<VmAnswer>, k: nat)
    requires k <= |b.txs| == |vm| && CodeHeld(w.accounts, s)
    ensures CodeHeld(RunTxs(w, b, vm, k).accounts, RunStore(w, s, b, vm, k))
  {
    hide Step, StepStore, CodeHeld;
    if k > 0 {
      BlockKeepsCode(w, s, b, vm, k - 1);
      StepKeepsCode(RunTxs(w, b, vm, k - 1), RunStore(w, s, b, vm, k - 1), b.txs[k - 1], vm[k - 1], b.number, k - 1);
    }
  }

  /** Over every run, every contract account's code is stored, so a call always finds it. */
  lemma {:induction false} RunKeepsCode(c: Chain, p: Params, s: Store, run: Run, k: nat)
    requires k <= |run| && CodeHeld(c.accounts, s)
    ensures CodeHeld(After(c, p, run, k).accounts, StoreAfter(c, p, s, run, k))
  {
    hide RunTxs, RunStore, CodeHeld, Rebuilt;
    if k > 0 {
      RunKeepsCode(c, p, s, run, k - 1);
      var d, t := After(c, p, run, k - 1), run[k - 1];
      if Extends(d, t.block) {
        BlockKeepsCode(d.AsWorld(), StoreAfter(c, p, s, run, k - 1), t.block, t.vm, |t.block.txs|);
      }
    }
  }
}
