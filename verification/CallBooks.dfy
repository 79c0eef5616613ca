/** Conservation through contract calls and deployments that succeed: the virtual machine's deltas applied to
    the ledger. */
module CallBooks {
  import opened Core
  import opened Ledger
  import opened Conservation
  import opened Solvency
  import opened Sums
  import Journal

  /** Applying the delta neither wraps nor clamps. */
  predicate Plain(x: Account, delta: int) { x.balance < U127 && 0 <= x.balance + delta < U127 }

  predicate Unclamped(m: Accounts, deltas: map<Address, int>) {
    forall a :: a in deltas ==> Plain(Lookup(m, a), deltas[a])
  }

  /** A delta is added, clamped at zero, to a balance below 2^127; nothing else of the account changes. */
  lemma DeltaIs(x: Account, delta: int)
    requires x.balance < U127 && 0 - U127 <= x.balance + delta < U127
    ensures ApplyDelta(x, delta) == x.(balance := if x.balance + delta < 0 then 0 else x.balance + delta)
  {
  }

  lemma ApplyDeltaIs(x: Account, delta: int)
    requires Plain(x, delta)
    ensures ApplyDelta(x, delta).balance == x.balance + delta
  {
  }

  lemma AppliedAt(m: Accounts, deltas: map<Address, int>, a: Address)
    requires Unclamped(m, deltas)
    ensures Lookup(ApplyDeltas(m, deltas), a).balance == Lookup(m, a).balance + Journal.Delta(deltas, a)
  {
    hide ApplyDelta;
    if a in deltas { ApplyDeltaIs(Lookup(m, a), deltas[a]); }
  }

  /** The deltas change the balances by their sum. */
  lemma {:induction false} AppliedSum(m: Accounts, deltas: map<Address, int>)
    requires Unclamped(m, deltas)
    ensures SumBalances(ApplyDeltas(m, deltas)) == SumBalances(m) + Journal.SumDeltas(deltas)
    decreases |deltas|
  {
    hide SumBalances, ApplyDelta, Plain, Lookup;
    if a :| a in deltas {
      var rest := deltas - {a};
      AppliedSum(m, rest);
      SumSplit(deltas, Journal.Owed, a);
      var x := ApplyDelta(Lookup(m, a), deltas[a]);
      ApplyDeltaIs(Lookup(m, a), deltas[a]);
      ApplyOne(m, deltas, a);
      SumBalancesPut(ApplyDeltas(m, rest), a, x);
    } else {
      NoDeltas(m, deltas);
      NoRows(deltas, Journal.Owed);
    }
  }

  /** A contract call that succeeds. */
  predicate Runs(w: World, tx: Tx, vm: VmAnswer) {
    tx.kind.ContractCall? && Accepted(w, tx) && CallReturns(w, tx, vm) && vm.call.value.status.Success?
  }

  /** The books of a successful call: the sender's own delta is overwritten, the others arrive. */
  lemma RunBooks(w: World, tx: Tx, vm: VmAnswer, number: nat, i: nat)
    requires Runs(w, tx, vm) && Unclamped(w.accounts, vm.call.value.deltas)
    ensures Supply(Step(w, tx, vm, number, i).world) + Burned(w, tx, vm) + Lost(w, tx, vm)
            + Journal.Delta(vm.call.value.deltas, tx.from) + U128 * SenderWraps(w, tx, false, vm.call.value.gasUsed)
         == Supply(w) + Journal.SumDeltas(vm.call.value.deltas)
  {
    hide SumBalances, SumStakes, SenderWraps, Tx.Refund, Charged, Credit, ApplyDeltas, FullRefund, GasCharged,
         Journal.SumDeltas, Unclamped;
    var d, used := vm.call.value.deltas, vm.call.value.gasUsed;
    var m := ApplyDeltas(w.accounts, d);
    var sender := Credit(Charged(w, tx), tx.Refund(used));
    CallCharge(w, tx, vm);
    SenderBalance(w, tx, vm, false, used);
    AppliedSum(w.accounts, d);
    AppliedAt(w.accounts, d, tx.from);
    SumBalancesPut(m, tx.from, sender);
    StepIs(w, tx, vm, number, i);
  }

  lemma CallCharge(w: World, tx: Tx, vm: VmAnswer)
    requires tx.kind.ContractCall? && CallReturns(w, tx, vm)
    ensures GasCharged(w, tx, vm) == Min(tx.gasLimit, vm.call.value.gasUsed)
    ensures !SelfTransfer(tx)
  {
  }

  lemma StepIs(w: World, tx: Tx, vm: VmAnswer, number: nat, i: nat)
    requires Runs(w, tx, vm)
    ensures Step(w, tx, vm, number, i).world
         == w.(accounts := ApplyDeltas(w.accounts, vm.call.value.deltas)
                             [tx.from := Credit(Charged(w, tx), tx.Refund(vm.call.value.gasUsed))])
  {
    hide ApplyDeltas, Charged, Credit, Tx.Refund;
  }

  /** A successful call, account by account: the sender pays the gas, the deltas of the others arrive. */
  lemma CallMoves(w: World, tx: Tx, vm: VmAnswer, number: nat, i: nat, a: Address)
    requires Runs(w, tx, vm) && !Overdrawn(w, tx, vm)
    ensures var d, t := vm.call.value.deltas, Step(w, tx, vm, number, i).world;
            && t.vs == w.vs
            && BalanceOf(t, tx.from) == BalanceOf(w, tx.from) - tx.MaxGasCost() + tx.Refund(vm.call.value.gasUsed)
            && (a != tx.from ==> var x := Lookup(w.accounts, a);
                                 Lookup(t.accounts, a) == if a in d then ApplyDelta(x, d[a]) else x)
  {
    hide ApplyDelta, Tx.MaxGasCost, Tx.Refund;
    RefundWithin(tx, vm.call.value.gasUsed);
    SenderWrappedIff(w, tx, false, vm.call.value.gasUsed);
  }

  // ---- Deployments ----

  /** A deployment that succeeds. */
  predicate Deploys(w: World, tx: Tx, vm: VmAnswer) {
    tx.kind.ContractDeploy? && Accepted(w, tx) && vm.deploy.Some?
  }

  function Created(tx: Tx, d: Deployment): Account { Account(d.contract, tx.value, 0, Some(d.code)) }

  /** What goes with the account that the contract replaces; a contract on the sender's own address is itself
      replaced by the sender's copy. */
  function Replaced(w: World, tx: Tx, d: Deployment): nat {
    if d.contract == tx.from then tx.value else Lookup(w.accounts, d.contract).balance
  }

  /** A successful deployment, account by account: the sender pays the value and the gas, the contract starts
      with the value, a fresh nonce and its code, the deltas arrive, and nothing else changes. */
  lemma DeployMoves(w: World, tx: Tx, vm: VmAnswer, number: nat, i: nat, a: Address)
    requires Deploys(w, tx, vm) && !Overdrawn(w, tx, vm)
    ensures var d, t := vm.deploy.value, Step(w, tx, vm, number, i).world;
            && t.vs == w.vs
            && BalanceOf(t, tx.from) == BalanceOf(w, tx.from) - tx.value - tx.MaxGasCost() + tx.Refund(d.gasUsed)
            && (a != tx.from ==> var x := if a == d.contract then Created(tx, d) else Lookup(w.accounts, a);
                                 Lookup(t.accounts, a) == if a in d.deltas then ApplyDelta(x, d.deltas[a]) else x)
  {
    hide ApplyDelta, Tx.MaxGasCost, Tx.Refund;
    RefundWithin(tx, vm.deploy.value.gasUsed);
    SenderWrappedIff(w, tx, true, vm.deploy.value.gasUsed);
  }

  lemma DeployCharge(w: World, tx: Tx, vm: VmAnswer)
    requires tx.kind.ContractDeploy? && vm.deploy.Some?
    ensures GasCharged(w, tx, vm) == Min(tx.gasLimit, vm.deploy.value.gasUsed) && !SelfTransfer(tx)
  {
  }

  lemma DeployStepIs(w: World, tx: Tx, vm: VmAnswer, number: nat, i: nat)
    requires Deploys(w, tx, vm)
    ensures var d := vm.deploy.value;
            var sender := Credit(Debit(Charged(w, tx), tx.value), tx.Refund(d.gasUsed));
            var created := w.accounts[d.contract := Created(tx, d)];
            Step(w, tx, vm, number, i).world == w.(accounts := ApplyDeltas(created, d.deltas)[tx.from := sender])
  {
    hide ApplyDeltas, Charged, Credit, Debit, Tx.Refund;
  }

  /** The books of a successful deployment. */
  lemma DeployBooks(w: World, tx: Tx, vm: VmAnswer, number: nat, i: nat)
    requires Deploys(w, tx, vm)
    requires var d := vm.deploy.value; Unclamped(w.accounts[d.contract := Created(tx, d)], d.deltas)
    ensures Supply(Step(w, tx, vm, number, i).world) + Burned(w, tx, vm) + Lost(w, tx, vm)
            + Replaced(w, tx, vm.deploy.value) + Journal.Delta(vm.deploy.value.deltas, tx.from)
            + U128 * SenderWraps(w, tx, true, vm.deploy.value.gasUsed)
         == Supply(w) + Journal.SumDeltas(vm.deploy.value.deltas)
  {
    hide SumBalances, SumStakes, SenderWraps, Tx.Refund, Charged, Credit, Debit, ApplyDeltas, FullRefund, GasCharged,
         Journal.SumDeltas, Unclamped;
    var d := vm.deploy.value;
    var created := w.accounts[d.contract := Created(tx, d)];
    var sender := Credit(Debit(Charged(w, tx), tx.value), tx.Refund(d.gasUsed));
    DeployCharge(w, tx, vm);
    SenderBalance(w, tx, vm, true, d.gasUsed);
    SumBalancesPut(w.accounts, d.contract, Created(tx, d));
    AppliedSum(created, d.deltas);
    AppliedAt(created, d.deltas, tx.from);
    SumBalancesPut(ApplyDeltas(created, d.deltas), tx.from, sender);
    DeployStepIs(w, tx, vm, number, i);
  }

  /** So a deployment with journaled deltas that are not clamped conserves the supply exactly when the balance
      that the contract replaces makes up for the sender's own delta, as when there is neither. */
  lemma DeployConservesIff(w: World, tx: Tx, vm: VmAnswer, base: Journal.Balances, ms: seq<Journal.Move>,
                           number: nat, i: nat)
    requires Deploys(w, tx, vm) && !Overdrawn(w, tx, vm)
    requires var d := vm.deploy.value; Unclamped(w.accounts[d.contract := Created(tx, d)], d.deltas)
    requires Journal.Total(base) < U127 && vm.deploy.value.deltas == Journal.DeltasAfter(base, ms, |ms|)
    ensures Supply(Step(w, tx, vm, number, i).world) + Burned(w, tx, vm) + Lost(w, tx, vm) == Supply(w)
       <==> Replaced(w, tx, vm.deploy.value) + Journal.Delta(vm.deploy.value.deltas, tx.from) == 0
  {
    DeployerUnwrapped(w, tx, vm);
    hide *;
    DeployBooks(w, tx, vm, number, i);
    Journal.TransfersAgree(base, ms, |ms|);
  }

  lemma DeployerUnwrapped(w: World, tx: Tx, vm: VmAnswer)
    requires Deploys(w, tx, vm) && !Overdrawn(w, tx, vm)
    ensures SenderWraps(w, tx, true, vm.deploy.value.gasUsed) == 0
  {
    hide Tx.MaxGasCost, Tx.Refund;
    SenderWrappedIff(w, tx, true, vm.deploy.value.gasUsed);
  }

  // ---- Deltas of the journal ----

  function BalancesOf(m: Accounts): Journal.Balances { map a | a in m :: m[a].balance }

  lemma TotalOf(m: Accounts)
    ensures Journal.Total(BalancesOf(m)) == SumBalances(m)
  {
    SumAgree(BalancesOf(m), m, Journal.Held, BalanceIn);
  }

  /** Transfers journaled over the ledger's own balances, with less than 2^127 in all, are never clamped. */
  lemma JournaledUnclamped(m: Accounts, ms: seq<Journal.Move>)
    requires SumBalances(m) < U127
    ensures Unclamped(m, Journal.DeltasAfter(BalancesOf(m), ms, |ms|))
  {
    hide SumBalances, Journal.Total, Journal.DeltasAfter, Journal.DirectAfter;
    var base, d := BalancesOf(m), Journal.DeltasAfter(BalancesOf(m), ms, |ms|);
    var b := Journal.DirectAfter(base, ms, |ms|);
    TotalOf(m);
    Journal.TransfersAgree(base, ms, |ms|);
    forall a | a in d ensures Plain(Lookup(m, a), d[a]) {
      BalanceWithinSum(m, a);
      Journal.WithinTotal(b, a);
      assert Journal.Base(b, a) == Journal.Base(base, a) + Journal.Delta(d, a);
    }
  }

  /** So a call whose deltas were journaled over any balances with less than 2^127 in all, and that are
      not clamped here, conserves the supply exactly when the sender's own delta is zero. */
  lemma CallConservesIff(w: World, tx: Tx, vm: VmAnswer, base: Journal.Balances, ms: seq<Journal.Move>,
                         number: nat, i: nat)
    requires Runs(w, tx, vm) && !Overdrawn(w, tx, vm) && Unclamped(w.accounts, vm.call.value.deltas)
    requires Journal.Total(base) < U127 && vm.call.value.deltas == Journal.DeltasAfter(base, ms, |ms|)
    ensures Supply(Step(w, tx, vm, number, i).world) + Burned(w, tx, vm) + Lost(w, tx, vm) == Supply(w)
       <==> Journal.Delta(vm.call.value.deltas, tx.from) == 0
  {
    SenderUnwrapped(w, tx, vm);
    hide *;
    RunBooks(w, tx, vm, number, i);
    Journal.TransfersAgree(base, ms, |ms|);
  }

  lemma SenderUnwrapped(w: World, tx: Tx, vm: VmAnswer)
    requires Runs(w, tx, vm) && !Overdrawn(w, tx, vm)
    ensures SenderWraps(w, tx, false, vm.call.value.gasUsed) == 0
  {
    hide Tx.MaxGasCost, Tx.Refund;
    SenderWrappedIff(w, tx, false, vm.call.value.gasUsed);
  }
}
