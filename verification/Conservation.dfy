/** Where the money goes in one transaction: the supply before equals the supply after plus the
    gas burned plus an exactly known loss. */
module Conservation {
  import opened Core
  import opened Ledger
  import opened Sums

  // ---- Sums over the account map and over the validator list ----

  ghost function SumBalances(m: Accounts): nat {
    SumNotNegative(m, BalanceIn);
    SumMap(m, BalanceIn)
  }

  function BalanceIn(a: Address, x: Account): int { x.balance }

  function SumStakes(vs: seq<Validator>): nat {
    if vs == [] then 0 else SumStakes(vs[..|vs| - 1]) + vs[|vs| - 1].stake
  }

  /** Everything held in accounts and stakes. */
  ghost function Supply(w: World): nat { SumBalances(w.accounts) + SumStakes(w.vs.validators) }

  lemma SumBalancesPut(m: Accounts, a: Address, x: Account)
    ensures SumBalances(m[a := x]) + Lookup(m, a).balance == SumBalances(m) + x.balance
  {
    SumPut(m, BalanceIn, a, x);
  }

  lemma SumBalancesSplit(m: Accounts, a: Address)
    requires a in m
    ensures SumBalances(m) == m[a].balance + SumBalances(m - {a})
  {
    SumSplit(m, BalanceIn, a);
  }

  lemma BalanceWithinSum(m: Accounts, a: Address)
    ensures Lookup(m, a).balance <= SumBalances(m)
  {
    if a in m { SumBalancesSplit(m, a); }
  }

  /** Two different accounts fit in the sum together. */
  lemma TwoBalancesWithinSum(m: Accounts, a: Address, b: Address)
    requires a != b
    ensures Lookup(m, a).balance + Lookup(m, b).balance <= SumBalances(m)
  {
    if a in m {
      SumBalancesSplit(m, a);
      BalanceWithinSum(m - {a}, b);
    } else {
      BalanceWithinSum(m, b);
    }
  }

  lemma {:induction false} SumStakesUpdate(vs: seq<Validator>, i: nat, v: Validator)
    requires i < |vs|
    ensures SumStakes(vs[i := v]) + vs[i].stake == SumStakes(vs) + v.stake
    ensures vs[i].stake <= SumStakes(vs)
  {
    var n := |vs| - 1;
    if i < n {
      assert vs[i := v][..n] == vs[..n][i := v];
      SumStakesUpdate(vs[..n], i, v);
    } else {
      assert vs[i := v][..n] == vs[..n];
    }
  }

  lemma SumStakesAppend(vs: seq<Validator>, v: Validator)
    ensures SumStakes(vs + [v]) == SumStakes(vs) + v.stake
  {
    assert (vs + [v])[..|vs|] == vs;
  }

  // ---- What a transaction burns and what it loses ----

  /** The total cost does not overflow 128 bits. */
  predicate InRange(tx: Tx) { tx.value + tx.MaxGasCost() < U128 }

  /** Every transaction except a contract run that succeeds. */
  predicate NoContractRun(w: World, tx: Tx, vm: VmAnswer) {
    && (tx.kind.ContractDeploy? ==> vm.deploy.None?)
    && (tx.kind.ContractCall? ==> (CallReturns(w, tx, vm) ==> !vm.call.value.status.Success?))
  }

  /** Gas units the sender pays for: the refund gives back the rest. */
  function GasCharged(w: World, tx: Tx, vm: VmAnswer): (g: nat)
    ensures g <= tx.gasLimit
  {
    if tx.kind.ContractDeploy? then
      if vm.deploy.Some? then Min(tx.gasLimit, vm.deploy.value.gasUsed) else tx.gasLimit
    else if tx.kind.ContractCall? then
      if CallReturns(w, tx, vm) then Min(tx.gasLimit, vm.call.value.gasUsed) else tx.gasLimit
    else Min(tx.gasLimit, BASE_GAS)
  }

  function Burned(w: World, tx: Tx, vm: VmAnswer): nat {
    if Accepted(w, tx) then GasCharged(w, tx, vm) * tx.gasPrice else 0
  }

  /** The refund before it is cut to 64 bits. */
  function FullRefund(w: World, tx: Tx, vm: VmAnswer): nat {
    (tx.gasLimit - GasCharged(w, tx, vm)) * tx.gasPrice
  }

  predicate SelfTransfer(tx: Tx) { tx.kind.Transfer? && tx.Target() == tx.from }

  /** Value that leaves the books: a transfer to oneself, and the high bits of the refund. */
  function Lost(w: World, tx: Tx, vm: VmAnswer): nat {
    if !Accepted(w, tx) then 0
    else (if SelfTransfer(tx) then tx.value else 0)
         + (FullRefund(w, tx, vm) - FullRefund(w, tx, vm) % U64)
  }

  lemma RefundIs(w: World, tx: Tx, vm: VmAnswer, used: u64)
    requires GasCharged(w, tx, vm) == Min(tx.gasLimit, used)
    ensures tx.Refund(used) == FullRefund(w, tx, vm) % U64
    ensures tx.MaxGasCost() == GasCharged(w, tx, vm) * tx.gasPrice + FullRefund(w, tx, vm)
  {
    var g := GasCharged(w, tx, vm);
    assert SatSub(tx.gasLimit, used) == tx.gasLimit - g;
    GasSplit(tx, g);
  }

  lemma NativeCharge(w: World, tx: Tx, vm: VmAnswer)
    requires tx.kind.Transfer? || tx.kind.Stake? || tx.kind.Unstake?
    ensures GasCharged(w, tx, vm) == Min(tx.gasLimit, BASE_GAS)
  {
  }

  lemma GasSplit(tx: Tx, g: nat)
    requires g <= tx.gasLimit
    ensures tx.MaxGasCost() == g * tx.gasPrice + (tx.gasLimit - g) * tx.gasPrice
  {
    assert tx.gasLimit * tx.gasPrice == (g + (tx.gasLimit - g)) * tx.gasPrice;
  }

  /** Replacing only the sender's account. */
  lemma SenderOnly(w: World, tx: Tx, x: Account, vs: ValidatorSet)
    ensures Supply(World(w.accounts[tx.from := x], vs)) + Lookup(w.accounts, tx.from).balance
         == SumBalances(w.accounts) + x.balance + SumStakes(vs.validators)
  {
    SumBalancesPut(w.accounts, tx.from, x);
  }

  // ---- Wrap-around, counted ----

  /** 1 when the 128-bit sum drops a carry. */
  function Carry(a: u128, b: u128): int { if a + b < U128 then 0 else 1 }

  /** 1 when the 128-bit difference borrows. */
  function Borrow(a: u128, b: u128): int { if b <= a then 0 else 1 }

  lemma CreditIs(x: Account, n: u128)
    ensures Credit(x, n).balance == x.balance + n - U128 * Carry(x.balance, n)
  {
  }

  lemma DebitIs(x: Account, n: u128)
    ensures Debit(x, n).balance == x.balance - n + U128 * Borrow(x.balance, n)
  {
  }

  /** Carries less borrows of the charge and the refund, for a sender who also pays the value or not. */
  function SenderWraps(w: World, tx: Tx, pays: bool, used: u64): int {
    var c := Charged(w, tx);
    var d := if pays then Debit(c, tx.value) else c;
    Carry(d.balance, tx.Refund(used)) - (if pays then Borrow(c.balance, tx.value) else 0)
    - Borrow(Lookup(w.accounts, tx.from).balance, tx.MaxGasCost())
  }

  /** Carries less borrows on the sender's balance. */
  function OwnWraps(w: World, tx: Tx, vm: VmAnswer): int {
    match tx.kind
    case Transfer => SenderWraps(w, tx, true, BASE_GAS)
    case Stake => SenderWraps(w, tx, true, BASE_GAS)
    case Unstake =>
      if !UnstakeEffect(w, tx).status.Success? then SenderWraps(w, tx, false, BASE_GAS)
      else var c := Charged(w, tx);
           Carry(c.balance, tx.value) + Carry(Credit(c, tx.value).balance, tx.Refund(BASE_GAS))
           - Borrow(Lookup(w.accounts, tx.from).balance, tx.MaxGasCost())
    case _ =>
      if CallReturns(w, tx, vm) && tx.kind.ContractCall? then SenderWraps(w, tx, false, vm.call.value.gasUsed)
      else 0 - Borrow(Lookup(w.accounts, tx.from).balance, tx.MaxGasCost())
  }

  /** Carries where the value arrives: at another account, or in the sender's stake. */
  function Arrival(w: World, tx: Tx): int {
    if tx.kind.Transfer? && !SelfTransfer(tx) then Carry(Lookup(w.accounts, tx.Target()).balance, tx.value)
    else if tx.kind.Stake? then Carry(StakeAt(w.vs.validators, tx.from), tx.value)
    else 0
  }

  /** Carries less borrows of an accepted transaction that end up in the books; they can cancel. */
  function Wraps(w: World, tx: Tx, vm: VmAnswer): int {
    if Accepted(w, tx) then OwnWraps(w, tx, vm) + Arrival(w, tx) else 0
  }

  /** What a sender is left with, wrap-arounds included. */
  lemma SenderBalance(w: World, tx: Tx, vm: VmAnswer, pays: bool, used: u64)
    requires GasCharged(w, tx, vm) == Min(tx.gasLimit, used)
    ensures Credit(if pays then Debit(Charged(w, tx), tx.value) else Charged(w, tx), tx.Refund(used)).balance
            + U128 * SenderWraps(w, tx, pays, used)
         == Lookup(w.accounts, tx.from).balance - (if pays then tx.value else 0)
            - GasCharged(w, tx, vm) * tx.gasPrice - (FullRefund(w, tx, vm) - FullRefund(w, tx, vm) % U64)
  {
    RefundIs(w, tx, vm, used);
    hide FullRefund, GasCharged, Tx.MaxGasCost, Tx.Refund;
    var c := Charged(w, tx);
    DebitIs(Lookup(w.accounts, tx.from), tx.MaxGasCost());
    DebitIs(c, tx.value);
    CreditIs(if pays then Debit(c, tx.value) else c, tx.Refund(used));
  }

  lemma TransferBooks(w: World, tx: Tx, vm: VmAnswer)
    requires tx.kind.Transfer? && Accepted(w, tx)
    ensures Supply(TransferEffect(w, tx).world) + Burned(w, tx, vm) + Lost(w, tx, vm) + U128 * Wraps(w, tx, vm)
         == Supply(w)
  {
    hide Charged, Debit, FullRefund, GasCharged, SumBalances, SumStakes, SenderWraps;
    NativeCharge(w, tx, vm);
    SenderBalance(w, tx, vm, true, BASE_GAS);
    var to, m := tx.Target(), w.accounts;
    var receiver := Credit(Lookup(m, to), tx.value);
    CreditIs(Lookup(m, to), tx.value);
    SumBalancesPut(m, to, receiver);
    SumBalancesPut(m[to := receiver], tx.from, Credit(Debit(Charged(w, tx), tx.value), tx.Refund(BASE_GAS)));
  }

  lemma StakeAddedSum(vs: ValidatorSet, tx: Tx)
    ensures SumStakes(StakeAdded(vs, tx).validators) + U128 * Carry(StakeAt(vs.validators, tx.from), tx.value)
         == SumStakes(vs.validators) + tx.value
  {
    hide IndexOf, ActiveSum;
    var list := vs.validators;
    var i := IndexOf(list, tx.from);
    if i < |list| {
      SumStakesUpdate(list, i, list[i].(stake := Add128(list[i].stake, tx.value), isActive := true));
    } else {
      SumStakesAppend(list, Validator(tx.from, tx.publicKey, tx.value, true, None));
    }
  }

  lemma StakeRemovedSum(vs: ValidatorSet, i: nat, amount: u128)
    requires i < |vs.validators| && amount <= vs.validators[i].stake
    ensures SumStakes(StakeRemoved(vs, i, amount).validators) + amount == SumStakes(vs.validators)
  {
    var v := vs.validators[i];
    var left := v.stake - amount;
    SumStakesUpdate(vs.validators, i, v.(stake := left, isActive := v.isActive && left >= vs.minStake));
  }

  lemma StakeBooks(w: World, tx: Tx, vm: VmAnswer)
    requires tx.kind.Stake? && Accepted(w, tx)
    ensures Supply(StakeEffect(w, tx).world) + Burned(w, tx, vm) + Lost(w, tx, vm) + U128 * Wraps(w, tx, vm)
         == Supply(w)
  {
    hide Charged, Credit, Debit, FullRefund, GasCharged, SumBalances, SumStakes, StakeAdded, SenderWraps,
         Carry, IndexOf;
    NativeCharge(w, tx, vm);
    SenderBalance(w, tx, vm, true, BASE_GAS);
    StakeAddedSum(w.vs, tx);
    SenderOnly(w, tx, Credit(Debit(Charged(w, tx), tx.value), tx.Refund(BASE_GAS)), StakeAdded(w.vs, tx));
  }

  lemma UnstakeBooks(w: World, tx: Tx, vm: VmAnswer)
    requires tx.kind.Unstake? && Accepted(w, tx)
    ensures Supply(UnstakeEffect(w, tx).world) + Burned(w, tx, vm) + Lost(w, tx, vm) + U128 * Wraps(w, tx, vm)
         == Supply(w)
  {
    hide FullRefund, GasCharged, SumBalances, SumStakes, StakeRemoved, IndexOf, Tx.MaxGasCost, Tx.Refund, SenderWraps;
    NativeCharge(w, tx, vm);
    var i, c := IndexOf(w.vs.validators, tx.from), Charged(w, tx);
    if UnstakeEffect(w, tx).status.Success? {
      StakeRemovedSum(w.vs, i, tx.value);
      RefundIs(w, tx, vm, BASE_GAS);
      DebitIs(Lookup(w.accounts, tx.from), tx.MaxGasCost());
      CreditIs(c, tx.value);
      CreditIs(Credit(c, tx.value), tx.Refund(BASE_GAS));
      SenderOnly(w, tx, Credit(Credit(c, tx.value), tx.Refund(BASE_GAS)), StakeRemoved(w.vs, i, tx.value));
    } else {
      SenderBalance(w, tx, vm, false, BASE_GAS);
      SenderOnly(w, tx, Credit(c, tx.Refund(BASE_GAS)), w.vs);
    }
  }

  lemma ContractBooks(w: World, tx: Tx, vm: VmAnswer)
    requires (tx.kind.ContractDeploy? || tx.kind.ContractCall?) && NoContractRun(w, tx, vm) && Accepted(w, tx)
    ensures Supply(EffectOf(w, tx, vm).world) + Burned(w, tx, vm) + Lost(w, tx, vm) + U128 * Wraps(w, tx, vm)
         == Supply(w)
  {
    hide SumBalances, SumStakes, SenderWraps, Tx.Refund;
    var sender := Charged(w, tx);
    if tx.kind.ContractCall? && CallReturns(w, tx, vm) {
      SenderBalance(w, tx, vm, false, vm.call.value.gasUsed);
      SenderOnly(w, tx, Credit(sender, tx.Refund(vm.call.value.gasUsed)), w.vs);
    } else {
      GasSplit(tx, tx.gasLimit);
      DebitIs(Lookup(w.accounts, tx.from), tx.MaxGasCost());
      SenderOnly(w, tx, sender, w.vs);
    }
  }

  /** The books balance over every transaction, accepted or not, with wrap-arounds counted. */
  lemma StepBooks(w: World, tx: Tx, vm: VmAnswer, number: nat, i: nat)
    requires NoContractRun(w, tx, vm)
    ensures Supply(Step(w, tx, vm, number, i).world) + Burned(w, tx, vm) + Lost(w, tx, vm) + U128 * Wraps(w, tx, vm)
         == Supply(w)
  {
    hide Supply, TransferEffect, DeployEffect, CallEffect, StakeEffect, UnstakeEffect, Accepted, GasCharged, FullRefund;
    if Accepted(w, tx) {
      match tx.kind
      case Transfer => TransferBooks(w, tx, vm);
      case Stake => StakeBooks(w, tx, vm);
      case Unstake => UnstakeBooks(w, tx, vm);
      case _ => ContractBooks(w, tx, vm);
    }
  }
}
