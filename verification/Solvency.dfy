/** When the machine arithmetic of a transaction is exact: which 128-bit operations wrap around, exactly when
    a transaction conserves the supply, and exactly when it moves what it says. */
module Solvency {
  import opened Core
  import opened Ledger
  import opened Conservation

  // ---- Which operations wrap around ----

  /** Some 128-bit operation on the sender's copy wraps: the charge, the payment or the refund. */
  predicate SenderWrapped(w: World, tx: Tx, pays: bool, used: u64) {
    var c := Charged(w, tx);
    var d := if pays then Debit(c, tx.value) else c;
    || Lookup(w.accounts, tx.from).balance < tx.MaxGasCost()
    || (pays && c.balance < tx.value)
    || d.balance + tx.Refund(used) >= U128
  }

  /** Some 128-bit operation of the step whose result is kept wraps around. */
  predicate Wrapped(w: World, tx: Tx, vm: VmAnswer) {
    Accepted(w, tx) &&
    match tx.kind
    case Transfer =>
      || SenderWrapped(w, tx, true, BASE_GAS)
      || (!SelfTransfer(tx) && Lookup(w.accounts, tx.Target()).balance + tx.value >= U128)
    case Stake =>
      || SenderWrapped(w, tx, true, BASE_GAS)
      || StakeAt(w.vs.validators, tx.from) + tx.value >= U128
    case Unstake =>
      if !UnstakeEffect(w, tx).status.Success? then SenderWrapped(w, tx, false, BASE_GAS)
      else
        var c := Charged(w, tx);
        || Lookup(w.accounts, tx.from).balance < tx.MaxGasCost()
        || c.balance + tx.value >= U128
        || Credit(c, tx.value).balance + tx.Refund(BASE_GAS) >= U128
    case ContractDeploy =>
      if vm.deploy.Some? then SenderWrapped(w, tx, true, vm.deploy.value.gasUsed)
      else Lookup(w.accounts, tx.from).balance < tx.MaxGasCost()
    case ContractCall =>
      if CallReturns(w, tx, vm) then SenderWrapped(w, tx, false, vm.call.value.gasUsed)
      else Lookup(w.accounts, tx.from).balance < tx.MaxGasCost()
  }

  /** The value leaves the sender's balance. */
  predicate Pays(tx: Tx, vm: VmAnswer) {
    tx.kind.Transfer? || tx.kind.Stake? || (tx.kind.ContractDeploy? && vm.deploy.Some?)
  }

  /** An accepted transaction costs more than the sender has: its real cost, before any wrap-around. */
  predicate Overdrawn(w: World, tx: Tx, vm: VmAnswer) {
    Accepted(w, tx) && (if Pays(tx, vm) then tx.value else 0) + tx.MaxGasCost() > Lookup(w.accounts, tx.from).balance
  }

  lemma RefundWithin(tx: Tx, used: u64)
    ensures tx.Refund(used) <= tx.MaxGasCost()
  {
    GasSplit(tx, SatSub(tx.gasLimit, used));
  }

  /** An operation on the sender's copy wraps exactly when the cost exceeds the balance. */
  lemma SenderWrappedIff(w: World, tx: Tx, pays: bool, used: u64)
    ensures SenderWrapped(w, tx, pays, used) <==>
            (if pays then tx.value else 0) + tx.MaxGasCost() > Lookup(w.accounts, tx.from).balance
  {
    RefundWithin(tx, used);
    hide Tx.MaxGasCost, Tx.Refund;
  }

  /** For a transaction that pays its value, that is exactly a total cost past 128 bits. */
  lemma OverdrawnIff(w: World, tx: Tx, vm: VmAnswer)
    requires Accepted(w, tx)
    ensures Pays(tx, vm) ==> (Overdrawn(w, tx, vm) <==> !InRange(tx))
    ensures InRange(tx) ==> !Overdrawn(w, tx, vm)
  {
    hide Tx.MaxGasCost;
  }

  /** What else is added up stays within the supply. */
  lemma SumsWithin(w: World, tx: Tx)
    requires Supply(w) < U128
    ensures !SelfTransfer(tx) && tx.kind.Transfer? ==>
              Lookup(w.accounts, tx.from).balance + Lookup(w.accounts, tx.Target()).balance < U128
    ensures Lookup(w.accounts, tx.from).balance + StakeAt(w.vs.validators, tx.from) < U128
  {
    hide SumBalances, SumStakes, IndexOf;
    BalanceWithinSum(w.accounts, tx.from);
    if tx.Target() != tx.from { TwoBalancesWithinSum(w.accounts, tx.from, tx.Target()); }
    var i := IndexOf(w.vs.validators, tx.from);
    if i < |w.vs.validators| { SumStakesUpdate(w.vs.validators, i, w.vs.validators[i]); }
  }

  /** With less than 2^128 in all, some operation of the step wraps exactly when it is overdrawn. */
  lemma WrappedIff(w: World, tx: Tx, vm: VmAnswer)
    requires Supply(w) < U128
    ensures Wrapped(w, tx, vm) <==> Overdrawn(w, tx, vm)
  {
    SumsWithin(w, tx);
    hide Supply, SenderWrapped, IndexOf, StakeRemoved, Accepted;
    match tx.kind
    case Transfer => hide Tx.MaxGasCost, Tx.Refund; SenderWrappedIff(w, tx, true, BASE_GAS);
    case Stake => hide Tx.MaxGasCost, Tx.Refund, StakeAt; SenderWrappedIff(w, tx, true, BASE_GAS);
    case Unstake => UnstakeWrappedIff(w, tx, vm);
    case ContractDeploy => if vm.deploy.Some? { SenderWrappedIff(w, tx, true, vm.deploy.value.gasUsed); }
    case ContractCall => if CallReturns(w, tx, vm) { SenderWrappedIff(w, tx, false, vm.call.value.gasUsed); }
  }

  lemma UnstakeWrappedIff(w: World, tx: Tx, vm: VmAnswer)
    requires tx.kind.Unstake? && Supply(w) < U128
    ensures Wrapped(w, tx, vm) <==> Overdrawn(w, tx, vm)
  {
    SumsWithin(w, tx);
    RefundWithin(tx, BASE_GAS);
    SenderWrappedIff(w, tx, false, BASE_GAS);
    hide Supply, SenderWrapped, IndexOf, StakeRemoved, Tx.MaxGasCost, Tx.Refund;
  }

  /** So with a total cost in range nothing wraps around. */
  lemma InRangeNeverWraps(w: World, tx: Tx, vm: VmAnswer)
    requires InRange(tx) && Supply(w) < U128
    ensures !Wrapped(w, tx, vm)
  {
    hide Supply, Wrapped;
    WrappedIff(w, tx, vm);
    if Accepted(w, tx) { OverdrawnIff(w, tx, vm); }
  }

  // ---- Where the sender ends ----

  function BalanceOf(w: World, a: Address): nat { Lookup(w.accounts, a).balance }

  /** Stake that comes back to the sender. */
  function Back(w: World, tx: Tx): nat {
    if tx.kind.Unstake? && UnstakeEffect(w, tx).status.Success? then tx.value else 0
  }

  /** The sender's balance in exact arithmetic: less the value and the gas, plus the refund and the stake given back. */
  function Ends(w: World, tx: Tx, vm: VmAnswer): int {
    BalanceOf(w, tx.from) + Back(w, tx) - (if Pays(tx, vm) then tx.value else 0)
    - tx.MaxGasCost() + Refunded(w, tx, vm)
  }

  lemma BackWithin(w: World, tx: Tx)
    ensures Back(w, tx) <= StakeAt(w.vs.validators, tx.from)
  {
    hide IndexOf, StakeRemoved, Tx.MaxGasCost, Tx.Refund;
  }

  /** The part of the refund that comes back. */
  function Refunded(w: World, tx: Tx, vm: VmAnswer): u64 { FullRefund(w, tx, vm) % U64 }

  lemma RefundedWithin(w: World, tx: Tx, vm: VmAnswer)
    ensures Refunded(w, tx, vm) <= tx.MaxGasCost()
  {
    GasSplit(tx, GasCharged(w, tx, vm));
    hide GasCharged, Tx.MaxGasCost;
  }

  /** An accepted cost is short of the balance by less than one wrap-around. */
  lemma EndsRange(w: World, tx: Tx, vm: VmAnswer)
    requires Accepted(w, tx) && Supply(w) < U128
    ensures 0 - U128 <= Ends(w, tx, vm) < U128
    ensures Ends(w, tx, vm) >= 0 && Pays(tx, vm) ==> tx.value <= BalanceOf(w, tx.from)
  {
    SumsWithin(w, tx);
    BackWithin(w, tx);
    RefundedWithin(w, tx, vm);
    hide Supply, Back, StakeAt, Refunded, Tx.MaxGasCost;
  }

  /** What a payment and a refund leave: the exact amount, up to wrap-arounds. */
  lemma PaidAndRefunded(w: World, tx: Tx, vm: VmAnswer, pays: bool, used: u64)
    requires GasCharged(w, tx, vm) == Min(tx.gasLimit, used)
    ensures Credit(if pays then Debit(Charged(w, tx), tx.value) else Charged(w, tx), tx.Refund(used)).balance
            + U128 * SenderWraps(w, tx, pays, used)
         == BalanceOf(w, tx.from) - (if pays then tx.value else 0) - tx.MaxGasCost() + Refunded(w, tx, vm)
  {
    hide SenderWraps, Charged, Debit, Credit, FullRefund, Tx.MaxGasCost, Tx.Refund;
    SenderBalance(w, tx, vm, pays, used);
    RefundIs(w, tx, vm, used);
  }

  lemma UnstakerEnds(w: World, tx: Tx, vm: VmAnswer)
    requires tx.kind.Unstake?
    ensures BalanceOf(UnstakeEffect(w, tx).world, tx.from) + U128 * OwnWraps(w, tx, vm) == Ends(w, tx, vm)
  {
    hide SenderWraps, FullRefund, GasCharged, Tx.MaxGasCost, Tx.Refund, StakeRemoved, IndexOf;
    NativeCharge(w, tx, vm);
    if UnstakeEffect(w, tx).status.Success? {
      var c := Charged(w, tx);
      RefundIs(w, tx, vm, BASE_GAS);
      DebitIs(Lookup(w.accounts, tx.from), tx.MaxGasCost());
      CreditIs(c, tx.value);
      CreditIs(Credit(c, tx.value), tx.Refund(BASE_GAS));
    } else {
      PaidAndRefunded(w, tx, vm, false, BASE_GAS);
    }
  }

  lemma CallerEnds(w: World, tx: Tx, vm: VmAnswer)
    requires (tx.kind.ContractDeploy? || tx.kind.ContractCall?) && NoContractRun(w, tx, vm)
    ensures BalanceOf(EffectOf(w, tx, vm).world, tx.from) + U128 * OwnWraps(w, tx, vm) == Ends(w, tx, vm)
  {
    hide SenderWraps, Tx.Refund;
    if tx.kind.ContractCall? && CallReturns(w, tx, vm) {
      hide FullRefund, Tx.MaxGasCost;
      PaidAndRefunded(w, tx, vm, false, vm.call.value.gasUsed);
    } else {
      GasSplit(tx, tx.gasLimit);
      DebitIs(Lookup(w.accounts, tx.from), tx.MaxGasCost());
    }
  }

  /** Every transaction leaves the sender with the exact amount, up to wrap-arounds. */
  lemma SenderEnds(w: World, tx: Tx, vm: VmAnswer)
    requires NoContractRun(w, tx, vm)
    ensures BalanceOf(EffectOf(w, tx, vm).world, tx.from) + U128 * OwnWraps(w, tx, vm) == Ends(w, tx, vm)
  {
    hide SenderWraps, Refunded, Charged, Debit, Credit, Tx.MaxGasCost, Tx.Refund, StakeAdded, UnstakeEffect;
    match tx.kind
    case Transfer => NativeCharge(w, tx, vm); PaidAndRefunded(w, tx, vm, true, BASE_GAS);
    case Stake => NativeCharge(w, tx, vm); PaidAndRefunded(w, tx, vm, true, BASE_GAS);
    case Unstake => UnstakerEnds(w, tx, vm);
    case _ => CallerEnds(w, tx, vm);
  }

  /** So an accepted sender ends right exactly when the exact amount is not negative. */
  lemma SenderEndsIff(w: World, tx: Tx, vm: VmAnswer)
    requires NoContractRun(w, tx, vm) && Accepted(w, tx) && Supply(w) < U128
    ensures BalanceOf(EffectOf(w, tx, vm).world, tx.from) == Ends(w, tx, vm) <==> Ends(w, tx, vm) >= 0
    ensures OwnWraps(w, tx, vm) == if Ends(w, tx, vm) >= 0 then 0 else -1
  {
    hide EffectOf, OwnWraps, Ends, Supply, Accepted;
    SenderEnds(w, tx, vm);
    EndsRange(w, tx, vm);
  }

  // ---- Conservation ----

  /** A rejected transaction, one whose sender ends right, or one where the 2^128 that the sender is short of
      is lost again where the value arrives. */
  predicate Fits(w: World, tx: Tx, vm: VmAnswer) {
    Accepted(w, tx) ==> Ends(w, tx, vm) >= 0 || Arrival(w, tx) == 1
  }

  lemma FitsIff(w: World, tx: Tx, vm: VmAnswer)
    requires NoContractRun(w, tx, vm) && Supply(w) < U128
    ensures Fits(w, tx, vm) <==> Wraps(w, tx, vm) == 0
  {
    if Accepted(w, tx) {
      SenderEndsIff(w, tx, vm);
      EndsRange(w, tx, vm);
      SumsWithin(w, tx);
      hide OwnWraps, Ends, Supply, StakeAt;
    }
  }

  lemma SolventFits(w: World, tx: Tx, vm: VmAnswer)
    requires !Overdrawn(w, tx, vm)
    ensures Fits(w, tx, vm)
  {
    hide Refunded, Tx.MaxGasCost, Arrival;
  }

  /** Exactly which transactions conserve the supply, up to gas burned and value lost: those that fit. */
  lemma StepConservesIff(w: World, tx: Tx, vm: VmAnswer, number: nat, i: nat)
    requires NoContractRun(w, tx, vm) && Supply(w) < U128
    ensures Supply(Step(w, tx, vm, number, i).world) + Burned(w, tx, vm) + Lost(w, tx, vm) == Supply(w)
       <==> Fits(w, tx, vm)
  {
    hide *;
    StepBooks(w, tx, vm, number, i);
    FitsIff(w, tx, vm);
  }

  /** In particular those with a total cost in range. */
  lemma StepConserves(w: World, tx: Tx, vm: VmAnswer, number: nat, i: nat)
    requires NoContractRun(w, tx, vm) && InRange(tx) && Supply(w) < U128
    ensures Supply(Step(w, tx, vm, number, i).world) + Burned(w, tx, vm) + Lost(w, tx, vm) == Supply(w)
  {
    if Accepted(w, tx) { OverdrawnIff(w, tx, vm); }
    assert !Overdrawn(w, tx, vm);
    hide *;
    SolventFits(w, tx, vm);
    StepConservesIff(w, tx, vm, number, i);
  }

  /** And exactly which of them lose nothing: no self-transfer of value, and a refund that fits 64 bits. */
  lemma NothingLostIff(w: World, tx: Tx, vm: VmAnswer, number: nat, i: nat)
    requires NoContractRun(w, tx, vm) && Supply(w) < U128 && Accepted(w, tx) && Fits(w, tx, vm)
    ensures Supply(Step(w, tx, vm, number, i).world) + Burned(w, tx, vm) == Supply(w)
       <==> !(SelfTransfer(tx) && tx.value > 0) && FullRefund(w, tx, vm) < U64
  {
    hide Step, Supply, Burned, FullRefund, Fits;
    StepConservesIff(w, tx, vm, number, i);
  }

  /** Why the cost must be in range: past 128 bits an empty account pays out what it does not have. */
  lemma OutOfRangeMints(from: Address, to: Address)
    requires from != to
    ensures var tx := Tx(Hash(0), 0, from, Some(to), U128 - 1, Transfer, 1, 1, 0, []);
            var w := World(map[], ValidatorSet([], 0, 0, 0));
            && !InRange(tx) && Accepted(w, tx) && Supply(w) == 0
            && Lookup(TransferEffect(w, tx).world.accounts, to).balance == U128 - 1
  {
  }

  /** There the receiver can also pay the gas: the borrow at the charge and the carry at the credit cancel. */
  lemma ReceiverPays(from: Address, to: Address, vm: VmAnswer)
    requires from != to
    ensures var tx := Tx(Hash(0), 0, from, Some(to), U128 - 1, Transfer, 1, 1, 0, []);
            var w := World(map[to := Account(to, 100, 0, None)], ValidatorSet([], 0, 0, 0));
            && Accepted(w, tx) && Wrapped(w, tx, vm) && Wraps(w, tx, vm) == 0 && Lost(w, tx, vm) == 0
            && Lookup(TransferEffect(w, tx).world.accounts, to).balance == 99
            && Lookup(TransferEffect(w, tx).world.accounts, from).balance == 0
  {
  }

  /** And a cost past 128 bits can still end right: what counts is the balance after the refund. */
  lemma OutOfRangeEndsRight(from: Address, to: Address, vm: VmAnswer)
    requires from != to
    ensures var tx := Tx(Hash(0), 0, from, Some(to), U128 - 30000, Transfer, 30000, 1, 0, []);
            var w := World(map[from := Account(from, U128 - 1, 0, None)], ValidatorSet([], 0, 0, 0));
            && !InRange(tx) && Accepted(w, tx) && Wrapped(w, tx, vm) && Ends(w, tx, vm) == 8999
            && Lookup(TransferEffect(w, tx).world.accounts, from).balance == 8999
  {
    var tx := Tx(Hash(0), 0, from, Some(to), U128 - 30000, Transfer, 30000, 1, 0, []);
    assert tx.Refund(BASE_GAS) == 9000;
  }

  lemma SupplyOfOne(a: Address, x: Account)
    ensures Supply(World(map[a := x], ValidatorSet([], 0, 0, 0))) == x.balance
  {
    SumBalancesPut(map[], a, x);
  }

  /** Why a transfer to oneself is excluded: the credited copy is overwritten and the value is gone. */
  lemma SelfTransferLoses(a: Address, vm: VmAnswer)
    ensures var tx := Tx(Hash(0), 0, a, Some(a), 5, Transfer, 21000, 1, 0, []);
            var w := World(map[a := Account(a, 21005, 0, None)], ValidatorSet([], 0, 0, 0));
            && InRange(tx) && Accepted(w, tx) && FullRefund(w, tx, vm) == 0
            && Supply(w) == 21005 && Burned(w, tx, vm) == 21000
            && Supply(Step(w, tx, vm, 1, 0).world) == 0
  {
    var tx := Tx(Hash(0), 0, a, Some(a), 5, Transfer, 21000, 1, 0, []);
    var w := World(map[a := Account(a, 21005, 0, None)], ValidatorSet([], 0, 0, 0));
    SupplyOfOne(a, w.accounts[a]);
    SupplyOfOne(a, Account(a, 0, 1, None));
    assert Step(w, tx, vm, 1, 0).world == World(map[a := Account(a, 0, 1, None)], w.vs);
  }

  /** Why the refund must fit 64 bits: a refund of exactly 2^64 comes back as nothing. */
  lemma RefundLoses(a: Address, vm: VmAnswer)
    ensures var tx := Tx(Hash(0), 0, a, Some(a), 0, Transfer, U64 / 2 + 21000, 2, 0, []);
            var w := World(map[a := Account(a, U64 + 42000, 0, None)], ValidatorSet([], 0, 0, 0));
            && InRange(tx) && Accepted(w, tx) && FullRefund(w, tx, vm) == U64
            && Supply(w) == U64 + 42000 && Burned(w, tx, vm) == 42000
            && Supply(Step(w, tx, vm, 1, 0).world) == 0
  {
    var tx := Tx(Hash(0), 0, a, Some(a), 0, Transfer, U64 / 2 + 21000, 2, 0, []);
    var w := World(map[a := Account(a, U64 + 42000, 0, None)], ValidatorSet([], 0, 0, 0));
    SupplyOfOne(a, w.accounts[a]);
    SupplyOfOne(a, Account(a, 0, 1, None));
    assert tx.Refund(BASE_GAS) == 0;
    assert Step(w, tx, vm, 1, 0).world == World(map[a := Account(a, 0, 1, None)], w.vs);
  }

  // ---- Who pays and who receives ----

  /** A transfer to somebody else touches nothing but the two accounts, and moves the value and charges the
      sender exactly when the sender's exact balance is not negative. */
  lemma TransferMoves(w: World, tx: Tx, vm: VmAnswer, a: Address)
    requires tx.kind.Transfer? && tx.Target() != tx.from && Accepted(w, tx) && Supply(w) < U128
    ensures var t := TransferEffect(w, tx).world;
            && t.vs == w.vs
            && (a != tx.from && a != tx.Target() ==> Lookup(t.accounts, a) == Lookup(w.accounts, a))
            && ((BalanceOf(t, tx.Target()) == BalanceOf(w, tx.Target()) + tx.value &&
                 BalanceOf(t, tx.from) == Ends(w, tx, vm)) <==> Ends(w, tx, vm) >= 0)
  {
    SenderEndsIff(w, tx, vm);
    EndsRange(w, tx, vm);
    SumsWithin(w, tx);
    hide OwnWraps, Ends, Supply, Charged, Debit, StakeAt, Accepted;
  }

  /** Staking registers or reactivates the sender and touches nobody else, and turns balance into stake
      exactly when the sender's exact balance is not negative. */
  lemma StakeMoves(w: World, tx: Tx, vm: VmAnswer, a: Address)
    requires tx.kind.Stake? && Accepted(w, tx) && Supply(w) < U128
    ensures var t := StakeEffect(w, tx).world; var list := t.vs.validators;
            && IndexOf(list, tx.from) < |list| && list[IndexOf(list, tx.from)].isActive
            && (a != tx.from ==> Lookup(t.accounts, a) == Lookup(w.accounts, a) &&
                                 StakeAt(list, a) == StakeAt(w.vs.validators, a))
            && ((StakeAt(list, tx.from) == StakeAt(w.vs.validators, tx.from) + tx.value &&
                 BalanceOf(t, tx.from) == Ends(w, tx, vm)) <==> Ends(w, tx, vm) >= 0)
  {
    hide *;
    StakeShape(w, tx, vm, a);
    SenderEndsIff(w, tx, vm);
    EndsRange(w, tx, vm);
    SumsWithin(w, tx);
    StakeAddedAt(w.vs, tx, a);
    ArrivesExactly(StakeAt(w.vs.validators, tx.from), tx.value, BalanceOf(w, tx.from));
  }

  lemma StakeShape(w: World, tx: Tx, vm: VmAnswer, a: Address)
    requires tx.kind.Stake?
    ensures EffectOf(w, tx, vm) == StakeEffect(w, tx) && StakeEffect(w, tx).world.vs == StakeAdded(w.vs, tx)
    ensures a != tx.from ==> Lookup(StakeEffect(w, tx).world.accounts, a) == Lookup(w.accounts, a)
    ensures BalanceOf(w, tx.from) == Lookup(w.accounts, tx.from).balance && Pays(tx, vm) && NoContractRun(w, tx, vm)
  {
    hide StakeAdded, Charged, Debit, Credit, Tx.Refund;
  }

  /** A value within the balance arrives in full next to what fits beside the balance. */
  lemma ArrivesExactly(there: u128, value: u128, balance: u128)
    requires there + balance < U128
    ensures value <= balance ==> Add128(there, value) == there + value
  {
  }

  lemma StakeAddedAt(vs: ValidatorSet, tx: Tx, a: Address)
    ensures var list := StakeAdded(vs, tx).validators;
            && IndexOf(list, tx.from) < |list| && list[IndexOf(list, tx.from)].isActive
            && StakeAt(list, tx.from) == Add128(StakeAt(vs.validators, tx.from), tx.value)
            && (a != tx.from ==> StakeAt(list, a) == StakeAt(vs.validators, a))
  {
    hide ActiveSum, IndexOf;
    var list, i := vs.validators, IndexOf(vs.validators, tx.from);
    if i < |list| {
      var v := list[i].(stake := Add128(list[i].stake, tx.value), isActive := true);
      IndexOfUpdate(list, i, v, tx.from);
      IndexOfUpdate(list, i, v, a);
    } else {
      var v := Validator(tx.from, tx.publicKey, tx.value, true, None);
      IndexOfAppend(list, v, tx.from);
      IndexOfAppend(list, v, a);
    }
  }

  /** Unstaking gives back exactly the stake of a validator that holds enough of it and touches nobody else,
      and the sender ends right exactly when the exact balance is not negative. */
  lemma UnstakeMoves(w: World, tx: Tx, vm: VmAnswer, a: Address)
    requires tx.kind.Unstake? && Accepted(w, tx) && Supply(w) < U128
    ensures var t, list := UnstakeEffect(w, tx).world, w.vs.validators;
            && (UnstakeEffect(w, tx).status.Success? <==>
                  IndexOf(list, tx.from) < |list| && StakeAt(list, tx.from) >= tx.value)
            && StakeAt(t.vs.validators, tx.from) + Back(w, tx) == StakeAt(list, tx.from)
            && (a != tx.from ==> Lookup(t.accounts, a) == Lookup(w.accounts, a) &&
                                 StakeAt(t.vs.validators, a) == StakeAt(list, a))
            && (BalanceOf(t, tx.from) == Ends(w, tx, vm) <==> Ends(w, tx, vm) >= 0)
  {
    SenderEndsIff(w, tx, vm);
    hide OwnWraps, Ends, Supply, Charged, Credit, IndexOf, StakeAt, StakeRemoved, Accepted, Tx.Refund;
    StakeAtIndex(w.vs.validators, tx.from);
    var i := IndexOf(w.vs.validators, tx.from);
    if i < |w.vs.validators| && w.vs.validators[i].stake >= tx.value { StakeRemovedAt(w.vs, tx.from, tx.value, a); }
  }

  lemma StakeAtIndex(vs: seq<Validator>, a: Address)
    ensures IndexOf(vs, a) < |vs| ==> StakeAt(vs, a) == vs[IndexOf(vs, a)].stake
  {
  }

  lemma StakeRemovedAt(vs: ValidatorSet, from: Address, amount: u128, a: Address)
    requires IndexOf(vs.validators, from) < |vs.validators|
    requires amount <= vs.validators[IndexOf(vs.validators, from)].stake
    ensures var list := StakeRemoved(vs, IndexOf(vs.validators, from), amount).validators;
            && StakeAt(list, from) + amount == StakeAt(vs.validators, from)
            && (a != from ==> StakeAt(list, a) == StakeAt(vs.validators, a))
  {
    hide ActiveSum, IndexOf;
    var list, i := vs.validators, IndexOf(vs.validators, from);
    var left := list[i].stake - amount;
    var v := list[i].(stake := left, isActive := list[i].isActive && left >= vs.minStake);
    IndexOfUpdate(list, i, v, from);
    IndexOfUpdate(list, i, v, a);
  }

  lemma IndexOfUpdate(vs: seq<Validator>, i: nat, v: Validator, a: Address)
    requires i < |vs| && v.address == vs[i].address
    ensures IndexOf(vs[i := v], a) == IndexOf(vs, a)
  {
    assert forall j :: 0 <= j < |vs| ==> vs[i := v][j].address == vs[j].address;
  }

  lemma IndexOfAppend(vs: seq<Validator>, v: Validator, a: Address)
    ensures IndexOf(vs + [v], a) ==
            if IndexOf(vs, a) < |vs| then IndexOf(vs, a) else if v.address == a then |vs| else |vs| + 1
  {
    var j, k := IndexOf(vs + [v], a), IndexOf(vs, a);
    if k < |vs| {
      assert (vs + [v])[k].address == a;
    }
    if j < |vs| {
      assert vs[j].address == a;
    }
    if v.address == a { assert (vs + [v])[|vs|].address == a; }
  }
}
