/** One transaction over a plain account map (crates/consensus/src/state.rs, the body of
    the loop in `apply_block`), with the machine arithmetic of the source. */
module Ledger {
  import opened Core
  import opened Bytes

  const BASE_GAS: u64 := 21000

  datatype Account = Account(address: Address, balance: u128, nonce: u64, code: Option<Hash>)

  type Accounts = map<Address, Account>

  function NewAccount(a: Address, balance: u128): Account { Account(a, balance, 0, None) }

  /** Stored account, or a fresh empty one. */
  function Lookup(m: Accounts, a: Address): Account {
    if a in m then m[a] else NewAccount(a, 0)
  }

  datatype TxKind = Transfer | ContractDeploy | ContractCall | Stake | Unstake

  datatype Tx = Tx(
    hash: Hash, nonce: u64, from: Address, to: Option<Address>, value: u128,
    kind: TxKind, gasLimit: u64, gasPrice: u64, publicKey: nat, data: Bytes)
  {
    function MaxGasCost(): u128 {
      U64Product(gasLimit, gasPrice);
      gasLimit * gasPrice
    }

    function TotalCost(): u128 { Add128(value, MaxGasCost()) }

    /** The refund is multiplied in 64 bits although the charge was multiplied in 128. */
    function Refund(used: u64): u64 { Mul64(SatSub(gasLimit, used), gasPrice) }

    function Target(): Address { to.GetOr(ZERO_ADDRESS) }
  }

  datatype Reason =
    | NonceMismatch | InsufficientBalance | VmFault | NotAContract | ContractNotFound
    | InsufficientStake | NotAValidator | ExecutionFailed

  datatype TxStatus = Success | OutOfGas | Failure(reason: Reason)

  datatype Receipt = Receipt(
    txHash: Hash, block: nat, index: nat, status: TxStatus, gasUsed: u64, contract: Option<Address>)

  /** Storage slots that a contract run has written or, with `None`, deleted. */
  type Changes = map<(Address, Bytes), Option<Bytes>>

  /** What the virtual machine answers; `None` is its error result. */
  datatype Deployment = Deployment(
    contract: Address, code: Hash, gasUsed: u64, deltas: map<Address, int>, changes: Changes)
  datatype CallReturn = CallReturn(status: TxStatus, gasUsed: u64, deltas: map<Address, int>, changes: Changes)
  datatype VmAnswer = VmAnswer(deploy: Option<Deployment>, call: Option<CallReturn>)

  datatype Validator = Validator(
    address: Address, publicKey: nat, stake: u128, isActive: bool, jailedUntil: Option<u64>)

  datatype ValidatorSet = ValidatorSet(
    validators: seq<Validator>, totalStake: u128, minStake: u128, maxValidators: nat)

  function ActiveSum(vs: seq<Validator>): nat {
    if vs == [] then 0
    else ActiveSum(vs[..|vs| - 1]) + (if vs[|vs| - 1].isActive then vs[|vs| - 1].stake else 0)
  }

  function NewValidatorSet(vs: seq<Validator>, minStake: u128, maxValidators: nat): ValidatorSet {
    ValidatorSet(vs, ActiveSum(vs) % U128, minStake, maxValidators)
  }

  /** Position of the first validator with this address, or the length. */
  function IndexOf(vs: seq<Validator>, a: Address): (i: nat)
    ensures i <= |vs|
    ensures i < |vs| ==> vs[i].address == a
    ensures forall j :: 0 <= j < i ==> vs[j].address != a
  {
    if vs == [] then 0 else if vs[0].address == a then 0 else 1 + IndexOf(vs[1..], a)
  }

  /** Stake of the first validator with this address, active or not. */
  function StakeAt(vs: seq<Validator>, a: Address): u128 {
    var i := IndexOf(vs, a);
    if i < |vs| then vs[i].stake else 0
  }

  datatype World = World(accounts: Accounts, vs: ValidatorSet)

  datatype Outcome = Outcome(world: World, receipt: Receipt)

  /** A transaction gets past the nonce and the balance check. */
  predicate Accepted(w: World, tx: Tx) {
    var s := Lookup(w.accounts, tx.from);
    tx.nonce == s.nonce && s.balance >= tx.TotalCost()
  }

  /** The sender's copy after the gas is charged and the nonce incremented. */
  function Charged(w: World, tx: Tx): Account {
    var s := Lookup(w.accounts, tx.from);
    s.(balance := Sub128(s.balance, tx.MaxGasCost()), nonce := (s.nonce + 1) % U64)
  }

  function Debit(a: Account, amount: u128): Account { a.(balance := Sub128(a.balance, amount)) }

  function Credit(a: Account, amount: u128): Account { a.(balance := Add128(a.balance, amount)) }

  /** Balance deltas of a contract run, clamped at zero, written over the accounts. */
  function ApplyDelta(acct: Account, delta: int): Account {
    var b := WrapI128(WrapI128(acct.balance) + delta);
    acct.(balance := if b < 0 then 0 else b)
  }

  function ApplyDeltas(m: Accounts, deltas: map<Address, int>): Accounts {
    m + map a | a in deltas :: ApplyDelta(Lookup(m, a), deltas[a])
  }

  lemma ApplyOne(m: Accounts, deltas: map<Address, int>, a: Address)
    requires a in deltas
    ensures ApplyDeltas(m, deltas) == ApplyDeltas(m, deltas - {a})[a := ApplyDelta(Lookup(m, a), deltas[a])]
    ensures Lookup(ApplyDeltas(m, deltas - {a}), a) == Lookup(m, a)
  {
    hide ApplyDelta;
  }

  lemma NoDeltas(m: Accounts, deltas: map<Address, int>)
    requires forall a :: a !in deltas
    ensures ApplyDeltas(m, deltas) == m
  {
  }

  function StakeAdded(vs: ValidatorSet, tx: Tx): ValidatorSet {
    var i := IndexOf(vs.validators, tx.from);
    var list := if i < |vs.validators|
                then var v := vs.validators[i];
                     vs.validators[i := v.(stake := Add128(v.stake, tx.value), isActive := true)]
                else vs.validators + [Validator(tx.from, tx.publicKey, tx.value, true, None)];
    NewValidatorSet(list, vs.minStake, vs.maxValidators)
  }

  function StakeRemoved(vs: ValidatorSet, i: nat, amount: u128): ValidatorSet
    requires i < |vs.validators| && amount <= vs.validators[i].stake
  {
    var v := vs.validators[i];
    var left := v.stake - amount;
    NewValidatorSet(vs.validators[i := v.(stake := left, isActive := v.isActive && left >= vs.minStake)],
                    vs.minStake, vs.maxValidators)
  }

  /** Accounts, validators, status, gas used and new contract of an accepted transaction. */
  datatype Effect = Effect(world: World, status: TxStatus, gasUsed: u64, contract: Option<Address>)

  function TransferEffect(w: World, tx: Tx): Effect {
    var to := tx.Target();
    var credited := w.accounts[to := Credit(Lookup(w.accounts, to), tx.value)];
    var sender := Credit(Debit(Charged(w, tx), tx.value), tx.Refund(BASE_GAS));
    Effect(w.(accounts := credited[tx.from := sender]), Success, BASE_GAS, None)
  }

  function DeployEffect(w: World, tx: Tx, vm: VmAnswer): Effect {
    match vm.deploy
    case None => Effect(w.(accounts := w.accounts[tx.from := Charged(w, tx)]), Failure(VmFault), tx.gasLimit, None)
    case Some(d) =>
      var created := w.accounts[d.contract := Account(d.contract, tx.value, 0, Some(d.code))];
      var sender := Credit(Debit(Charged(w, tx), tx.value), tx.Refund(d.gasUsed));
      Effect(w.(accounts := ApplyDeltas(created, d.deltas)[tx.from := sender]), Success, d.gasUsed, Some(d.contract))
  }

  function CallEffect(w: World, tx: Tx, vm: VmAnswer): Effect {
    var sender := Charged(w, tx);
    var to := tx.Target();
    if to !in w.accounts then
      Effect(w.(accounts := w.accounts[tx.from := sender]), Failure(ContractNotFound), BASE_GAS, None)
    else if w.accounts[to].code.None? then
      Effect(w.(accounts := w.accounts[tx.from := sender]), Failure(NotAContract), BASE_GAS, None)
    else
      match vm.call
      case None => Effect(w.(accounts := w.accounts[tx.from := sender]), Failure(VmFault), tx.gasLimit, None)
      case Some(c) =>
        var after := if c.status.Success? then ApplyDeltas(w.accounts, c.deltas) else w.accounts;
        Effect(w.(accounts := after[tx.from := Credit(sender, tx.Refund(c.gasUsed))]), c.status, c.gasUsed, None)
  }

  /** The contract call reaches the virtual machine and gets an answer. */
  predicate CallReturns(w: World, tx: Tx, vm: VmAnswer) {
    tx.Target() in w.accounts && w.accounts[tx.Target()].code.Some? && vm.call.Some?
  }

  function StakeEffect(w: World, tx: Tx): Effect {
    var sender := Credit(Debit(Charged(w, tx), tx.value), tx.Refund(BASE_GAS));
    Effect(World(w.accounts[tx.from := sender], StakeAdded(w.vs, tx)), Success, BASE_GAS, None)
  }

  function UnstakeEffect(w: World, tx: Tx): Effect {
    var i := IndexOf(w.vs.validators, tx.from);
    var refunded := Credit(Charged(w, tx), tx.Refund(BASE_GAS));
    if i == |w.vs.validators| then
      Effect(w.(accounts := w.accounts[tx.from := refunded]), Failure(NotAValidator), BASE_GAS, None)
    else if w.vs.validators[i].stake < tx.value then
      Effect(w.(accounts := w.accounts[tx.from := refunded]), Failure(InsufficientStake), BASE_GAS, None)
    else
      var sender := Credit(Credit(Charged(w, tx), tx.value), tx.Refund(BASE_GAS));
      Effect(World(w.accounts[tx.from := sender], StakeRemoved(w.vs, i, tx.value)), Success, BASE_GAS, None)
  }

  function EffectOf(w: World, tx: Tx, vm: VmAnswer): Effect {
    match tx.kind
    case Transfer => TransferEffect(w, tx)
    case ContractDeploy => DeployEffect(w, tx, vm)
    case ContractCall => CallEffect(w, tx, vm)
    case Stake => StakeEffect(w, tx)
    case Unstake => UnstakeEffect(w, tx)
  }

  /** The one-transaction step: what the loop body does, seen on a plain account map. */
  function Step(w: World, tx: Tx, vm: VmAnswer, number: nat, i: nat): Outcome {
    if !Accepted(w, tx) then
      var reason := if tx.nonce != Lookup(w.accounts, tx.from).nonce then NonceMismatch else InsufficientBalance;
      Outcome(w, Receipt(tx.hash, number, i % U32, Failure(reason), 0, None))
    else
      var e := EffectOf(w, tx, vm);
      Outcome(e.world, Receipt(tx.hash, number, i % U32, e.status, e.gasUsed, e.contract))
  }
}
