/** What one transaction, one block and one epoch change do, account by account and validator by validator,
    stated on the inputs. */
module Effects {
  import opened Core
  import opened Bytes
  import opened Ledger
  import opened Blocks
  import opened CodeStore
  import opened ChainStore
  import opened Journal
  import Epochs

  // ---- Acceptance and receipts ----

  /** A transaction passes both checks exactly with its sender's nonce and a cost, cut to 128 bits, that the
      sender has. */
  lemma AcceptedIff(w: World, tx: Tx)
    ensures var s := Lookup(w.accounts, tx.from);
            Accepted(w, tx) <==> tx.nonce == s.nonce && (tx.value + tx.gasLimit * tx.gasPrice) % U128 <= s.balance
  {
    U64Product(tx.gasLimit, tx.gasPrice);
    Cut128(tx.value, tx.gasLimit * tx.gasPrice);
  }

  lemma Cut128(a: u128, b: u128)
    ensures Add128(a, b) == (a + b) % U128
  {
  }

  /** A rejected transaction changes nothing, uses no gas and says why. */
  lemma RejectedIs(w: World, tx: Tx, vm: VmAnswer, number: nat, i: nat)
    requires !Accepted(w, tx)
    ensures var why := if tx.nonce != Lookup(w.accounts, tx.from).nonce then NonceMismatch else InsufficientBalance;
            Step(w, tx, vm, number, i) == Outcome(w, Receipt(tx.hash, number, i % U32, Failure(why), 0, None))
  {
    hide Accepted, EffectOf;
  }

  /** The status, the gas and the new contract that an accepted transaction's receipt tells. */
  lemma ReceiptIs(w: World, tx: Tx, vm: VmAnswer, number: nat, i: nat)
    requires Accepted(w, tx)
    ensures var r := Step(w, tx, vm, number, i).receipt;
            && (tx.kind.Transfer? || tx.kind.Stake? ==> r.status == Success && r.gasUsed == 21000 && r.contract == None)
            && (tx.kind.Unstake? ==> r.gasUsed == 21000 && r.contract == None)
            && (tx.kind.ContractDeploy? && vm.deploy.None? ==>
                  r.status == Failure(VmFault) && r.gasUsed == tx.gasLimit && r.contract == None)
            && (tx.kind.ContractDeploy? && vm.deploy.Some? ==>
                  && r.status == Success && r.gasUsed == vm.deploy.value.gasUsed
                  && r.contract == Some(vm.deploy.value.contract))
  {
    hide Accepted, Charged, ApplyDeltas, Credit, Debit, StakeAdded, StakeRemoved, IndexOf, Tx.Refund;
  }

  /** The five outcomes of a call. */
  lemma CallReceiptIs(w: World, tx: Tx, vm: VmAnswer, number: nat, i: nat)
    requires Accepted(w, tx) && tx.kind.ContractCall?
    ensures var r := Step(w, tx, vm, number, i).receipt;
            && r.contract == None
            && (tx.Target() !in w.accounts ==> r.status == Failure(ContractNotFound) && r.gasUsed == 21000)
            && (tx.Target() in w.accounts && w.accounts[tx.Target()].code.None? ==>
                  r.status == Failure(NotAContract) && r.gasUsed == 21000)
            && (tx.Target() in w.accounts && w.accounts[tx.Target()].code.Some? && vm.call.None? ==>
                  r.status == Failure(VmFault) && r.gasUsed == tx.gasLimit)
            && (CallReturns(w, tx, vm) ==> r.status == vm.call.value.status && r.gasUsed == vm.call.value.gasUsed)
  {
    hide Accepted, Charged, ApplyDeltas, Credit, Debit, Tx.Refund;
  }

  // ---- Who is touched ----

  /** The address gets a delta from a contract run that succeeds. */
  predicate GetsDelta(w: World, tx: Tx, vm: VmAnswer, a: Address) {
    || (tx.kind.ContractDeploy? && vm.deploy.Some? && a in vm.deploy.value.deltas)
    || (tx.kind.ContractCall? && CallReturns(w, tx, vm) && vm.call.value.status.Success? && a in vm.call.value.deltas)
  }

  predicate IsDeployed(tx: Tx, vm: VmAnswer, a: Address) {
    tx.kind.ContractDeploy? && vm.deploy.Some? && a == vm.deploy.value.contract
  }

  predicate Touched(w: World, tx: Tx, vm: VmAnswer, a: Address) {
    a == tx.from || (tx.kind.Transfer? && a == tx.Target()) || IsDeployed(tx, vm, a) || GetsDelta(w, tx, vm, a)
  }

  /** Nobody but the sender, a transfer's receiver, a new contract and those with a delta is touched, and only
      staking touches the validators. */
  lemma OthersStay(w: World, tx: Tx, vm: VmAnswer, number: nat, i: nat, a: Address)
    ensures var t := Step(w, tx, vm, number, i).world;
            && (!Touched(w, tx, vm, a) ==> Lookup(t.accounts, a) == Lookup(w.accounts, a))
            && (!tx.kind.Stake? && !tx.kind.Unstake? ==> t.vs == w.vs)
  {
    hide Accepted, Charged, ApplyDelta, Credit, Debit, StakeAdded, StakeRemoved, IndexOf, Tx.Refund;
  }

  /** A transfer that names nobody pays the zero address. */
  lemma NobodyIsZero(w: World, tx: Tx, vm: VmAnswer, number: nat, i: nat)
    requires Accepted(w, tx) && tx.kind.Transfer? && tx.to == None && tx.from != ZERO_ADDRESS
    ensures var x, t := Lookup(w.accounts, ZERO_ADDRESS), Step(w, tx, vm, number, i).world;
            Lookup(t.accounts, ZERO_ADDRESS) == x.(balance := Add128(x.balance, tx.value))
  {
    hide Accepted, Charged, Debit, Tx.Refund;
  }

  /** Every account but a new contract keeps its address and its code. */
  lemma IdentityKept(w: World, tx: Tx, vm: VmAnswer, number: nat, i: nat, a: Address)
    requires !IsDeployed(tx, vm, a) || a == tx.from
    ensures var x, y := Lookup(w.accounts, a), Lookup(Step(w, tx, vm, number, i).world.accounts, a);
            y.address == x.address && y.code == x.code
  {
    hide Accepted, Add128, Sub128, WrapI128, StakeAdded, StakeRemoved, IndexOf, Tx.Refund;
  }

  // ---- Contract code and slots ----

  /** Exactly a successful deployment stores code, its own, under its hash. */
  lemma CodeStored(w: World, s: Store, tx: Tx, vm: VmAnswer, h: Hash)
    ensures var t := StepStore(w, s, tx, vm);
            if Accepted(w, tx) && tx.kind.ContractDeploy? && vm.deploy.Some? && h == vm.deploy.value.code
            then h in t.codes && t.codes[h] == tx.data
            else (h in t.codes <==> h in s.codes) && (h in s.codes ==> t.codes[h] == s.codes[h])
  {
    hide Accepted, Written;
  }

  /** The slot changes of a transaction: those of a contract run that succeeds. */
  function ChangesOf(w: World, tx: Tx, vm: VmAnswer): Changes {
    if !Accepted(w, tx) then map[]
    else if tx.kind.ContractDeploy? && vm.deploy.Some? then vm.deploy.value.changes
    else if tx.kind.ContractCall? && CallReturns(w, tx, vm) && vm.call.value.status.Success? then vm.call.value.changes
    else map[]
  }

  /** Afterwards every slot reads as the transaction's changes over the old rows. */
  lemma SlotsRead(w: World, s: Store, tx: Tx, vm: VmAnswer, a: Address, k: Bytes)
    ensures Get(StepStore(w, s, tx, vm).slots, SlotKey(a, k)) == ReadSlot(s.slots, ChangesOf(w, tx, vm), a, k)
  {
    hide Accepted, Written, SlotKey;
    WrittenIs(s.slots, ChangesOf(w, tx, vm));
  }

  // ---- Genesis and the chain of blocks ----

  /** An address starts with the balance of its last entry, a fresh nonce and no code, ... */
  lemma {:induction false} GenesisBalance(entries: seq<(Address, u128)>, k: nat, i: nat)
    requires i < k <= |entries| && forall j :: i < j < k ==> entries[j].0 != entries[i].0
    ensures var (a, balance) := entries[i];
            a in GenesisAccounts(entries, k) && GenesisAccounts(entries, k)[a] == Account(a, balance, 0, None)
  {
    if i < k - 1 { GenesisBalance(entries, k - 1, i); }
  }

  /** ... and does not exist without one. */
  lemma {:induction false} GenesisAbsent(entries: seq<(Address, u128)>, k: nat, a: Address)
    requires k <= |entries| && forall j :: 0 <= j < k ==> entries[j].0 != a
    ensures a !in GenesisAccounts(entries, k)
  {
    if k > 0 { GenesisAbsent(entries, k - 1, a); }
  }

  /** The chain starts at height 0 with the listed validators, all active, and the configured limits. */
  lemma GenesisIs(g: Genesis)
    ensures var c := GenesisChain(g); var vs := c.epoch.vs;
            && c.height == 0 && c.head == g.hash && c.epoch.number == 0 && c.epoch.start == 0
            && vs.minStake == g.params.minStake && vs.maxValidators == g.params.maxValidators
            && |vs.validators| == |g.validators|
            && forall i :: 0 <= i < |g.validators| ==>
                 vs.validators[i] == Validator(g.validators[i].0, g.validators[i].1, g.validators[i].2, true, None)
  {
  }

  /** After a block exactly its children extend the chain, also after the epoch check, which moves no balance. */
  lemma BlocksLink(c: Chain, b: Block, vm: seq<VmAnswer>, p: Params, now: u64, next: Block)
    requires |vm| == |b.txs|
    ensures Extends(Applied(c, b, vm), next) <==> next.parent == b.hash && next.number == b.number + 1
    ensures var d := Applied(c, b, vm);
            && (Extends(Advanced(d, p, now), next) <==> Extends(d, next))
            && Advanced(d, p, now).accounts == d.accounts
  {
    hide RunTxs, Rebuilt;
  }

  // ---- Validators ----

  /** Staking changes one record of the list, or appends one. */
  lemma StakeRecords(vs: ValidatorSet, tx: Tx)
    ensures var list, t, i := vs.validators, StakeAdded(vs, tx), IndexOf(vs.validators, tx.from);
            && t.minStake == vs.minStake && t.maxValidators == vs.maxValidators
            && (i == |list| ==> t.validators == list + [Validator(tx.from, tx.publicKey, tx.value, true, None)])
            && (i < |list| ==> && |t.validators| == |list| && t.validators[..i] == list[..i]
                               && t.validators[i + 1..] == list[i + 1..]
                               && t.validators[i]
                                  == list[i].(stake := Add128(list[i].stake, tx.value), isActive := true))
  {
    hide IndexOf, ActiveSum;
  }

  /** Unstaking changes one record: its stake, and it stays active exactly if it was and keeps the minimum. */
  lemma UnstakeRecords(w: World, tx: Tx, vm: VmAnswer, number: nat, j: nat)
    requires Accepted(w, tx) && tx.kind.Unstake?
    ensures var list, t, i := w.vs.validators, Step(w, tx, vm, number, j).world.vs, IndexOf(w.vs.validators, tx.from);
            if i < |list| && list[i].stake >= tx.value then
              && |t.validators| == |list| && t.validators[..i] == list[..i] && t.validators[i + 1..] == list[i + 1..]
              && var left := list[i].stake - tx.value;
                 t.validators[i] == list[i].(stake := left, isActive := list[i].isActive && left >= w.vs.minStake)
            else t == w.vs
  {
    hide IndexOf, ActiveSum, Charged, Credit, Tx.Refund, Accepted;
  }

  /** A jail term that has run out. */
  predicate Released(u: Validator, now: u64) { u.jailedUntil.Some? && now >= u.jailedUntil.value }

  /** How a kept validator comes out of a rebuild. */
  predicate ComesFrom(v: Validator, u: Validator, now: u64) {
    && v.address == u.address && v.publicKey == u.publicKey && v.stake == u.stake
    && v.jailedUntil == (if Released(u, now) then None else u.jailedUntil)
    && v.isActive == (u.isActive || Released(u, now))
  }

  lemma UnjailComesFrom(u: Validator, now: u64, minStake: u128)
    requires u.stake >= minStake
    ensures ComesFrom(Unjail(u, now, minStake), u, now)
  {
  }

  /** Everyone kept was in the set at or above the minimum, and is active exactly if active before or released. */
  lemma KeptComesFrom(vs: ValidatorSet, p: Params, now: u64, v: Validator)
    requires v in Rebuilt(vs, p, now).validators
    ensures exists u :: u in vs.validators && u.stake >= p.minStake && ComesFrom(v, u, now)
  {
    hide SortByStake, Eligible, ComesFrom, Unjail;
    var all := UnjailAll(vs.validators, now, p.minStake);
    var pool := Eligible(all, p.minStake);
    Epochs.SortPermutes(pool);
    assert v in multiset(SortByStake(pool));
    Epochs.EligibleIs(all, p.minStake, v);
    assert v in multiset(all);
    var i :| 0 <= i < |all| && all[i] == v;
    var u := vs.validators[i];
    UnjailStake(u, now, p.minStake);
    UnjailComesFrom(u, now, p.minStake);
    assert u in vs.validators && u.stake >= p.minStake && ComesFrom(v, u, now);
  }

  lemma UnjailStake(u: Validator, now: u64, minStake: u128)
    ensures Unjail(u, now, minStake).stake == u.stake
  {
  }

  /** Everyone at or above the minimum is kept, or the set is full of validators with at least as much. */
  lemma OthersAreTopped(vs: ValidatorSet, p: Params, now: u64, u: Validator)
    requires u in vs.validators && u.stake >= p.minStake
    ensures var kept := Rebuilt(vs, p, now).validators;
            || Unjail(u, now, p.minStake) in kept
            || (|kept| == p.maxValidators && forall v :: v in kept ==> v.stake >= u.stake)
  {
    hide Eligible, Unjail, SortByStake;
    var all, w := UnjailAll(vs.validators, now, p.minStake), Unjail(u, now, p.minStake);
    var pool, kept := Eligible(all, p.minStake), Rebuilt(vs, p, now).validators;
    var i :| 0 <= i < |vs.validators| && vs.validators[i] == u;
    assert all[i] == w;
    UnjailStake(u, now, p.minStake);
    Epochs.EligibleIs(all, p.minStake, w);
    Epochs.RebuildKeepsTop(vs, p, now);
    if w !in kept {
      assert w in multiset(pool) - multiset(kept);
      if |kept| == |pool| { AllKept(kept, pool); }
    }
  }

  lemma AllKept(kept: seq<Validator>, pool: seq<Validator>)
    requires multiset(kept) <= multiset(pool) && |kept| == |pool|
    ensures multiset(kept) == multiset(pool)
  {
    var rest := multiset(pool) - multiset(kept);
    assert multiset(pool) == multiset(kept) + rest;
    assert |multiset(pool)| == |multiset(kept)| + |rest|;
  }
}
