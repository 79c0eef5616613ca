/** The authoritative chain state as the source keeps it (crates/consensus/src/state.rs): stored
    accounts, an overlay of modified accounts while a block runs, and one commit at the end. */
module ChainStore {
  import opened Core
  import opened Ledger
  import opened Bytes
  import opened Blocks
  import opened CodeStore
  import opened Journal

  datatype BlockError = ParentMismatch | NumberMismatch

  datatype Genesis = Genesis(
    hash: Hash, accounts: seq<(Address, u128)>, validators: seq<(Address, nat, u128)>, params: Params)

  /** Later entries for the same address replace earlier ones. */
  function GenesisAccounts(entries: seq<(Address, u128)>, k: nat): Accounts
    requires k <= |entries|
  {
    if k == 0 then map[]
    else GenesisAccounts(entries, k - 1)[entries[k - 1].0 := NewAccount(entries[k - 1].0, entries[k - 1].1)]
  }

  function GenesisValidators(vs: seq<(Address, nat, u128)>): (r: seq<Validator>)
    ensures |r| == |vs|
    ensures forall i :: 0 <= i < |vs| ==> r[i] == Validator(vs[i].0, vs[i].1, vs[i].2, true, None)
  {
    seq(|vs|, i requires 0 <= i < |vs| => Validator(vs[i].0, vs[i].1, vs[i].2, true, None))
  }

  /** `epoch_length - 1` in 64 bits. */
  function FirstEnd(length: u64): u64 { if length == 0 then U64 - 1 else length - 1 }

  function GenesisChain(g: Genesis): Chain {
    Chain(GenesisAccounts(g.accounts, |g.accounts|),
                Epoch(0, 0, FirstEnd(g.params.epochLength),
                      NewValidatorSet(GenesisValidators(g.validators), g.params.minStake, g.params.maxValidators)),
                0, g.hash)
  }

  lemma EmptyKeyed()
    ensures Keyed(map[])
  {
  }

  /** Rows of a commit batch are keyed by the account's own address. */
  function Commit(stored: Accounts, modified: Accounts): (r: Accounts)
    requires Keyed(modified)
    ensures r == stored + modified
    ensures Keyed(stored) ==> Keyed(r)
  {
    stored + map a | a in modified :: modified[a].address := modified[a]
  }

  lemma OverlayPut(stored: Accounts, modified: Accounts, a: Address, x: Account)
    ensures stored + modified[a := x] == (stored + modified)[a := x]
  {
  }

  /** Applying one more delta through the overlay is applying it to the merged map. */
  lemma DeltaPut(stored: Accounts, after: Accounts, m: Accounts, deltas: map<Address, int>, rest: set<Address>,
                 a: Address)
    requires rest <= deltas.Keys && a in rest && Keyed(stored) && Keyed(after)
    requires stored + after == ApplyDeltas(m, deltas - rest)
    ensures var x := ApplyDelta(Lookup(stored + after, a), deltas[a]);
            && Keyed(after[a := x])
            && stored + after[a := x] == ApplyDeltas(m, deltas - (rest - {a}))
  {
    hide ApplyDeltas;
    var x := ApplyDelta(Lookup(stored + after, a), deltas[a]);
    ApplyOne(m, deltas - (rest - {a}), a);
    assert deltas - (rest - {a}) - {a} == deltas - rest;
    OverlayPut(stored, after, a, x);
  }

  class ChainState {
    var head: Hash
    var height: nat
    var epoch: Epoch
    var stored: Accounts
    var contracts: Store

    ghost predicate Valid()
      reads this
    {
      Keyed(stored)
    }

    ghost function View(): Chain
      reads this
    {
      Chain(stored, epoch, height, head)
    }

    constructor FromGenesis(g: Genesis)
      ensures Valid() && View() == GenesisChain(g) && contracts == Store(map[], map[])
    {
      head, height := g.hash, 0;
      epoch := Epoch(0, 0, FirstEnd(g.params.epochLength),
                     NewValidatorSet(GenesisValidators(g.validators), g.params.minStake, g.params.maxValidators));
      stored, contracts := map[], Store(map[], map[]);
      new;
      for k := 0 to |g.accounts|
        invariant Valid() && View() == GenesisChain(g).(accounts := GenesisAccounts(g.accounts, k))
        invariant contracts == Store(map[], map[])
      {
        var (a, balance) := g.accounts[k];
        stored := stored[a := NewAccount(a, balance)];
      }
    }

    /** The overlay first, then storage, then a fresh account. */
    function Fetch(modified: Accounts, a: Address): (acct: Account)
      requires Valid() && Keyed(modified)
      reads this
      ensures acct == Lookup(stored + modified, a) && acct.address == a
    {
      if a in modified then modified[a] else Lookup(stored, a)
    }

    method ApplyBalanceChanges(deltas: map<Address, int>, modified: Accounts) returns (after: Accounts)
      requires Valid() && Keyed(modified)
      ensures Keyed(after)
      ensures stored + after == ApplyDeltas(stored + modified, deltas)
    {
      hide ApplyDelta, Lookup, ApplyDeltas, Keyed;
      after := modified;
      ghost var m := stored + modified;
      var rest := deltas.Keys;
      NoDeltas(m, deltas - rest);
      while rest != {}
        invariant rest <= deltas.Keys && Keyed(after)
        invariant stored + after == ApplyDeltas(m, deltas - rest)
        decreases rest
      {
        var a :| a in rest;
        DeltaPut(stored, after, m, deltas, rest, a);
        after := after[a := ApplyDelta(Fetch(after, a), deltas[a])];
        rest := rest - {a};
      }
      assert deltas - rest == deltas;
    }

    /** Writes the buffered slot changes to the database, in whatever order they come. */
    method FlushSlots(changes: Changes)
      modifies this`contracts
      ensures contracts == old(contracts).(slots := Written(old(contracts.slots), changes))
    {
      hide SlotKey, Written, Flushed;
      var rest := changes.Keys;
      ghost var db, written: Changes := contracts.slots, map[];
      NothingFlushed(db);
      while rest != {}
        invariant rest <= changes.Keys && Flushed(db, written, contracts.slots)
        invariant contracts == old(contracts).(slots := contracts.slots)
        invariant written.Keys == changes.Keys - rest
        invariant forall s :: s in written ==> written[s] == changes[s]
        decreases rest
      {
        var s :| s in rest;
        FlushOne(db, written, contracts.slots, s.0, s.1, changes[s]);
        contracts := contracts.(slots := Put(contracts.slots, SlotKey(s.0, s.1), changes[s]));
        written := written[s := changes[s]];
        rest := rest - {s};
      }
      assert written == changes;
      WrittenIs(db, changes);
      FlushedOnce(db, changes, contracts.slots, Written(db, changes));
    }

    method Transfer(tx: Tx, charged: Account, before: Accounts) returns (modified: Accounts)
      requires Valid() && Keyed(before) && charged == Charged(World(stored + before, epoch.vs), tx)
      ensures Keyed(modified)
      ensures World(stored + modified, epoch.vs) == TransferEffect(World(stored + before, epoch.vs), tx).world
    {
      var to := Fetch(before, tx.Target());
      var sender := Debit(charged, tx.value);
      modified := before[tx.Target() := Credit(to, tx.value)];
      OverlayPut(stored, before, tx.Target(), Credit(to, tx.value));
      sender := Credit(sender, tx.Refund(BASE_GAS));
      OverlayPut(stored, modified, tx.from, sender);
      modified := modified[tx.from := sender];
    }

    method Deploy(tx: Tx, vm: VmAnswer, charged: Account, before: Accounts)
      returns (modified: Accounts, status: TxStatus, gasUsed: u64, contract: Option<Address>)
      requires Valid() && Keyed(before) && charged == Charged(World(stored + before, epoch.vs), tx)
      modifies this`contracts
      ensures Keyed(modified)
      ensures Effect(World(stored + modified, epoch.vs), status, gasUsed, contract)
           == DeployEffect(World(stored + before, epoch.vs), tx, vm)
      ensures contracts == DeployStore(old(contracts), tx, vm)
    {
      var sender := charged;
      modified, status, gasUsed, contract := before, Failure(VmFault), tx.gasLimit, None;
      if vm.deploy.Some? {
        var d := vm.deploy.value;
        contracts := contracts.(codes := contracts.codes[d.code := tx.data]);
        var account := Account(d.contract, tx.value, 0, Some(d.code));
        modified := modified[d.contract := account];
        OverlayPut(stored, before, d.contract, account);
        FlushSlots(d.changes);
        modified := ApplyBalanceChanges(d.deltas, modified);
        sender := Credit(Debit(sender, tx.value), tx.Refund(d.gasUsed));
        status, gasUsed, contract := Success, d.gasUsed, Some(d.contract);
      }
      OverlayPut(stored, modified, tx.from, sender);
      modified := modified[tx.from := sender];
    }

    method Call(tx: Tx, vm: VmAnswer, charged: Account, before: Accounts)
      returns (modified: Accounts, status: TxStatus, gasUsed: u64)
      requires Valid() && Keyed(before) && charged == Charged(World(stored + before, epoch.vs), tx)
      modifies this`contracts
      ensures Keyed(modified)
      ensures Effect(World(stored + modified, epoch.vs), status, gasUsed, None)
           == CallEffect(World(stored + before, epoch.vs), tx, vm)
      ensures contracts == CallStore(World(stored + before, epoch.vs), old(contracts), tx, vm)
    {
      var sender := charged;
      modified, gasUsed := before, BASE_GAS;
      if tx.Target() !in modified && tx.Target() !in stored {
        status := Failure(ContractNotFound);
      } else if Fetch(modified, tx.Target()).code.None? {
        status := Failure(NotAContract);
      } else if vm.call.None? {
        status, gasUsed := Failure(VmFault), tx.gasLimit;
      } else {
        var c := vm.call.value;
        if c.status.Success? {
          FlushSlots(c.changes);
          modified := ApplyBalanceChanges(c.deltas, modified);
        }
        sender := Credit(sender, tx.Refund(c.gasUsed));
        status, gasUsed := c.status, c.gasUsed;
      }
      OverlayPut(stored, modified, tx.from, sender);
      modified := modified[tx.from := sender];
    }

    method Stake(tx: Tx, charged: Account, before: Accounts) returns (modified: Accounts)
      requires Valid() && Keyed(before) && charged == Charged(World(stored + before, epoch.vs), tx)
      modifies this`epoch
      ensures Keyed(modified) && epoch == old(epoch).(vs := epoch.vs)
      ensures World(stored + modified, epoch.vs) == StakeEffect(World(stored + before, old(epoch.vs)), tx).world
    {
      var sender := Debit(charged, tx.value);
      AddStake(tx);
      sender := Credit(sender, tx.Refund(BASE_GAS));
      OverlayPut(stored, before, tx.from, sender);
      modified := before[tx.from := sender];
    }

    method Unstake(tx: Tx, charged: Account, before: Accounts) returns (modified: Accounts, status: TxStatus)
      requires Valid() && Keyed(before) && charged == Charged(World(stored + before, epoch.vs), tx)
      modifies this`epoch
      ensures Keyed(modified) && epoch == old(epoch).(vs := epoch.vs)
      ensures Effect(World(stored + modified, epoch.vs), status, BASE_GAS, None)
           == UnstakeEffect(World(stored + before, old(epoch.vs)), tx)
    {
      var sender := charged;
      var removed := RemoveStake(tx);
      if removed.Ok? {
        sender := Credit(sender, tx.value);
        status := Success;
      } else {
        status := Failure(removed.error);
      }
      sender := Credit(sender, tx.Refund(BASE_GAS));
      OverlayPut(stored, before, tx.from, sender);
      modified := before[tx.from := sender];
    }

    /** One iteration of the loop over the block's transactions. */
    method ExecuteTx(tx: Tx, vm: VmAnswer, number: nat, i: nat, before: Accounts)
      returns (modified: Accounts, receipt: Receipt)
      requires Valid() && Keyed(before)
      modifies this`epoch, this`contracts
      ensures Keyed(modified) && epoch == old(epoch).(vs := epoch.vs)
      ensures Step(World(stored + before, old(epoch.vs)), tx, vm, number, i)
           == Outcome(World(stored + modified, epoch.vs), receipt)
      ensures contracts == StepStore(World(stored + before, old(epoch.vs)), old(contracts), tx, vm)
    {
      modified := before;
      var sender := Fetch(modified, tx.from);
      if tx.nonce != sender.nonce {
        receipt := Receipt(tx.hash, number, i % U32, Failure(NonceMismatch), 0, None);
        return;
      }
      if sender.balance < tx.TotalCost() {
        receipt := Receipt(tx.hash, number, i % U32, Failure(InsufficientBalance), 0, None);
        return;
      }
      sender := sender.(balance := Sub128(sender.balance, tx.MaxGasCost()), nonce := (sender.nonce + 1) % U64);
      assert Accepted(World(stored + before, epoch.vs), tx);
      var status, gasUsed, contract := Success, BASE_GAS, None;
      match tx.kind {
        case Transfer => modified := Transfer(tx, sender, modified);
        case ContractDeploy => modified, status, gasUsed, contract := Deploy(tx, vm, sender, modified);
        case ContractCall => modified, status, gasUsed := Call(tx, vm, sender, modified);
        case Stake => modified := Stake(tx, sender, modified);
        case Unstake => modified, status := Unstake(tx, sender, modified);
      }
      receipt := Receipt(tx.hash, number, i % U32, status, gasUsed, contract);
    }

    method AddStake(tx: Tx)
      modifies this`epoch
      ensures epoch == old(epoch).(vs := StakeAdded(old(epoch.vs), tx))
    {
      var list := epoch.vs.validators;
      var i := IndexOf(list, tx.from);
      if i < |list| {
        list := list[i := list[i].(stake := Add128(list[i].stake, tx.value), isActive := true)];
      } else {
        list := list + [Validator(tx.from, tx.publicKey, tx.value, true, None)];
      }
      epoch := epoch.(vs := NewValidatorSet(list, epoch.vs.minStake, epoch.vs.maxValidators));
    }

    method RemoveStake(tx: Tx) returns (r: Result<(), Reason>)
      modifies this`epoch
      ensures var list, i := old(epoch.vs.validators), IndexOf(old(epoch.vs.validators), tx.from);
              if i == |list| then r == Err(NotAValidator) && epoch == old(epoch)
              else if list[i].stake < tx.value then r == Err(InsufficientStake) && epoch == old(epoch)
              else r == Ok(()) && epoch == old(epoch).(vs := StakeRemoved(old(epoch.vs), i, tx.value))
    {
      var list := epoch.vs.validators;
      var i := IndexOf(list, tx.from);
      if i == |list| { return Err(NotAValidator); }
      var v := list[i];
      if v.stake < tx.value { return Err(InsufficientStake); }
      v := v.(stake := v.stake - tx.value);
      if v.stake < epoch.vs.minStake {
        v := v.(isActive := false);
      }
      epoch := epoch.(vs := NewValidatorSet(list[i := v], epoch.vs.minStake, epoch.vs.maxValidators));
      return Ok(());
    }

    /** Running through the overlay and committing once is folding `Step` over the plain map. */
    method ApplyBlock(block: Block, vm: seq<VmAnswer>) returns (r: Result<seq<Receipt>, BlockError>)
      requires Valid() && |vm| == |block.txs|
      modifies this
      ensures Valid()
      ensures r.Ok? <==> Extends(old(View()), block)
      ensures r.Err? ==> View() == old(View()) && contracts == old(contracts) &&
                         r.error == if block.parent != old(head) then ParentMismatch else NumberMismatch
      ensures r.Ok? ==> View() == Applied(old(View()), block, vm) &&
                        r.value == Receipts(old(View().AsWorld()), block, vm, |block.txs|) &&
                        contracts == RunStore(old(View().AsWorld()), old(contracts), block, vm, |block.txs|)
    {
      if block.parent != head { return Err(ParentMismatch); }
      if block.number != height + 1 { return Err(NumberMismatch); }
      var modified, receipts := ExecuteAll(block, vm);
      stored := Commit(stored, modified);
      head, height := block.hash, block.number;
      return Ok(receipts);
    }

    /** The loop over the transactions: the overlay on top of storage is the folded world. */
    method ExecuteAll(block: Block, vm: seq<VmAnswer>) returns (modified: Accounts, receipts: seq<Receipt>)
      requires Valid() && |vm| == |block.txs|
      modifies this`epoch, this`contracts
      ensures Keyed(modified) && epoch == old(epoch).(vs := epoch.vs)
      ensures World(stored + modified, epoch.vs) == RunTxs(old(View().AsWorld()), block, vm, |block.txs|)
      ensures receipts == Receipts(old(View().AsWorld()), block, vm, |block.txs|)
      ensures contracts == RunStore(old(View().AsWorld()), old(contracts), block, vm, |block.txs|)
    {
      hide Step, Keyed, StepStore;
      receipts, modified := [], map[];
      ghost var w := View().AsWorld();
      assert stored + modified == stored;
      assert Keyed(modified) by { EmptyKeyed(); }
      for i := 0 to |block.txs|
        invariant Keyed(modified) && epoch == old(epoch).(vs := epoch.vs)
        invariant World(stored + modified, epoch.vs) == RunTxs(w, block, vm, i)
        invariant receipts == Receipts(w, block, vm, i)
        invariant contracts == RunStore(w, old(contracts), block, vm, i)
      {
        var receipt;
        modified, receipt := ExecuteTx(block.txs[i], vm[i], block.number, i, modified);
        receipts := receipts + [receipt];
      }
    }

    method MaybeAdvanceEpoch(p: Params, now: u64) returns (r: Option<Epoch>)
      modifies this`epoch
      ensures View() == Advanced(old(View()), p, now)
      ensures r == if old(height) == old(epoch.end) then Some(epoch) else None
    {
      if height != epoch.end { return None; }
      var start := height + 1;
      var list := epoch.vs.validators;
      for i := 0 to |list|
        invariant |list| == |epoch.vs.validators|
        invariant forall j :: 0 <= j < i ==> list[j] == Unjail(epoch.vs.validators[j], now, p.minStake)
        invariant forall j :: i <= j < |list| ==> list[j] == epoch.vs.validators[j]
      {
        var v := list[i];
        if v.jailedUntil.Some? && now >= v.jailedUntil.value {
          v := v.(jailedUntil := None);
          if v.stake >= p.minStake {
            v := v.(isActive := true);
          }
          list := list[i := v];
        }
      }
      assert list == UnjailAll(epoch.vs.validators, now, p.minStake);
      list := Eligible(list, p.minStake);
      list := SortByStake(list);
      list := Truncate(list, p.maxValidators);
      epoch := Epoch(epoch.number + 1, start, start + p.epochLength - 1,
                     NewValidatorSet(list, p.minStake, p.maxValidators));
      return Some(epoch);
    }
  }

  lemma {:induction false} GenesisHasNoCode(entries: seq<(Address, u128)>, k: nat, a: Address)
    requires k <= |entries|
    ensures Lookup(GenesisAccounts(entries, k), a).code == None
  {
    if k > 0 { GenesisHasNoCode(entries, k - 1, a); }
  }

  /** From every genesis, over every run: the code of every contract account is stored. */
  lemma CodeHeldFromGenesis(g: Genesis, run: Run, k: nat)
    requires k <= |run|
    ensures CodeHeld(After(GenesisChain(g), g.params, run, k).accounts,
                     StoreAfter(GenesisChain(g), g.params, Store(map[], map[]), run, k))
  {
    hide After, StoreAfter, GenesisAccounts, NewValidatorSet;
    var m := GenesisAccounts(g.accounts, |g.accounts|);
    forall a | a in m ensures m[a].code.None? { GenesisHasNoCode(g.accounts, |g.accounts|, a); }
    RunKeepsCode(GenesisChain(g), g.params, Store(map[], map[]), run, k);
  }

  /** Inside a block too: before each of its transactions the code of the contract it calls is stored. */
  lemma CallFindsCode(g: Genesis, run: Run, i: nat, j: nat)
    requires i < |run| && j < |run[i].block.txs|
    ensures var c, t := After(GenesisChain(g), g.params, run, i), run[i];
            var w := RunTxs(c.AsWorld(), t.block, t.vm, j);
            var s := StoreAfter(GenesisChain(g), g.params, Store(map[], map[]), run, i);
            CallReturns(w, t.block.txs[j], t.vm[j]) ==>
              w.accounts[t.block.txs[j].Target()].code.value in RunStore(c.AsWorld(), s, t.block, t.vm, j).codes
  {
    hide After, StoreAfter, RunTxs, RunStore, GenesisChain;
    var c, s := After(GenesisChain(g), g.params, run, i),
                StoreAfter(GenesisChain(g), g.params, Store(map[], map[]), run, i);
    CodeHeldFromGenesis(g, run, i);
    BlockKeepsCode(c.AsWorld(), s, run[i].block, run[i].vm, j);
  }
}
