/** Producing a block (crates/consensus/src/engine.rs): propose, select, apply, set the gas used,
    prune, advance the epoch; and when the produced header passes its own gas check. */
module Production {
  import opened Core
  import opened Ledger
  import opened Blocks
  import opened ChainStore
  import opened CodeStore
  import Finality
  import Pool
  import Proposer
  import Quorum

  // ---- Gas of a block ----

  predicate VmWithin(tx: Tx, vm: VmAnswer) {
    && (vm.deploy.Some? ==> vm.deploy.value.gasUsed <= tx.gasLimit)
    && (vm.call.Some? ==> vm.call.value.gasUsed <= tx.gasLimit)
  }

  /** A receipt's gas stays within its transaction's limit when the limit covers the base gas. */
  lemma StepGas(w: World, tx: Tx, vm: VmAnswer, number: nat, i: nat)
    requires tx.gasLimit >= BASE_GAS && VmWithin(tx, vm)
    ensures Step(w, tx, vm, number, i).receipt.gasUsed <= tx.gasLimit
  {
  }

  /** For accepted transfers and staking that is exactly when. */
  lemma NativeGasIff(w: World, tx: Tx, vm: VmAnswer, number: nat, i: nat)
    requires Accepted(w, tx) && (tx.kind.Transfer? || tx.kind.Stake? || tx.kind.Unstake?)
    ensures Step(w, tx, vm, number, i).receipt.gasUsed <= tx.gasLimit <==> tx.gasLimit >= BASE_GAS
  {
  }

  /** One receipt per transaction, in order, with its hash, block and position. */
  lemma {:induction false} ReceiptsInOrder(w: World, b: Block, vm: seq<VmAnswer>, k: nat, i: nat)
    requires i < k <= |b.txs| == |vm|
    ensures |Receipts(w, b, vm, k)| == k
    ensures var r := Receipts(w, b, vm, k)[i];
            && r == Step(RunTxs(w, b, vm, i), b.txs[i], vm[i], b.number, i).receipt
            && r.txHash == b.txs[i].hash && r.block == b.number && r.index == i % U32
  {
    hide EffectOf, Accepted, RunTxs;
    if k > 1 { ReceiptsInOrder(w, b, vm, k - 1, if i < k - 1 then i else 0); }
  }

  /** The header's `gas_used`: the receipts' gas added in 64 bits. */
  function HeaderGas(rs: seq<Receipt>): u64 {
    if rs == [] then 0 else Add64(HeaderGas(rs[..|rs| - 1]), rs[|rs| - 1].gasUsed)
  }

  lemma HeaderGasAppend(rs: seq<Receipt>, r: Receipt)
    ensures HeaderGas(rs + [r]) == Add64(HeaderGas(rs), r.gasUsed)
  {
    assert (rs + [r])[..|rs|] == rs;
  }

  /** All gas of the receipts. */
  function AllGas(rs: seq<Receipt>): nat { if rs == [] then 0 else rs[0].gasUsed + AllGas(rs[1..]) }

  lemma {:induction false} AllGasAppend(rs: seq<Receipt>, r: Receipt)
    ensures AllGas(rs + [r]) == AllGas(rs) + r.gasUsed
  {
    if rs == [] {
      assert [r][1..] == [];
      assert rs + [r] == [r];
    } else {
      assert (rs + [r])[1..] == rs[1..] + [r];
      AllGasAppend(rs[1..], r);
    }
  }

  /** The header tells the sum, in 64 bits. */
  lemma {:induction false} HeaderGasIs(rs: seq<Receipt>)
    ensures HeaderGas(rs) == AllGas(rs) % U64
  {
    if rs != [] {
      var n := |rs| - 1;
      HeaderGasIs(rs[..n]);
      assert rs == rs[..n] + [rs[n]];
      AllGasAppend(rs[..n], rs[n]);
      AddCut(AllGas(rs[..n]), rs[n].gasUsed);
    }
  }

  lemma AddCut(a: nat, b: u64)
    ensures Add64(a % U64, b) == (a + b) % U64
  {
  }

  predicate Covered(b: Block, vm: seq<VmAnswer>)
    requires |vm| == |b.txs|
  {
    forall i :: 0 <= i < |b.txs| ==> b.txs[i].gasLimit >= BASE_GAS && VmWithin(b.txs[i], vm[i])
  }

  lemma {:induction false} BlockGas(w: World, b: Block, vm: seq<VmAnswer>, k: nat)
    requires k <= |b.txs| == |vm| && Covered(b, vm) && Pool.GasOf(b.txs[..k]) < U64
    ensures HeaderGas(Receipts(w, b, vm, k)) <= Pool.GasOf(b.txs[..k])
  {
    hide Step, RunTxs, VmWithin;
    if k > 0 {
      assert b.txs[..k] == b.txs[..k - 1] + [b.txs[k - 1]];
      Pool.GasOfAppend(b.txs[..k - 1], b.txs[k - 1]);
      BlockGas(w, b, vm, k - 1);
      var d := RunTxs(w, b, vm, k - 1);
      StepGas(d, b.txs[k - 1], vm[k - 1], b.number, k - 1);
      HeaderGasAppend(Receipts(w, b, vm, k - 1), Step(d, b.txs[k - 1], vm[k - 1], b.number, k - 1).receipt);
    }
  }

  /** A block filled by the pool never reports more gas than its limit, if every limit covers the base gas. */
  lemma ProducedHeaderIsValid(order: seq<Tx>, pending: Pool.Pending, limit: u64, count: nat,
                              w: World, b: Block, vm: seq<VmAnswer>)
    requires Pool.Lists(order, pending) && Pool.NoOverflow(order, limit)
    requires b.txs == Pool.Selection(order, limit, count) && |vm| == |b.txs| && Covered(b, vm)
    ensures HeaderGas(Receipts(w, b, vm, |b.txs|)) <= limit
  {
    hide Pool.Selection, Receipts, Covered, Pool.GasOf;
    Pool.SelectionIsGood(order, pending, limit, count);
    assert b.txs[..|b.txs|] == b.txs;
    BlockGas(w, b, vm, |b.txs|);
  }

  /** Without it the check fails: a transfer with gas limit 1 fits a block limit of 1 and uses 21000. */
  lemma SmallLimitOverruns(tx: Tx, w: World, vm: VmAnswer, number: nat)
    requires tx.kind.Transfer? && tx.gasLimit == 1 && Accepted(w, tx)
    ensures Pool.Selection([tx], 1, 1) == [tx]
    ensures HeaderGas([Step(w, tx, vm, number, 0).receipt]) > 1
  {
    var none: seq<Tx> := [];
    Pool.SortedOne(tx);
    hide Pool.Sorted;
    assert Pool.Picked([tx], 0, 1, 1) == none;
    Pool.NoGas();
    var r := Step(w, tx, vm, number, 0).receipt;
    assert r.gasUsed == BASE_GAS;
    var nothing: seq<Receipt> := [];
    assert [r] == nothing + [r];
    HeaderGasAppend(nothing, r);
  }

  // ---- The sequence ----

  function Active(vs: seq<Validator>): seq<Validator> {
    if vs == [] then []
    else Active(vs[..|vs| - 1]) + (if Quorum.Voting(vs[|vs| - 1]) then [vs[|vs| - 1]] else [])
  }

  lemma {:induction false} ActiveIs(vs: seq<Validator>, v: Validator)
    ensures multiset(Active(vs))[v] == if Quorum.Voting(v) then multiset(vs)[v] else 0
  {
    if vs != [] {
      ActiveIs(vs[..|vs| - 1], v);
      assert vs == vs[..|vs| - 1] + [vs[|vs| - 1]];
    }
  }

  /** The list of the voting validators keeps their order. */
  lemma {:induction false} ActiveInOrder(a: seq<Validator>, b: seq<Validator>)
    ensures Active(a + b) == Active(a) + Active(b)
  {
    if b == [] {
      assert a + b == a;
    } else {
      var n := |b| - 1;
      assert (a + b)[..|a| + n] == a + b[..n];
      ActiveInOrder(a, b[..n]);
    }
  }

  datatype Produced = NotOurTurn | NoProposer(error: Proposer.Error) | NewBlock(block: Block, gasUsed: u64)

  function Hashes(txs: seq<Tx>): (r: seq<Hash>)
    ensures |r| == |txs| && forall i :: 0 <= i < |txs| ==> r[i] == txs[i].hash
  {
    seq(|txs|, i requires 0 <= i < |txs| => txs[i].hash)
  }

  function Answers(vm: nat -> VmAnswer, n: nat): (r: seq<VmAnswer>)
    ensures |r| == n && forall i :: 0 <= i < n ==> r[i] == vm(i)
  {
    seq(n, i requires 0 <= i < n => vm(i))
  }

  /** The finality engine after the epoch check: the new set if an epoch started, then the node's own vote. */
  function Notified(e: Finality.Engine, before: Chain, after: Chain, v: Finality.Vote): Finality.Engine {
    var f := if v.number == before.epoch.end then e.(vs := after.epoch.vs.validators) else e;
    Finality.Voted(f, v).0
  }

  /** The engine has the new set exactly after an epoch's last block; and the node's own vote, if it is a voter
      and the height is open, is held or has finalized the height. */
  lemma NotifiedIs(e: Finality.Engine, before: Chain, after: Chain, v: Finality.Vote)
    requires v.signed
    ensures var f := Notified(e, before, after, v);
            && f.vs == (if v.number == before.epoch.end then after.epoch.vs.validators else e.vs)
            && (Finality.IsVoter(f.vs, v.validator) && v.number > e.finalized ==>
                  f.finalized == v.number || v in Finality.VotesAt(f.votes, v.number))
  {
    hide Finality.Voted, Finality.IsVoter, Finality.Tally, Quorum.Threshold;
    var g := if v.number == before.epoch.end then e.(vs := after.epoch.vs.validators) else e;
    Finality.VoteIs(g, v, v.number);
  }

  /** `hashOf` stands for the header hash, `sealed` for the hash of the signed header with the gas set,
      `draw` for the seeded draw, `vm` for the virtual machine. */
  method TryProduceBlock(state: ChainState, pool: Pool.TransactionPool, finality: Finality.FinalityEngine,
                         self: Address, limit: u64, count: nat, p: Params, draw: Proposer.Draw,
                         hashOf: (Hash, nat, seq<Tx>) -> Hash, sealed: (Block, u64) -> Hash,
                         vm: nat -> VmAnswer, now: u64)
    returns (r: Produced, ghost order: seq<Tx>)
    requires state.Valid() && Pool.Agrees(pool.View())
    modifies state, pool, finality
    ensures state.Valid() && Pool.Agrees(pool.View())
    ensures !r.NewBlock? ==>
      && state.View() == old(state.View()) && state.contracts == old(state.contracts)
      && pool.View() == old(pool.View()) && finality.View() == old(finality.View())
    ensures r.NewBlock? <==> Proposer.Selected(Active(old(state.epoch.vs.validators)), draw) == Ok(self)
    ensures r.NewBlock? ==>
      var b, c := r.block, old(state.View());
      && Pool.Lists(order, old(pool.pending)) && b.txs == Pool.Selection(order, limit, count)
      && Extends(c, b) && b.hash == hashOf(c.head, c.height + 1, b.txs)
      && state.View() == Advanced(Applied(c, b, Answers(vm, |b.txs|)), p, now)
      && r.gasUsed == HeaderGas(Receipts(c.AsWorld(), b, Answers(vm, |b.txs|), |b.txs|))
      && state.contracts == RunStore(c.AsWorld(), old(state.contracts), b, Answers(vm, |b.txs|), |b.txs|)
      && pool.View() == Pool.Pruned(old(pool.View()), Hashes(b.txs), |b.txs|)
      && finality.View() == Notified(old(finality.View()), c, state.View(),
                                     Finality.Vote(b.number, sealed(b, r.gasUsed), self, self, true))
  {
    hide Pool.Selection, Pool.Pruned, Pool.Agrees, Pool.Lists, Proposer.Selected, Active,
         Advanced, Receipts, RunTxs, RunStore, Finality.Voted;
    order := [];
    var proposer := Proposer.SelectProposer(Active(state.epoch.vs.validators), draw);
    if proposer.Err? { return NoProposer(proposer.error), order; }
    if proposer.value != self { return NotOurTurn, order; }
    var txs;
    txs, order := pool.SelectTransactions(limit, count);
    var number := state.height + 1;
    var block := Block(hashOf(state.head, number, txs), state.head, number, txs);
    var applied := state.ApplyBlock(block, Answers(vm, |txs|));
    var gasUsed := SumGas(applied.value);
    pool.PruneCommitted(Hashes(txs));
    var advanced := state.MaybeAdvanceEpoch(p, now);
    if advanced.Some? {
      finality.UpdateValidatorSet(advanced.value.vs.validators);
    }
    var _ := finality.AddVote(Finality.Vote(number, sealed(block, gasUsed), self, self, true));
    return NewBlock(block, gasUsed), order;
  }

  method SumGas(rs: seq<Receipt>) returns (total: u64)
    ensures total == HeaderGas(rs)
  {
    total := 0;
    for i := 0 to |rs|
      invariant total == HeaderGas(rs[..i])
    {
      assert rs[..i + 1] == rs[..i] + [rs[i]];
      HeaderGasAppend(rs[..i], rs[i]);
      total := Add64(total, rs[i].gasUsed);
    }
    assert rs[..|rs|] == rs;
  }
}
