/** Replay safety: the nonces a sender gets accepted, over any number of blocks, count up from the
    account's nonce without gap or repeat, whatever the transactions and the virtual machine do. */
module Replay {
  import opened Core
  import opened Ledger
  import opened Blocks
  import opened ChainStore

  function NonceOf(w: World, s: Address): u64 { Lookup(w.accounts, s).nonce }

  /** A deployment lands on the address of somebody other than its sender. */
  predicate Resets(w: World, tx: Tx, vm: VmAnswer, s: Address) {
    Accepted(w, tx) && tx.kind.ContractDeploy? && vm.deploy.Some? && vm.deploy.value.contract == s && s != tx.from
  }

  predicate Spends(w: World, tx: Tx, s: Address) { Accepted(w, tx) && tx.from == s }

  lemma StepNonce(w: World, tx: Tx, vm: VmAnswer, number: nat, i: nat, s: Address)
    ensures NonceOf(Step(w, tx, vm, number, i).world, s) ==
            if Spends(w, tx, s) then (NonceOf(w, s) + 1) % U64
            else if Resets(w, tx, vm, s) then 0
            else NonceOf(w, s)
  {
  }

  /** A step advances the nonce exactly for its own sender, unless it resets a nonce in use. */
  lemma NonceAdvancesIff(w: World, tx: Tx, vm: VmAnswer, number: nat, i: nat, s: Address)
    ensures NonceOf(Step(w, tx, vm, number, i).world, s)
              == (NonceOf(w, s) + (if Spends(w, tx, s) then 1 else 0)) % U64
       <==> !(Resets(w, tx, vm, s) && NonceOf(w, s) != 0)
  {
    hide Step;
    StepNonce(w, tx, vm, number, i, s);
  }

  // ---- Blocks ----

  /** Nonces of `s` accepted among the first `k` transactions, in order. */
  function BlockNonces(w: World, b: Block, vm: seq<VmAnswer>, k: nat, s: Address): seq<u64>
    requires k <= |b.txs| == |vm|
  {
    if k == 0 then []
    else BlockNonces(w, b, vm, k - 1, s) +
         (if Spends(RunTxs(w, b, vm, k - 1), b.txs[k - 1], s) then [b.txs[k - 1].nonce] else [])
  }

  predicate KeepsNonce(w: World, b: Block, vm: seq<VmAnswer>, k: nat, s: Address)
    requires k <= |b.txs| == |vm|
  {
    forall j :: 0 <= j < k ==>
      !(Resets(RunTxs(w, b, vm, j), b.txs[j], vm[j], s) && NonceOf(RunTxs(w, b, vm, j), s) != 0)
  }

  /** `ns` counts up from `first` in 64 bits. */
  predicate Counts(ns: seq<u64>, first: nat) {
    forall i :: 0 <= i < |ns| ==> ns[i] == (first + i) % U64
  }

  lemma CountsAppend(a: seq<u64>, b: seq<u64>, first: nat)
    requires Counts(a, first) && Counts(b, (first + |a|) % U64)
    ensures Counts(a + b, first)
    ensures (first + |a + b|) % U64 == ((first + |a|) % U64 + |b|) % U64
  {
    var n := first + |a|;
    CutTwice(n, |b|);
    forall i | |a| <= i < |a + b| ensures (a + b)[i] == (first + i) % U64 {
      CutTwice(n, i - |a|);
      assert (a + b)[i] == b[i - |a|] == (n % U64 + (i - |a|)) % U64;
    }
  }

  lemma CutTwice(n: nat, k: nat)
    ensures (n % U64 + k) % U64 == (n + k) % U64
  {
    var q := n / U64;
    assert n + k == U64 * q + (n % U64 + k);
    CutMultiple(q, n % U64 + k);
  }

  lemma CutMultiple(q: nat, x: nat)
    ensures (U64 * q + x) % U64 == x % U64
  {
    var d := (U64 * q + x) / U64 - (q + x / U64);
    assert U64 * d == x % U64 - (U64 * q + x) % U64;
  }

  lemma {:induction false} BlockCounts(w: World, b: Block, vm: seq<VmAnswer>, k: nat, s: Address)
    requires k <= |b.txs| == |vm| && KeepsNonce(w, b, vm, k, s)
    ensures Counts(BlockNonces(w, b, vm, k, s), NonceOf(w, s))
    ensures NonceOf(RunTxs(w, b, vm, k), s) == (NonceOf(w, s) + |BlockNonces(w, b, vm, k, s)|) % U64
  {
    hide Step, NonceOf, Resets, Counts, Accepted;
    if k == 0 {
      NoneCounted(NonceOf(w, s));
    } else {
      BlockCounts(w, b, vm, k - 1, s);
      var d, tx := RunTxs(w, b, vm, k - 1), b.txs[k - 1];
      NonceAdvancesIff(d, tx, vm[k - 1], b.number, k - 1, s);
      var more := if Spends(d, tx, s) then [tx.nonce] else [];
      OneCounted(d, tx, s);
      CountsAppend(BlockNonces(w, b, vm, k - 1, s), more, NonceOf(w, s));
    }
  }

  lemma NoneCounted(first: nat)
    ensures Counts([], first)
  {
  }

  lemma OneCounted(w: World, tx: Tx, s: Address)
    ensures Counts(if Spends(w, tx, s) then [tx.nonce] else [], NonceOf(w, s))
  {
  }

  // ---- Runs ----

  function RunNonces(c: Chain, p: Params, run: Run, k: nat, s: Address): seq<u64>
    requires k <= |run|
  {
    if k == 0 then []
    else
      var d, t := After(c, p, run, k - 1), run[k - 1];
      RunNonces(c, p, run, k - 1, s) +
      (if Extends(d, t.block) then BlockNonces(d.AsWorld(), t.block, t.vm, |t.block.txs|, s) else [])
  }

  /** No deployment of the run lands on `s` once `s` has a nonce in use. */
  predicate NeverReset(c: Chain, p: Params, run: Run, s: Address) {
    forall k :: 0 <= k < |run| && Extends(After(c, p, run, k), run[k].block) ==>
      KeepsNonce(After(c, p, run, k).AsWorld(), run[k].block, run[k].vm, |run[k].block.txs|, s)
  }

  /** Only the transactions of a tick change accounts. */
  lemma TickNonce(d: Chain, p: Params, t: Tick, s: Address)
    requires |t.vm| == |t.block.txs|
    ensures NonceOf(Advanced(Applied(d, t.block, t.vm), p, t.now).AsWorld(), s)
         == NonceOf(RunTxs(d.AsWorld(), t.block, t.vm, |t.block.txs|), s)
  {
    hide RunTxs, Rebuilt;
  }

  lemma {:induction false} RunCounts(c: Chain, p: Params, run: Run, k: nat, s: Address)
    requires k <= |run| && NeverReset(c, p, run, s)
    ensures Counts(RunNonces(c, p, run, k, s), NonceOf(c.AsWorld(), s))
    ensures NonceOf(After(c, p, run, k).AsWorld(), s) == (NonceOf(c.AsWorld(), s) + |RunNonces(c, p, run, k, s)|) % U64
  {
    hide RunTxs, BlockNonces, KeepsNonce, Advanced, Applied, NonceOf, Counts;
    if k == 0 {
      NoneCounted(NonceOf(c.AsWorld(), s));
    } else {
      RunCounts(c, p, run, k - 1, s);
      var d, t := After(c, p, run, k - 1), run[k - 1];
      if Extends(d, t.block) {
        BlockCounts(d.AsWorld(), t.block, t.vm, |t.block.txs|, s);
        TickNonce(d, p, t, s);
        CountsAppend(RunNonces(c, p, run, k - 1, s), BlockNonces(d.AsWorld(), t.block, t.vm, |t.block.txs|, s),
                     NonceOf(c.AsWorld(), s));
      } else {
        assert RunNonces(c, p, run, k, s) == RunNonces(c, p, run, k - 1, s);
      }
    }
  }

  /** From an unused account: 0, 1, 2, ... and no nonce twice among the first 2^64. */
  lemma NoReplay(c: Chain, p: Params, run: Run, s: Address)
    requires NeverReset(c, p, run, s) && NonceOf(c.AsWorld(), s) == 0
    ensures var ns := RunNonces(c, p, run, |run|, s);
            && (forall i :: 0 <= i < |ns| && i < U64 ==> ns[i] == i)
            && (forall i, j :: 0 <= i < j < |ns| && j < U64 ==> ns[i] != ns[j])
  {
    hide RunNonces, NonceOf, NeverReset;
    RunCounts(c, p, run, |run|, s);
  }

  /** At genesis every nonce is zero. */
  lemma {:induction false} GenesisNonces(entries: seq<(Address, u128)>, k: nat, s: Address)
    requires k <= |entries|
    ensures Lookup(GenesisAccounts(entries, k), s).nonce == 0
  {
    if k > 0 { GenesisNonces(entries, k - 1, s); }
  }

  lemma NoReplayFromGenesis(g: Genesis, run: Run, s: Address)
    requires NeverReset(GenesisChain(g), g.params, run, s)
    ensures var ns := RunNonces(GenesisChain(g), g.params, run, |run|, s);
            && (forall i :: 0 <= i < |ns| && i < U64 ==> ns[i] == i)
            && (forall i, j :: 0 <= i < j < |ns| && j < U64 ==> ns[i] != ns[j])
  {
    GenesisNonces(g.accounts, |g.accounts|, s);
    hide RunNonces, NeverReset;
    NoReplay(GenesisChain(g), g.params, run, s);
  }

  /** Why the condition is needed: a deployment onto an address in use makes its nonce 0 accepted again. */
  lemma ResetReplays(s: Address, from: Address, code: Hash)
    requires s != from
    ensures var w := World(map[s := Account(s, 50, 1, None), from := Account(from, 100, 0, None)],
                           ValidatorSet([], 0, 0, 0));
            var deploy := Tx(Hash(0), 0, from, None, 40, ContractDeploy, 1, 1, 0, []);
            var vm := VmAnswer(Some(Deployment(s, code, 1, map[], map[])), None);
            var old0 := Tx(Hash(1), 0, s, Some(from), 1, Transfer, 1, 1, 0, []);
            && Resets(w, deploy, vm, s)
            && !Accepted(w, old0)
            && Accepted(Step(w, deploy, vm, 1, 0).world, old0)
  {
    var w := World(map[s := Account(s, 50, 1, None), from := Account(from, 100, 0, None)],
                   ValidatorSet([], 0, 0, 0));
    var deploy := Tx(Hash(0), 0, from, None, 40, ContractDeploy, 1, 1, 0, []);
    var vm := VmAnswer(Some(Deployment(s, code, 1, map[], map[])), None);
    var after := Step(w, deploy, vm, 1, 0).world;
    assert Accepted(w, deploy);
    assert after.accounts[s] == Account(s, 40, 0, Some(code));
  }
}
