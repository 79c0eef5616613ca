/** Epochs: numbering over whole runs, and what a rebuild of the validator set keeps. */
module Epochs {
  import opened Core
  import opened Ledger
  import opened Blocks
  import opened ChainStore
  import Conservation
  import Sorting

  // ---- The sort ----

  predicate Descending(vs: seq<Validator>) {
    forall i, j :: 0 <= i < j < |vs| ==> vs[i].stake >= vs[j].stake
  }

  lemma AtLeastOrders()
    ensures Sorting.Preorder(AtLeast)
  {
  }

  lemma SortPermutes(vs: seq<Validator>)
    ensures multiset(SortByStake(vs)) == multiset(vs) && |SortByStake(vs)| == |vs|
  {
    Sorting.SortPermutes(vs, AtLeast);
  }

  lemma SortDescends(vs: seq<Validator>)
    ensures Descending(SortByStake(vs))
  {
    hide Sorting.Sort;
    AtLeastOrders();
    Sorting.SortOrders(vs, AtLeast);
    var s := SortByStake(vs);
    forall i, j | 0 <= i < j < |s| ensures s[i].stake >= s[j].stake { assert AtLeast(s[i], s[j]); }
  }

  /** The validators of one stake, in list order. */
  function OfStake(vs: seq<Validator>, x: nat): seq<Validator> { Sorting.OfClass(vs, (v: Validator) => v.stake == x) }

  /** Equal stakes stay in their old order. */
  lemma SortIsStable(vs: seq<Validator>, x: nat)
    ensures OfStake(SortByStake(vs), x) == OfStake(vs, x)
  {
    hide Sorting.Sort;
    Sorting.SortKeepsOrder(vs, AtLeast, (v: Validator) => v.stake == x);
  }

  predicate IsActive(v: Validator) { v.isActive }

  /** The cached total counts the active validators and no others. */
  lemma {:induction false} ActiveSumIs(vs: seq<Validator>)
    ensures ActiveSum(vs) == Conservation.SumStakes(Sorting.OfClass(vs, IsActive))
  {
    if vs != [] {
      var n := |vs| - 1;
      ActiveSumIs(vs[..n]);
      var before := Sorting.OfClass(vs[..n], IsActive);
      assert before + [] == before;
      Conservation.SumStakesAppend(before, vs[n]);
    }
  }

  // ---- What a rebuild keeps ----

  lemma {:induction false} EligibleIs(vs: seq<Validator>, minStake: u128, v: Validator)
    ensures multiset(Eligible(vs, minStake))[v] == if v.stake >= minStake then multiset(vs)[v] else 0
  {
    if vs != [] {
      EligibleIs(vs[..|vs| - 1], minStake, v);
      assert vs == vs[..|vs| - 1] + [vs[|vs| - 1]];
    }
  }

  /** The candidates of a rebuild: everyone at or above the minimum, jail terms expired. */
  function Candidates(vs: ValidatorSet, p: Params, now: u64): seq<Validator> {
    Eligible(UnjailAll(vs.validators, now, p.minStake), p.minStake)
  }

  /** A rebuild keeps a top `maxValidators` by stake of the candidates, and all of them if they fit. */
  lemma RebuildKeepsTop(vs: ValidatorSet, p: Params, now: u64)
    ensures var kept, pool := Rebuilt(vs, p, now).validators, Candidates(vs, p, now);
            && |kept| == Min(|pool|, p.maxValidators)
            && Descending(kept)
            && multiset(kept) <= multiset(pool)
            && forall v, d :: v in kept && d in multiset(pool) - multiset(kept) ==> v.stake >= d.stake
  {
    var pool := Candidates(vs, p, now);
    var sorted := SortByStake(pool);
    SortPermutes(pool);
    SortDescends(pool);
    TopOfSorted(sorted, Min(|sorted|, p.maxValidators));
  }

  lemma TopOfSorted(sorted: seq<Validator>, n: nat)
    requires Descending(sorted) && n <= |sorted|
    ensures Descending(sorted[..n]) && multiset(sorted[..n]) <= multiset(sorted)
    ensures forall v, d :: v in sorted[..n] && d in multiset(sorted) - multiset(sorted[..n]) ==> v.stake >= d.stake
  {
    assert sorted == sorted[..n] + sorted[n..];
    forall v, d | v in sorted[..n] && d in sorted[n..] ensures v.stake >= d.stake {
      var i :| 0 <= i < n && sorted[i] == v;
      var j :| 0 <= j < |sorted| - n && sorted[n..][j] == d;
    }
  }

  // ---- Addresses stay unique and the cached total stays right ----

  function Addresses(vs: seq<Validator>): set<Address> { set v | v in vs :: v.address }

  predicate Unique(vs: seq<Validator>) {
    forall i, j :: 0 <= i < j < |vs| ==> vs[i].address != vs[j].address
  }

  ghost predicate Coherent(vs: ValidatorSet) {
    Unique(vs.validators) && vs.totalStake == ActiveSum(vs.validators) % U128
  }

  lemma {:induction false} EligibleUnique(vs: seq<Validator>, minStake: u128)
    requires Unique(vs)
    ensures Unique(Eligible(vs, minStake)) && Addresses(Eligible(vs, minStake)) <= Addresses(vs)
  {
    if vs != [] {
      var n := |vs| - 1;
      EligibleUnique(vs[..n], minStake);
      var r := Eligible(vs[..n], minStake);
      forall i | 0 <= i < |r| ensures r[i].address != vs[n].address {
        assert r[i].address in Addresses(r);
        var v :| v in vs[..n] && v.address == r[i].address;
      }
      assert forall a :: a in Addresses(Eligible(vs, minStake)) ==> a in Addresses(r) || a == vs[n].address;
      assert forall a :: a in Addresses(vs[..n]) ==> a in Addresses(vs);
    }
  }

  lemma UniqueAppend(vs: seq<Validator>, v: Validator)
    requires Unique(vs) && v.address !in Addresses(vs)
    ensures Unique(vs + [v])
  {
    assert forall i :: 0 <= i < |vs| ==> vs[i].address in Addresses(vs);
  }

  lemma AddressesAppend(vs: seq<Validator>, v: Validator)
    ensures Addresses(vs + [v]) == Addresses(vs) + {v.address}
  {
    assert forall u :: u in vs + [v] <==> u in vs || u == v;
  }

  lemma {:induction false} PlaceUnique(vs: seq<Validator>, v: Validator)
    requires Unique(vs) && v.address !in Addresses(vs)
    ensures Unique(Sorting.Place(vs, v, AtLeast))
    ensures Addresses(Sorting.Place(vs, v, AtLeast)) == Addresses(vs) + {v.address}
  {
    hide Addresses;
    if vs == [] || vs[|vs| - 1].stake >= v.stake {
      UniqueAppend(vs, v);
      AddressesAppend(vs, v);
    } else {
      var n := |vs| - 1;
      assert vs == vs[..n] + [vs[n]];
      AddressesAppend(vs[..n], vs[n]);
      PlaceUnique(vs[..n], v);
      LastIsNew(vs);
      UniqueAppend(Sorting.Place(vs[..n], v, AtLeast), vs[n]);
      AddressesAppend(Sorting.Place(vs[..n], v, AtLeast), vs[n]);
    }
  }

  lemma LastIsNew(vs: seq<Validator>)
    requires Unique(vs) && vs != []
    ensures vs[|vs| - 1].address !in Addresses(vs[..|vs| - 1])
  {
  }

  lemma {:induction false} SortUnique(vs: seq<Validator>)
    requires Unique(vs)
    ensures Unique(SortByStake(vs)) && Addresses(SortByStake(vs)) == Addresses(vs)
  {
    hide Addresses, Sorting.Place;
    if vs != [] {
      var n := |vs| - 1;
      SortUnique(vs[..n]);
      assert vs == vs[..n] + [vs[n]];
      AddressesAppend(vs[..n], vs[n]);
      LastIsNew(vs);
      PlaceUnique(SortByStake(vs[..n]), vs[n]);
    }
  }

  lemma RebuildCoherent(vs: ValidatorSet, p: Params, now: u64)
    requires Unique(vs.validators)
    ensures Coherent(Rebuilt(vs, p, now))
  {
    var all := UnjailAll(vs.validators, now, p.minStake);
    assert Unique(all);
    EligibleUnique(all, p.minStake);
    SortUnique(Eligible(all, p.minStake));
  }

  lemma StepCoherent(w: World, tx: Tx, vm: VmAnswer, number: nat, i: nat)
    requires Coherent(w.vs)
    ensures Coherent(Step(w, tx, vm, number, i).world.vs)
  {
    hide ActiveSum, Charged, Credit, Debit;
  }

  lemma {:induction false} BlockCoherent(w: World, b: Block, vm: seq<VmAnswer>, k: nat)
    requires k <= |b.txs| == |vm| && Coherent(w.vs)
    ensures Coherent(RunTxs(w, b, vm, k).vs)
  {
    hide Step, Coherent;
    if k > 0 {
      BlockCoherent(w, b, vm, k - 1);
      StepCoherent(RunTxs(w, b, vm, k - 1), b.txs[k - 1], vm[k - 1], b.number, k - 1);
    }
  }

  lemma CoherentIsUnique(vs: ValidatorSet)
    requires Coherent(vs)
    ensures Unique(vs.validators)
  {
  }

  /** In every state of every run: no validator twice, and the cached total is the active sum. */
  lemma {:induction false} RunCoherent(c: Chain, p: Params, run: Run, k: nat)
    requires k <= |run| && Coherent(c.epoch.vs)
    ensures Coherent(After(c, p, run, k).epoch.vs)
  {
    hide RunTxs, Rebuilt, Coherent, Unique;
    if k > 0 {
      RunCoherent(c, p, run, k - 1);
      var d, t := After(c, p, run, k - 1), run[k - 1];
      if Extends(d, t.block) {
        BlockCoherent(d.AsWorld(), t.block, t.vm, |t.block.txs|);
        var vs := Applied(d, t.block, t.vm).epoch.vs;
        CoherentIsUnique(vs);
        RebuildCoherent(vs, p, t.now);
      }
    }
  }

  lemma GenesisCoherent(g: Genesis)
    requires forall i, j :: 0 <= i < j < |g.validators| ==> g.validators[i].0 != g.validators[j].0
    ensures Coherent(GenesisChain(g).epoch.vs)
  {
  }

  // ---- Epoch numbers tile the heights ----

  predicate Contains(e: Epoch, n: nat) { e.start <= n <= e.end }

  /** The epoch is the one that the next block belongs to. */
  predicate Tiled(c: Chain, length: nat) {
    && length > 0
    && c.epoch.number == (c.height + 1) / length
    && c.epoch.start == c.epoch.number * length
    && c.epoch.end == c.epoch.start + length - 1
  }

  lemma DivIs(n: nat, d: nat, q: nat, r: nat)
    requires n == q * d + r && r < d
    ensures n / d == q && n % d == r
  {
    if n / d < q {
      MulMonotone(n / d + 1, q, d);
    } else if n / d > q {
      MulMonotone(q + 1, n / d, d);
    }
  }

  lemma TiledContains(c: Chain, length: nat)
    requires Tiled(c, length)
    ensures Contains(c.epoch, c.height + 1)
  {
    assert c.height + 1 == (c.height + 1) / length * length + (c.height + 1) % length;
  }

  /** A block and its epoch check keep the tiling. */
  lemma TickTiles(c: Chain, d: Chain, p: Params, now: u64)
    requires p.epochLength >= 2 && Tiled(c, p.epochLength)
    requires d.height == c.height + 1 && d.epoch == c.epoch.(vs := d.epoch.vs)
    ensures Tiled(Advanced(d, p, now), p.epochLength)
  {
    hide Rebuilt;
    var L, q := p.epochLength, c.epoch.number;
    TiledContains(c, L);
    if d.height == c.epoch.end {
      assert d.height + 1 == (q + 1) * L + 0;
      DivIs(d.height + 1, L, q + 1, 0);
    } else {
      DivIs(d.height + 1, L, q, d.height + 1 - q * L);
    }
  }

  lemma {:induction false} RunTiles(c: Chain, p: Params, run: Run, k: nat)
    requires k <= |run| && p.epochLength >= 2 && Tiled(c, p.epochLength)
    ensures Tiled(After(c, p, run, k), p.epochLength)
  {
    hide RunTxs, Advanced, Tiled;
    if k > 0 {
      RunTiles(c, p, run, k - 1);
      var d, t := After(c, p, run, k - 1), run[k - 1];
      if Extends(d, t.block) { TickTiles(d, Applied(d, t.block, t.vm), p, t.now); }
    }
  }

  /** With epochs of one block the first epoch ends at genesis and is never left. */
  lemma {:induction false} OneBlockEpochsStall(c: Chain, p: Params, run: Run, k: nat)
    requires k <= |run| && c.epoch.number == 0 && c.epoch.end == 0
    ensures After(c, p, run, k).epoch.number == 0 && After(c, p, run, k).epoch.end == 0
  {
    hide RunTxs, Rebuilt;
    if k > 0 { OneBlockEpochsStall(c, p, run, k - 1); }
  }

  /** From genesis the tiling holds past the first block exactly for epochs of two blocks or more. */
  lemma TilesIff(g: Genesis, run: Run, k: nat)
    requires k <= |run|
    requires After(GenesisChain(g), g.params, run, k).height >= 1
    ensures Tiled(After(GenesisChain(g), g.params, run, k), g.params.epochLength) <==> g.params.epochLength >= 2
  {
    hide After, GenesisAccounts, GenesisValidators, NewValidatorSet;
    var c := GenesisChain(g);
    if g.params.epochLength >= 2 {
      DivIs(1, g.params.epochLength, 0, 1);
      RunTiles(c, g.params, run, k);
    } else if g.params.epochLength == 1 {
      OneBlockEpochsStall(c, g.params, run, k);
    }
  }

  /** With a length of zero the first end wraps around: the first epoch lasts through height 2^64 - 1. */
  lemma {:induction false} ZeroLengthLasts(g: Genesis, run: Run, k: nat)
    requires k <= |run| && g.params.epochLength == 0 && After(GenesisChain(g), g.params, run, k).height < U64 - 1
    ensures var e := After(GenesisChain(g), g.params, run, k).epoch;
            e.number == 0 && e.start == 0 && e.end == U64 - 1
  {
    hide RunTxs, Rebuilt, GenesisAccounts, GenesisValidators, NewValidatorSet;
    if k > 0 { ZeroLengthLasts(g, run, k - 1); }
  }

  /** Reopening a database recomputes `height / length`: right exactly off the epoch's last block. */
  lemma ReloadAgreesIff(c: Chain, length: nat)
    requires Tiled(c, length)
    ensures c.height / length == c.epoch.number <==> (c.height + 1) % length != 0
  {
    var q, r := (c.height + 1) / length, (c.height + 1) % length;
    assert c.height + 1 == q * length + r;
    if r > 0 {
      DivIs(c.height, length, q, r - 1);
    } else {
      assert q > 0;
      assert c.height == (q - 1) * length + (length - 1);
      DivIs(c.height, length, q - 1, length - 1);
    }
  }
}
