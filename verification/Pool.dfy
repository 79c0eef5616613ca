/** The transaction pool (crates/consensus/src/tx_pool.rs): a primary map, an index by sender, and
    the greedy selection that fills a block. */
module Pool {
  import opened Core
  import opened Ledger
  import Sorting

  type Pending = map<Hash, Tx>
  type BySender = map<Address, set<(u64, Hash)>>

  datatype Pool = Pool(pending: Pending, bySender: BySender, maxSize: nat, minGasPrice: u64)

  datatype Error = InvalidTransaction | GasPriceTooLow | PoolFull | Duplicate

  function Group(index: BySender, s: Address): set<(u64, Hash)> { if s in index then index[s] else {} }

  /** `verified` is the outcome of the signature and structure checks. */
  function Inserted(p: Pool, tx: Tx, verified: bool): (Pool, Result<(), Error>) {
    if !verified then (p, Err(InvalidTransaction))
    else if tx.gasPrice < p.minGasPrice then (p, Err(GasPriceTooLow))
    else if |p.pending| >= p.maxSize then (p, Err(PoolFull))
    else if tx.hash in p.pending then (p, Err(Duplicate))
    else (p.(pending := p.pending[tx.hash := tx],
             bySender := p.bySender[tx.from := Group(p.bySender, tx.from) + {(tx.nonce, tx.hash)}]), Ok(()))
  }

  function Removed(p: Pool, h: Hash): Pool {
    if h !in p.pending then p
    else
      var tx := p.pending[h];
      var left := Group(p.bySender, tx.from) - {(tx.nonce, h)};
      p.(pending := p.pending - {h},
         bySender := if tx.from !in p.bySender then p.bySender
                     else if left == {} then p.bySender - {tx.from} else p.bySender[tx.from := left])
  }

  function Pruned(p: Pool, hashes: seq<Hash>, k: nat): Pool
    requires k <= |hashes|
  {
    if k == 0 then p else Removed(Pruned(p, hashes, k - 1), hashes[k - 1])
  }

  // ---- The index agrees with the pool ----

  /** The (nonce, hash) pairs of one sender's pending transactions. */
  function Owned(pending: Pending, s: Address): set<(u64, Hash)> {
    set h | h in pending && pending[h].from == s :: (pending[h].nonce, h)
  }

  ghost predicate Agrees(p: Pool) {
    && (forall h :: h in p.pending ==> p.pending[h].hash == h)
    && (forall s :: Group(p.bySender, s) == Owned(p.pending, s))
    && (forall s :: s in p.bySender ==> p.bySender[s] != {})
    && |p.pending| <= p.maxSize
  }

  lemma OwnedPut(pending: Pending, tx: Tx, s: Address)
    requires tx.hash !in pending
    ensures Owned(pending[tx.hash := tx], s) == Owned(pending, s) + (if tx.from == s then {(tx.nonce, tx.hash)} else {})
  {
    var more := pending[tx.hash := tx];
    forall x | x in Owned(pending, s) ensures x in Owned(more, s) { assert more[x.1] == pending[x.1]; }
    if tx.from == s { assert more[tx.hash] == tx; }
  }

  lemma OwnedDrop(pending: Pending, h: Hash, s: Address)
    requires h in pending
    ensures Owned(pending - {h}, s)
         == Owned(pending, s) - (if pending[h].from == s then {(pending[h].nonce, h)} else {})
  {
    var less := pending - {h};
    forall x | x in Owned(pending, s) && x.1 != h ensures x in Owned(less, s) { assert less[x.1] == pending[x.1]; }
    if pending[h].from != s { assert forall x :: x in Owned(pending, s) ==> x.1 != h; }
  }

  lemma InsertAgrees(p: Pool, tx: Tx, verified: bool)
    requires Agrees(p)
    ensures Agrees(Inserted(p, tx, verified).0)
  {
    if Inserted(p, tx, verified).1.Ok? {
      hide Agrees, Group;
      AddedAgrees(p, tx);
    }
  }

  lemma AddedAgrees(p: Pool, tx: Tx)
    requires Agrees(p) && tx.hash !in p.pending && |p.pending| < p.maxSize
    ensures var g := Group(p.bySender, tx.from) + {(tx.nonce, tx.hash)};
            Agrees(p.(pending := p.pending[tx.hash := tx], bySender := p.bySender[tx.from := g]))
  {
    hide Owned, Group;
    var g := Group(p.bySender, tx.from) + {(tx.nonce, tx.hash)};
    var pending, index := p.pending[tx.hash := tx], p.bySender[tx.from := g];
    forall s ensures Group(index, s) == Owned(pending, s) {
      OwnedPut(p.pending, tx, s);
      GroupPut(p.bySender, tx.from, g, s);
    }
    forall s | s in index ensures index[s] != {} { assert (tx.nonce, tx.hash) in g; }
    assert pending.Keys == p.pending.Keys + {tx.hash};
  }

  lemma GroupPut(index: BySender, a: Address, g: set<(u64, Hash)>, s: Address)
    ensures Group(index[a := g], s) == if s == a then g else Group(index, s)
  {
  }

  lemma RemoveAgrees(p: Pool, h: Hash)
    requires Agrees(p)
    ensures Agrees(Removed(p, h))
  {
    hide Owned;
    var q := Removed(p, h);
    if h in p.pending {
      var tx := p.pending[h];
      assert (tx.nonce, h) in Group(p.bySender, tx.from) by { OwnsIts(p.pending, h); }
      forall s ensures Group(q.bySender, s) == Owned(q.pending, s) { OwnedDrop(p.pending, h, s); }
      assert q.pending.Keys == p.pending.Keys - {h};
    }
  }

  lemma OwnsIts(pending: Pending, h: Hash)
    requires h in pending
    ensures (pending[h].nonce, h) in Owned(pending, pending[h].from)
  {
  }

  datatype Op = Insert(tx: Tx, verified: bool) | Remove(hash: Hash) | Prune(hashes: seq<Hash>)

  function Next(p: Pool, o: Op): Pool {
    match o
    case Insert(tx, verified) => Inserted(p, tx, verified).0
    case Remove(h) => Removed(p, h)
    case Prune(hashes) => Pruned(p, hashes, |hashes|)
  }

  function After(p: Pool, ops: seq<Op>, k: nat): Pool
    requires k <= |ops|
  {
    if k == 0 then p else Next(After(p, ops, k - 1), ops[k - 1])
  }

  lemma {:induction false} PruneAgrees(p: Pool, hashes: seq<Hash>, k: nat)
    requires k <= |hashes| && Agrees(p)
    ensures Agrees(Pruned(p, hashes, k))
  {
    hide Agrees, Removed;
    if k > 0 {
      PruneAgrees(p, hashes, k - 1);
      RemoveAgrees(Pruned(p, hashes, k - 1), hashes[k - 1]);
    }
  }

  /** After any operations the index holds exactly the pool, grouped, with no empty group. */
  lemma {:induction false} RunAgrees(p: Pool, ops: seq<Op>, k: nat)
    requires k <= |ops| && Agrees(p)
    ensures Agrees(After(p, ops, k))
  {
    hide Agrees, Inserted, Removed, Pruned;
    if k > 0 {
      RunAgrees(p, ops, k - 1);
      var d := After(p, ops, k - 1);
      match ops[k - 1]
      case Insert(tx, verified) => InsertAgrees(d, tx, verified);
      case Remove(h) => RemoveAgrees(d, h);
      case Prune(hashes) => PruneAgrees(d, hashes, |hashes|);
    }
  }

  // ---- What is in the pool ----

  /** When an insert is refused, and with which answer; otherwise the pool gains exactly the transaction. */
  lemma InsertIs(p: Pool, tx: Tx, verified: bool)
    ensures var (q, r) := Inserted(p, tx, verified);
            && (r.Ok? <==> verified && tx.gasPrice >= p.minGasPrice && |p.pending| < p.maxSize && tx.hash !in p.pending)
            && (r.Ok? ==> q.pending == p.pending[tx.hash := tx])
            && (r.Err? ==> q == p)
            && (r == Err(InvalidTransaction) <==> !verified)
            && (r == Err(GasPriceTooLow) <==> verified && tx.gasPrice < p.minGasPrice)
            && (r == Err(PoolFull) <==> verified && tx.gasPrice >= p.minGasPrice && |p.pending| >= p.maxSize)
  {
  }

  /** Pruning removes exactly the listed transactions. */
  lemma {:induction false} PrunedIs(p: Pool, hashes: seq<Hash>, k: nat)
    requires k <= |hashes|
    ensures Pruned(p, hashes, k).pending == p.pending - (set i | 0 <= i < k :: hashes[i])
  {
    if k > 0 {
      PrunedIs(p, hashes, k - 1);
      RemovedIs(Pruned(p, hashes, k - 1), hashes[k - 1]);
      assert (set i | 0 <= i < k :: hashes[i]) == (set i | 0 <= i < k - 1 :: hashes[i]) + {hashes[k - 1]};
    }
  }

  lemma RemovedIs(p: Pool, h: Hash)
    ensures Removed(p, h).pending == p.pending - {h}
  {
  }

  function PendingAt(p: Pool, h: Hash): Option<Tx> { if h in p.pending then Some(p.pending[h]) else None }

  /** What the last operation about the hash leaves: the transaction of a successful insert, nothing after a
      removal, and before any the pool's own. */
  function LastWord(p: Pool, ops: seq<Op>, k: nat, h: Hash): Option<Tx>
    requires k <= |ops|
  {
    if k == 0 then PendingAt(p, h)
    else
      match ops[k - 1]
      case Insert(tx, verified) =>
        if tx.hash == h && Inserted(After(p, ops, k - 1), tx, verified).1.Ok? then Some(tx)
        else LastWord(p, ops, k - 1, h)
      case Remove(x) => if x == h then None else LastWord(p, ops, k - 1, h)
      case Prune(hashes) => if h in hashes then None else LastWord(p, ops, k - 1, h)
  }

  /** After any operations a hash is pending exactly when its last successful insert is not followed by a
      removal, and it stands for that transaction. */
  lemma {:induction false} RunHolds(p: Pool, ops: seq<Op>, k: nat, h: Hash)
    requires k <= |ops|
    ensures PendingAt(After(p, ops, k), h) == LastWord(p, ops, k, h)
  {
    hide Inserted, Removed, Pruned;
    if k > 0 {
      RunHolds(p, ops, k - 1, h);
      var d := After(p, ops, k - 1);
      match ops[k - 1]
      case Insert(tx, verified) => InsertIs(d, tx, verified);
      case Remove(x) => RemovedIs(d, x);
      case Prune(hashes) =>
        PrunedIs(d, hashes, |hashes|);
        assert h in hashes <==> h in (set i | 0 <= i < |hashes| :: hashes[i]);
    }
  }

  // ---- Selection ----

  /** Higher gas price first, then lower nonce. */
  predicate NotAfter(a: Tx, b: Tx) { a.gasPrice > b.gasPrice || (a.gasPrice == b.gasPrice && a.nonce <= b.nonce) }

  predicate Ordered(txs: seq<Tx>) { Sorting.Ordered(txs, NotAfter) }

  /** The stable sort of the candidates. */
  function Sorted(txs: seq<Tx>): seq<Tx> { Sorting.Sort(txs, NotAfter) }

  lemma NotAfterOrders()
    ensures Sorting.Preorder(NotAfter)
  {
  }

  lemma SortedIs(txs: seq<Tx>)
    ensures multiset(Sorted(txs)) == multiset(txs) && Ordered(Sorted(txs))
  {
    hide Sorting.Sort;
    NotAfterOrders();
    Sorting.SortPermutes(txs, NotAfter);
    Sorting.SortOrders(txs, NotAfter);
  }

  function GasOf(txs: seq<Tx>): nat { if txs == [] then 0 else GasOf(txs[..|txs| - 1]) + txs[|txs| - 1].gasLimit }

  /** The same in 64 bits. */
  function RunningGas(txs: seq<Tx>): u64 {
    if txs == [] then 0 else Add64(RunningGas(txs[..|txs| - 1]), txs[|txs| - 1].gasLimit)
  }

  lemma {:induction false} RunningGasIs(txs: seq<Tx>)
    requires GasOf(txs) < U64
    ensures RunningGas(txs) == GasOf(txs)
  {
    if txs != [] { RunningGasIs(txs[..|txs| - 1]); }
  }

  /** Greedy choice among the first `k` candidates; the running total is kept in 64 bits. */
  function Picked(txs: seq<Tx>, k: nat, limit: u64, count: nat): seq<Tx>
    requires k <= |txs|
  {
    if k == 0 then []
    else
      var before, t := Picked(txs, k - 1, limit, count), txs[k - 1];
      if |before| >= count || Add64(RunningGas(before), t.gasLimit) > limit then before else before + [t]
  }

  /** No sum that the loop compares overflows 64 bits. */
  predicate NoOverflow(txs: seq<Tx>, limit: u64) { forall i :: 0 <= i < |txs| ==> limit + txs[i].gasLimit < U64 }

  lemma GasOfAppend(txs: seq<Tx>, t: Tx)
    ensures GasOf(txs + [t]) == GasOf(txs) + t.gasLimit
    ensures RunningGas(txs + [t]) == Add64(RunningGas(txs), t.gasLimit)
  {
    assert (txs + [t])[..|txs|] == txs;
  }

  lemma NoGas()
    ensures GasOf([]) == 0 && RunningGas([]) == 0
  {
  }

  /** Within both limits. */
  lemma {:induction false} PickedFits(txs: seq<Tx>, k: nat, limit: u64, count: nat)
    requires k <= |txs| && NoOverflow(txs, limit)
    ensures GasOf(Picked(txs, k, limit, count)) <= limit && |Picked(txs, k, limit, count)| <= count
  {
    hide GasOf, RunningGas;
    if k == 0 {
      NoGas();
    } else {
      PickedFits(txs, k - 1, limit, count);
      RunningGasIs(Picked(txs, k - 1, limit, count));
      GasOfAppend(Picked(txs, k - 1, limit, count), txs[k - 1]);
    }
  }

  /** Anything passed over would not fit the final selection either. */
  lemma {:induction false} PickedIsMaximal(txs: seq<Tx>, k: nat, limit: u64, count: nat, i: nat)
    requires i < k <= |txs| && NoOverflow(txs, limit)
    ensures var s := Picked(txs, k, limit, count);
            txs[i] in s || |s| == count || GasOf(s) + txs[i].gasLimit > limit
  {
    hide GasOf, RunningGas;
    PickedFits(txs, k - 1, limit, count);
    var before, t := Picked(txs, k - 1, limit, count), txs[k - 1];
    RunningGasIs(before);
    GasOfAppend(before, t);
    if i < k - 1 { PickedIsMaximal(txs, k - 1, limit, count, i); }
  }

  lemma SortedOne(t: Tx)
    ensures Sorted([t]) == [t]
  {
    var none: seq<Tx> := [];
    assert [t][..0] == none;
    assert Sorting.Sort(none, NotAfter) == none;
  }

  /** Behind a first transaction that fits, the second is compared in 64 bits. */
  lemma PickedPair(first: Tx, t: Tx, limit: u64)
    requires first.gasLimit <= limit
    ensures GasOf(Picked([first, t], 2, limit, 2))
         == first.gasLimit + (if Add64(first.gasLimit, t.gasLimit) > limit then 0 else t.gasLimit)
  {
    hide GasOf, RunningGas;
    var none: seq<Tx> := [];
    NoGas();
    GasOfAppend(none, first);
    assert none + [first] == [first];
    GasOfAppend([first], t);
    assert Picked([first, t], 1, limit, 2) == [first];
  }

  /** The selection is a subsequence: which candidates were taken, in order. */
  function Taken(txs: seq<Tx>, k: nat, limit: u64, count: nat): (r: seq<nat>)
    requires k <= |txs|
    ensures |r| == |Picked(txs, k, limit, count)|
    ensures forall i :: 0 <= i < |r| ==> r[i] < k && Picked(txs, k, limit, count)[i] == txs[r[i]]
    ensures forall i, j :: 0 <= i < j < |r| ==> r[i] < r[j]
  {
    if k == 0 then []
    else
      var before := Taken(txs, k - 1, limit, count);
      if |Picked(txs, k, limit, count)| == |before| then before else before + [k - 1]
  }

  /** An order in which the map's iterator may list the pool. */
  ghost predicate Lists(order: seq<Tx>, pending: Pending) {
    && (forall i :: 0 <= i < |order| ==> order[i].hash in pending && pending[order[i].hash] == order[i])
    && (forall h :: h in pending ==> pending[h] in order)
    && (forall i, j :: 0 <= i < j < |order| ==> order[i].hash != order[j].hash)
  }

  function Selection(order: seq<Tx>, limit: u64, count: nat): seq<Tx> {
    var c := Sorted(order);
    Picked(c, |c|, limit, count)
  }

  predicate Distinct(txs: seq<Tx>) { forall i, j :: 0 <= i < j < |txs| ==> txs[i] != txs[j] }

  lemma {:induction false} DistinctSort(txs: seq<Tx>)
    requires Distinct(txs)
    ensures Distinct(Sorted(txs))
  {
    SortedIs(txs);
    var s := Sorted(txs);
    if !Distinct(s) {
      var i, j :| 0 <= i < j < |s| && s[i] == s[j];
      TwoOf(s, i, j);
      AtMostOne(txs, s[i]);
    }
  }

  lemma TwoOf(s: seq<Tx>, i: nat, j: nat)
    requires i < j < |s| && s[i] == s[j]
    ensures multiset(s)[s[i]] >= 2
  {
    assert s == s[..j] + [s[j]] + s[j + 1..];
    assert s[i] in s[..j] by { assert s[..j][i] == s[i]; }
  }

  lemma {:induction false} AtMostOne(s: seq<Tx>, x: Tx)
    requires Distinct(s)
    ensures multiset(s)[x] <= 1
  {
    if s != [] {
      var n := |s| - 1;
      AtMostOne(s[..n], x);
      assert s == s[..n] + [s[n]];
      if s[n] == x { assert x !in s[..n]; }
    }
  }

  /** Pooled, distinct and ordered transactions within both limits, to which none left out could be added. */
  predicate Good(s: seq<Tx>, pending: Pending, limit: u64, count: nat) {
    && Distinct(s) && Ordered(s) && |s| <= count && GasOf(s) <= limit
    && (forall i :: 0 <= i < |s| ==> s[i].hash in pending && pending[s[i].hash] == s[i])
    && (forall h :: h in pending && pending[h] !in s ==> |s| == count || GasOf(s) + pending[h].gasLimit > limit)
  }

  /** A subsequence of distinct, ordered candidates is distinct and ordered. */
  lemma TakenIsOrdered(c: seq<Tx>, limit: u64, count: nat)
    requires Distinct(c) && Ordered(c)
    ensures var s := Picked(c, |c|, limit, count);
            Distinct(s) && Ordered(s) && forall i :: 0 <= i < |s| ==> s[i] in c
  {
    hide Picked;
    var taken := Taken(c, |c|, limit, count);
  }

  lemma SortedNoOverflow(order: seq<Tx>, limit: u64)
    requires NoOverflow(order, limit)
    ensures NoOverflow(Sorted(order), limit)
  {
    hide Sorted;
    SortedIs(order);
    SameMembers(order, Sorted(order));
    var c := Sorted(order);
    forall i | 0 <= i < |c| ensures limit + c[i].gasLimit < U64 { assert c[i] in order; }
  }

  /** Whatever order the pool is listed in. */
  lemma SelectionIsGood(order: seq<Tx>, pending: Pending, limit: u64, count: nat)
    requires Lists(order, pending) && NoOverflow(order, limit)
    ensures Good(Selection(order, limit, count), pending, limit, count)
  {
    hide Sorted, Picked, GasOf, NoOverflow, Distinct, Ordered;
    var c, s := Sorted(order), Selection(order, limit, count);
    SortedIs(order);
    DistinctSort(order);
    SameMembers(order, c);
    SortedNoOverflow(order, limit);
    PickedFits(c, |c|, limit, count);
    TakenIsOrdered(c, limit, count);
    forall h | h in pending && pending[h] !in s ensures |s| == count || GasOf(s) + pending[h].gasLimit > limit {
      assert pending[h] in c;
      var i :| 0 <= i < |c| && c[i] == pending[h];
      PickedIsMaximal(c, |c|, limit, count, i);
    }
  }

  lemma ListedNoOverflow(order: seq<Tx>, pending: Pending, limit: u64)
    requires Lists(order, pending) && forall h :: h in pending ==> limit + pending[h].gasLimit < U64
    ensures NoOverflow(order, limit)
  {
  }

  lemma SameMembers(a: seq<Tx>, b: seq<Tx>)
    requires multiset(a) == multiset(b)
    ensures forall x :: x in a <==> x in b
  {
    forall x ensures x in a <==> x in b {
      assert x in a <==> x in multiset(a);
      assert x in b <==> x in multiset(b);
    }
  }

  lemma SortedPair(a: Tx, b: Tx)
    ensures Sorted([a, b]) == if NotAfter(a, b) then [a, b] else [b, a]
  {
    var none: seq<Tx> := [];
    assert [a, b][..1] == [a] && [a][..0] == none;
    assert Sorting.Sort([a], NotAfter) == [a];
    assert Sorting.Place(none, b, NotAfter) == [b];
  }

  /** The same when the first does not fit: only the second is left. */
  lemma PickedSecond(t: Tx, second: Tx, limit: u64)
    requires second.gasLimit <= limit < t.gasLimit
    ensures GasOf(Picked([t, second], 2, limit, 2)) == second.gasLimit
  {
    hide GasOf, RunningGas;
    var none: seq<Tx> := [];
    NoGas();
    GasOfAppend(none, second);
    assert Picked([t, second], 1, limit, 2) == none;
    assert none + [second] == [second];
  }

  lemma PairIsPool(first: Tx, t: Tx)
    requires first.hash != t.hash
    ensures Lists([first, t], map[first.hash := first, t.hash := t])
  {
  }

  /** The bound on sums is needed: a transaction pushes no pool of two, behind or before one that fits,
      past the limit if and only if its gas limit added to the block's stays below 2^64. */
  lemma NeverOverrunsIff(t: Tx, limit: u64)
    ensures limit + t.gasLimit < U64 <==>
            forall first, pending :: Lists([first, t], pending) && first.gasLimit <= limit ==>
              GasOf(Selection([first, t], limit, 2)) <= limit
  {
    hide GasOf, Picked, Lists, Sorted;
    if limit + t.gasLimit < U64 {
      forall first, pending | Lists([first, t], pending) && first.gasLimit <= limit
        ensures GasOf(Selection([first, t], limit, 2)) <= limit
      {
        SortedPair(first, t);
        PickedPair(first, t, limit);
        if t.gasLimit <= limit { PickedPair(t, first, limit); } else { PickedSecond(t, first, limit); }
      }
    } else {
      var first := t.(gasLimit := limit, hash := Hash(t.hash.id + 1));
      PairIsPool(first, t);
      SortedPair(first, t);
      PickedPair(first, t, limit);
      assert GasOf(Selection([first, t], limit, 2)) > limit;
    }
  }

  // ---- Nonce order within one sender ----

  predicate NoncesInOrder(s: seq<Tx>) {
    forall i, j :: 0 <= i < j < |s| && s[i].from == s[j].from ==> s[i].nonce <= s[j].nonce
  }

  /** A sender's later nonce outbids an earlier one. */
  predicate Outbids(a: Tx, b: Tx) { a.from == b.from && a.nonce > b.nonce && a.gasPrice > b.gasPrice }

  /** An ordered list keeps each sender's nonces in order exactly when none of them is outbid by a later one. */
  lemma NoncesInOrderIff(s: seq<Tx>)
    requires Ordered(s)
    ensures NoncesInOrder(s) <==> forall i, j :: 0 <= i < |s| && 0 <= j < |s| ==> !Outbids(s[i], s[j])
  {
    if NoncesInOrder(s) {
      forall i, j | 0 <= i < |s| && 0 <= j < |s| ensures !Outbids(s[i], s[j]) {
        if i < j { assert NotAfter(s[i], s[j]); } else if j < i { assert NotAfter(s[j], s[i]); }
      }
    } else {
      var i, j :| 0 <= i < j < |s| && s[i].from == s[j].from && s[i].nonce > s[j].nonce;
      assert NotAfter(s[i], s[j]);
      assert Outbids(s[i], s[j]);
    }
  }

  /** At the largest limit every 64-bit sum passes, so everything is taken. */
  lemma {:induction false} PicksAll(txs: seq<Tx>, k: nat, count: nat)
    requires k <= |txs| && k <= count
    ensures Picked(txs, k, U64 - 1, count) == txs[..k]
  {
    if k > 0 {
      PicksAll(txs, k - 1, count);
      assert txs[..k] == txs[..k - 1] + [txs[k - 1]];
    }
  }

  /** No pooled transaction outbids an earlier nonce of its sender. */
  ghost predicate NoneOutbid(pending: Pending) {
    forall g, h :: g in pending && h in pending ==> !Outbids(pending[g], pending[h])
  }

  lemma SelectionInOrder(order: seq<Tx>, pending: Pending, limit: u64, count: nat)
    requires Lists(order, pending) && NoneOutbid(pending)
    ensures NoncesInOrder(Selection(order, limit, count))
  {
    hide Sorted, Picked, Ordered, NoncesInOrder, Outbids;
    var c, s := Sorted(order), Selection(order, limit, count);
    SortedIs(order);
    DistinctSort(order);
    SameMembers(order, c);
    TakenIsOrdered(c, limit, count);
    NoncesInOrderIff(s);
    forall i, j | 0 <= i < |s| && 0 <= j < |s| ensures !Outbids(s[i], s[j]) {
      assert s[i] in order && s[j] in order;
    }
  }

  /** Selection respects nonce order, whatever the limits, exactly for pools in which none is outbid. */
  lemma SelectionInOrderIff(order: seq<Tx>, pending: Pending)
    requires Lists(order, pending)
    ensures (forall limit: u64, count: nat :: NoncesInOrder(Selection(order, limit, count))) <==> NoneOutbid(pending)
  {
    hide Sorted, Picked, Ordered, NoncesInOrder, Outbids, Lists, Selection;
    if NoneOutbid(pending) {
      forall limit: u64, count: nat ensures NoncesInOrder(Selection(order, limit, count)) {
        SelectionInOrder(order, pending, limit, count);
      }
    } else if NoncesInOrder(Selection(order, U64 - 1, |Sorted(order)|)) {
      AllInOrder(order, pending);
    }
  }

  lemma AllInOrder(order: seq<Tx>, pending: Pending)
    requires Lists(order, pending) && NoncesInOrder(Selection(order, U64 - 1, |Sorted(order)|))
    ensures NoneOutbid(pending)
  {
    hide Sorted, Picked, Ordered, NoncesInOrder, Outbids;
    var c := Sorted(order);
    PicksAll(c, |c|, |c|);
    assert c[..|c|] == c;
    SortedIs(order);
    SameMembers(order, c);
    NoncesInOrderIff(c);
    forall g, h | g in pending && h in pending ensures !Outbids(pending[g], pending[h]) {
      assert pending[g] in c && pending[h] in c;
      var i :| 0 <= i < |c| && c[i] == pending[g];
      var j :| 0 <= j < |c| && c[j] == pending[h];
    }
  }

  /** For example: a sender's second transaction that pays more is selected before the first. */
  lemma OutbidIsSelectedFirst(first: Tx, second: Tx)
    requires Outbids(second, first) && first.gasLimit == second.gasLimit == 21000
    ensures Selection([first, second], 42000, 2) == [second, first] && !NoncesInOrder([second, first])
  {
    var none: seq<Tx> := [];
    var c := [second, first];
    SortedPair(first, second);
    hide Sorted;
    NoGas();
    GasOfAppend(none, second);
    assert none + [second] == [second];
    assert Picked(c, 1, 42000, 2) == [second];
    assert [second] + [first] == c;
    assert c[0].from == c[1].from && c[0].nonce > c[1].nonce;
  }

  // ---- The pool object ----

  class TransactionPool {
    var pending: Pending
    var bySender: BySender
    const maxSize: nat
    const minGasPrice: u64

    ghost function View(): Pool
      reads this
    {
      Pool.Pool(pending, bySender, maxSize, minGasPrice)
    }

    constructor (size: nat, price: u64)
      ensures View() == Pool.Pool(map[], map[], size, price) && Agrees(View())
    {
      pending, bySender, maxSize, minGasPrice := map[], map[], size, price;
    }

    method Insert(tx: Tx, verified: bool) returns (r: Result<(), Error>)
      modifies this
      ensures (View(), r) == Inserted(old(View()), tx, verified)
      ensures old(Agrees(View())) ==> Agrees(View())
    {
      InsertKeeps(View(), tx, verified);
      hide Agrees;
      if !verified { return Err(InvalidTransaction); }
      if tx.gasPrice < minGasPrice { return Err(GasPriceTooLow); }
      if |pending| >= maxSize { return Err(PoolFull); }
      if tx.hash in pending { return Err(Duplicate); }
      pending := pending[tx.hash := tx];
      bySender := bySender[tx.from := Group(bySender, tx.from) + {(tx.nonce, tx.hash)}];
      return Ok(());
    }

    method Remove(h: Hash) returns (r: Option<Tx>)
      modifies this
      ensures View() == Removed(old(View()), h) && pending == old(pending) - {h}
      ensures r == if h in old(pending) then Some(old(pending)[h]) else None
      ensures old(Agrees(View())) ==> Agrees(View())
    {
      RemoveKeeps(View(), h);
      hide Agrees;
      if h !in pending { return None; }
      var tx := pending[h];
      pending := pending - {h};
      if tx.from in bySender {
        var left := bySender[tx.from] - {(tx.nonce, h)};
        bySender := bySender[tx.from := left];
        if left == {} {
          bySender := bySender - {tx.from};
          assert bySender == old(bySender) - {tx.from};
        }
      }
      return Some(tx);
    }

    method PruneCommitted(hashes: seq<Hash>)
      modifies this
      ensures View() == Pruned(old(View()), hashes, |hashes|)
      ensures pending == old(pending) - (set i | 0 <= i < |hashes| :: hashes[i])
      ensures old(Agrees(View())) ==> Agrees(View())
    {
      hide Agrees, Removed;
      for i := 0 to |hashes|
        invariant View() == Pruned(old(View()), hashes, i)
        invariant old(Agrees(View())) ==> Agrees(View())
      {
        var _ := Remove(hashes[i]);
      }
      PrunedIs(old(View()), hashes, |hashes|);
    }

    method SelectTransactions(limit: u64, count: nat) returns (selected: seq<Tx>, ghost order: seq<Tx>)
      requires Agrees(View())
      ensures Lists(order, pending) && selected == Selection(order, limit, count)
      ensures (forall h :: h in pending ==> limit + pending[h].gasLimit < U64) ==> Good(selected, pending, limit, count)
    {
      hide Sorted, RunningGas, GasOf, Lists, Agrees, Good;
      NoGas();
      var candidates := Candidates();
      order := candidates;
      candidates := Sorted(candidates);
      selected := [];
      var total: u64 := 0;
      for i := 0 to |candidates|
        invariant selected == Picked(candidates, i, limit, count) && total == RunningGas(selected)
      {
        var t := candidates[i];
        GasOfAppend(selected, t);
        if |selected| < count && Add64(total, t.gasLimit) <= limit {
          total := Add64(total, t.gasLimit);
          selected := selected + [t];
        }
      }
      if forall h :: h in pending ==> limit + pending[h].gasLimit < U64 {
        ListedNoOverflow(order, pending, limit);
        SelectionIsGood(order, pending, limit, count);
      }
    }

    /** Lists the pool in some order. */
    method Candidates() returns (list: seq<Tx>)
      requires Agrees(View())
      ensures Lists(list, pending)
    {
      list := [];
      var rest := pending.Keys;
      while rest != {}
        invariant rest <= pending.Keys
        invariant forall i :: 0 <= i < |list| ==>
          list[i].hash in pending && list[i].hash !in rest && pending[list[i].hash] == list[i]
        invariant forall h :: h in pending && h !in rest ==> pending[h] in list
        invariant forall i, j :: 0 <= i < j < |list| ==> list[i].hash != list[j].hash
        decreases rest
      {
        var h :| h in rest;
        list := list + [pending[h]];
        rest := rest - {h};
      }
    }
  }

  lemma InsertKeeps(p: Pool, tx: Tx, verified: bool)
    ensures Agrees(p) ==> Agrees(Inserted(p, tx, verified).0)
  {
    hide Agrees, Inserted;
    if Agrees(p) { InsertAgrees(p, tx, verified); }
  }

  lemma RemoveKeeps(p: Pool, h: Hash)
    ensures Agrees(p) ==> Agrees(Removed(p, h))
  {
    hide Agrees, Removed;
    if Agrees(p) { RemoveAgrees(p, h); }
  }
}
