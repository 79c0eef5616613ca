/** The virtual machine's journal (crates/vm/src/context.rs): buffered storage writes and balance
    deltas that must agree with writing straight through, and the flush into the database. */
module Journal {
  import opened Core
  import opened Bytes
  import opened Sums

  type Db = map<Bytes, Bytes>
  type Writes = map<(Address, Bytes), Option<Bytes>>
  type Deltas = map<Address, int>
  type Balances = map<Address, u128>

  // ---- Storage ----

  /** The database key of a storage slot (crates/storage/src/db.rs). */
  function SlotKey(a: Address, k: Bytes): Bytes { a.bytes + k }

  lemma SlotKeyInjective(a: Address, k: Bytes, b: Address, l: Bytes)
    requires SlotKey(a, k) == SlotKey(b, l)
    ensures a == b && k == l
  {
    assert SlotKey(a, k)[..20] == a.bytes && SlotKey(b, l)[..20] == b.bytes;
    assert SlotKey(a, k)[20..] == k && SlotKey(b, l)[20..] == l;
  }

  function Get(db: Db, key: Bytes): Option<Bytes> { if key in db then Some(db[key]) else None }

  function Put(db: Db, key: Bytes, v: Option<Bytes>): Db {
    match v
    case Some(x) => db[key := x]
    case None => db - {key}
  }

  datatype Write = Write(addr: Address, key: Bytes, value: Option<Bytes>)

  /** Writing straight through to the database. */
  function Through(db: Db, ws: seq<Write>, k: nat): Db
    requires k <= |ws|
  {
    if k == 0 then db else Put(Through(db, ws, k - 1), SlotKey(ws[k - 1].addr, ws[k - 1].key), ws[k - 1].value)
  }

  function Journaled(ws: seq<Write>, k: nat): Writes
    requires k <= |ws|
  {
    if k == 0 then map[] else Journaled(ws, k - 1)[(ws[k - 1].addr, ws[k - 1].key) := ws[k - 1].value]
  }

  /** A read checks the journal first. */
  function ReadSlot(db: Db, j: Writes, a: Address, k: Bytes): Option<Bytes> {
    if (a, k) in j then j[(a, k)] else Get(db, SlotKey(a, k))
  }

  lemma {:induction false} ReadsAgree(db: Db, ws: seq<Write>, n: nat, a: Address, k: Bytes)
    requires n <= |ws|
    ensures ReadSlot(db, Journaled(ws, n), a, k) == Get(Through(db, ws, n), SlotKey(a, k))
  {
    hide SlotKey;
    if n > 0 {
      ReadsAgree(db, ws, n - 1, a, k);
      var w := ws[n - 1];
      if SlotKey(w.addr, w.key) == SlotKey(a, k) { SlotKeyInjective(w.addr, w.key, a, k); }
    }
  }

  /** `done` is what the database holds once every journal entry has been written. */
  ghost predicate Flushed(db: Db, j: Writes, done: Db) {
    && (forall a: Address, k :: Get(done, SlotKey(a, k)) == ReadSlot(db, j, a, k))
    && (forall key :: |key| < 20 ==> Get(done, key) == Get(db, key))
  }

  /** The slot of a database key. */
  function SlotOf(key: Bytes): (Address, Bytes)
    requires |key| >= 20
  {
    (Address(key[..20]), key[20..])
  }

  lemma SlotOfKey(key: Bytes)
    requires |key| >= 20
    ensures SlotKey(SlotOf(key).0, SlotOf(key).1) == key
  {
  }

  /** What a row holds once the journal is written. */
  function RowAfter(db: Db, j: Writes, key: Bytes): Option<Bytes> {
    if |key| < 20 then Get(db, key) else ReadSlot(db, j, SlotOf(key).0, SlotOf(key).1)
  }

  /** The database once every journal entry is written: a value replaces, `None` deletes. */
  function Written(db: Db, j: Writes): Db {
    map key | key in db.Keys + (set s | s in j :: SlotKey(s.0, s.1)) && RowAfter(db, j, key).Some? ::
      RowAfter(db, j, key).value
  }

  lemma WrittenIs(db: Db, j: Writes)
    ensures Flushed(db, j, Written(db, j))
  {
    var t := Written(db, j);
    forall a: Address, k ensures Get(t, SlotKey(a, k)) == ReadSlot(db, j, a, k) {
      var key := SlotKey(a, k);
      SlotOfKey(key);
      SlotKeyInjective(SlotOf(key).0, SlotOf(key).1, a, k);
      if (a, k) in j { assert key in (set s | s in j :: SlotKey(s.0, s.1)); }
    }
  }

  /** Two databases that hold the same journal on top of the same rows are the same. */
  lemma FlushedOnce(db: Db, j: Writes, s: Db, t: Db)
    requires Flushed(db, j, s) && Flushed(db, j, t)
    ensures s == t
  {
    hide SlotOf, SlotKey;
    forall key: Bytes ensures Get(s, key) == Get(t, key) {
      if |key| >= 20 { SlotOfKey(key); }
    }
    SameDb(s, t);
  }

  /** Flushing the journal, in whatever order, reaches exactly the written-through database. */
  lemma FlushIsThrough(db: Db, ws: seq<Write>, done: Db)
    requires Flushed(db, Journaled(ws, |ws|), done)
    ensures done == Through(db, ws, |ws|)
  {
    hide SlotKey, ReadSlot, Through, Journaled;
    var t := Through(db, ws, |ws|);
    forall a: Address, k ensures Get(t, SlotKey(a, k)) == ReadSlot(db, Journaled(ws, |ws|), a, k) {
      ReadsAgree(db, ws, |ws|, a, k);
    }
    forall key: Bytes | |key| < 20 ensures Get(t, key) == Get(db, key) { ShortKeysKept(db, ws, |ws|, key); }
    FlushedOnce(db, Journaled(ws, |ws|), done, t);
  }

  lemma {:induction false} ShortKeysKept(db: Db, ws: seq<Write>, n: nat, key: Bytes)
    requires n <= |ws| && |key| < 20
    ensures Get(Through(db, ws, n), key) == Get(db, key)
  {
    if n > 0 { ShortKeysKept(db, ws, n - 1, key); }
  }

  lemma SameDb(a: Db, b: Db)
    requires forall key: Bytes :: Get(a, key) == Get(b, key)
    ensures a == b
  {
    forall key ensures key in a <==> key in b { assert Get(a, key) == Get(b, key); }
    forall key | key in a ensures a[key] == b[key] { assert Get(a, key) == Get(b, key); }
  }

  // ---- Balances ----

  function Base(base: Balances, a: Address): u128 { if a in base then base[a] else 0 }

  function Delta(d: Deltas, a: Address): int { if a in d then d[a] else 0 }

  /** `(base as i128 + delta).max(0)` */
  function Effective(base: Balances, d: Deltas, a: Address): u128 {
    var b := WrapI128(WrapI128(Base(base, a)) + Delta(d, a));
    if b < 0 then 0 else b
  }

  /** Adds to the delta of an address in 128 signed bits. */
  function Bump(d: Deltas, a: Address, amount: int): Deltas { d[a := WrapI128(Delta(d, a) + amount)] }

  datatype Move = Move(from: Address, to: Address, amount: u128)

  predicate Covers(base: Balances, d: Deltas, m: Move) { Effective(base, d, m.from) >= m.amount }

  function Moved(base: Balances, d: Deltas, m: Move): Deltas {
    if !Covers(base, d, m) then d
    else Bump(Bump(d, m.from, -WrapI128(m.amount)), m.to, WrapI128(m.amount))
  }

  function DeltasAfter(base: Balances, ms: seq<Move>, k: nat): Deltas
    requires k <= |ms|
  {
    if k == 0 then map[] else Moved(base, DeltasAfter(base, ms, k - 1), ms[k - 1])
  }

  /** The same transfer made directly on the balances. */
  function Direct(b: Balances, m: Move): Balances {
    if Base(b, m.from) < m.amount then b
    else
      var debited := b[m.from := Base(b, m.from) - m.amount];
      debited[m.to := Add128(Base(debited, m.to), m.amount)]
  }

  function DirectAfter(b: Balances, ms: seq<Move>, k: nat): Balances
    requires k <= |ms|
  {
    if k == 0 then b else Direct(DirectAfter(b, ms, k - 1), ms[k - 1])
  }

  function Held(a: Address, n: u128): int { n }

  function Owed(a: Address, n: int): int { n }

  ghost function Total(b: Balances): nat {
    SumNotNegative(b, Held);
    SumMap(b, Held)
  }

  ghost function SumDeltas(d: Deltas): int { SumMap(d, Owed) }

  lemma TotalPut(b: Balances, a: Address, n: u128)
    ensures Total(b[a := n]) + Base(b, a) == Total(b) + n
  {
    SumPut(b, Held, a, n);
  }

  lemma WithinTotal(b: Balances, a: Address)
    ensures Base(b, a) <= Total(b)
  {
    if a in b {
      SumSplit(b, Held, a);
      SumNotNegative(b - {a}, Held);
    }
  }

  /** The amount leaves one balance and reaches the other; the rest stay. */
  ghost predicate Shifted(b: Balances, m: Move, t: Balances) {
    forall a: Address ::
      Base(t, a) == Base(b, a) - (if a == m.from then m.amount else 0) + (if a == m.to then m.amount else 0)
  }

  /** Direct transfers conserve the total and never overflow. */
  lemma DirectConserves(b: Balances, m: Move)
    requires Total(b) < U128
    ensures Total(Direct(b, m)) == Total(b)
    ensures Base(b, m.from) < m.amount ==> Direct(b, m) == b
    ensures Base(b, m.from) >= m.amount ==> Shifted(b, m, Direct(b, m))
  {
    hide Total;
    if Base(b, m.from) >= m.amount {
      var debited := b[m.from := Base(b, m.from) - m.amount];
      TotalPut(b, m.from, Base(b, m.from) - m.amount);
      WithinTotal(debited, m.to);
      WithinTotal(b, m.from);
      TotalPut(debited, m.to, Add128(Base(debited, m.to), m.amount));
    }
  }

  /** The journal stands for the balances `b`: base plus delta, with nothing to clamp. */
  ghost predicate Stands(base: Balances, d: Deltas, b: Balances) {
    forall a: Address :: Base(b, a) == Base(base, a) + Delta(d, a)
  }

  lemma EffectiveIs(base: Balances, d: Deltas, b: Balances, a: Address)
    requires Stands(base, d, b) && Total(base) < U127 && Total(b) < U127
    ensures Effective(base, d, a) == Base(b, a)
  {
    hide Total;
    WithinTotal(base, a);
    WithinTotal(b, a);
  }

  lemma BumpIs(d: Deltas, a: Address, amount: int, x: Address)
    requires 0 - U127 <= Delta(d, a) + amount < U127
    ensures Delta(Bump(d, a, amount), x) == Delta(d, x) + if x == a then amount else 0
    ensures SumDeltas(Bump(d, a, amount)) == SumDeltas(d) + amount
  {
    SumPut(d, Owed, a, Delta(d, a) + amount);
  }

  /** One journaled transfer is the direct one, and the deltas keep their sum. */
  lemma MoveStands(base: Balances, d: Deltas, b: Balances, m: Move)
    requires Stands(base, d, b) && Total(base) < U127 && Total(b) < U127
    ensures Covers(base, d, m) <==> Base(b, m.from) >= m.amount
    ensures Stands(base, Moved(base, d, m), Direct(b, m))
    ensures SumDeltas(Moved(base, d, m)) == SumDeltas(d)
  {
    hide Total, Effective, SumDeltas, Direct, Bump;
    EffectiveIs(base, d, b, m.from);
    DirectConserves(b, m);
    if Base(b, m.from) >= m.amount {
      WithinTotal(b, m.from);
      WithinTotal(b, m.to);
      WithinTotal(base, m.from);
      WithinTotal(base, m.to);
      var d1 := Bump(d, m.from, -WrapI128(m.amount));
      assert WrapI128(m.amount) == m.amount;
      BumpIs(d, m.from, 0 - m.amount, m.to);
      WithinTotal(Direct(b, m), m.to);
      forall a: Address ensures Base(Direct(b, m), a) == Base(base, a) + Delta(Moved(base, d, m), a) {
        BumpIs(d, m.from, 0 - m.amount, a);
        BumpIs(d1, m.to, m.amount, a);
      }
      BumpIs(d1, m.to, m.amount, m.to);
    }
  }

  /** Over any transfers, with less than 2^127 in all: the journal reads as the direct balances, the
      deltas sum to zero and the clamp never fires. */
  lemma {:induction false} TransfersAgree(base: Balances, ms: seq<Move>, k: nat)
    requires k <= |ms| && Total(base) < U127
    ensures Stands(base, DeltasAfter(base, ms, k), DirectAfter(base, ms, k))
    ensures Total(DirectAfter(base, ms, k)) == Total(base) && SumDeltas(DeltasAfter(base, ms, k)) == 0
  {
    hide Total, Moved, Direct, Stands;
    if k == 0 {
      NothingMoved(base);
    } else {
      TransfersAgree(base, ms, k - 1);
      var d, b := DeltasAfter(base, ms, k - 1), DirectAfter(base, ms, k - 1);
      MoveStands(base, d, b, ms[k - 1]);
      DirectConserves(b, ms[k - 1]);
    }
  }

  lemma NothingMoved(base: Balances)
    ensures Stands(base, map[], base) && SumDeltas(map[]) == 0
  {
  }

  lemma BalancesAgree(base: Balances, ms: seq<Move>, k: nat, a: Address)
    requires k <= |ms| && Total(base) < U127
    ensures Effective(base, DeltasAfter(base, ms, k), a) == Base(DirectAfter(base, ms, k), a)
  {
    hide Total, Effective, Stands;
    TransfersAgree(base, ms, k);
    EffectiveIs(base, DeltasAfter(base, ms, k), DirectAfter(base, ms, k), a);
  }

  /** Above the bound even an untouched account misreads: it shows its balance exactly below 2^127. */
  lemma UntouchedReadsIff(base: Balances, a: Address)
    ensures Effective(base, map[], a) == Base(base, a) <==> Base(base, a) < U127
  {
  }

  // ---- The bound is exact ----

  /** After these transfers every balance reads as the directly moved one. */
  ghost predicate ReadsRight(base: Balances, ms: seq<Move>) {
    forall a: Address :: Effective(base, DeltasAfter(base, ms, |ms|), a) == Base(DirectAfter(base, ms, |ms|), a)
  }

  lemma {:induction false} PrefixMoves(base: Balances, ms: seq<Move>, m: Move, k: nat)
    requires k <= |ms|
    ensures DeltasAfter(base, ms + [m], k) == DeltasAfter(base, ms, k)
    ensures DirectAfter(base, ms + [m], k) == DirectAfter(base, ms, k)
  {
    hide Moved, Direct;
    if k > 0 { PrefixMoves(base, ms, m, k - 1); }
  }

  lemma OneMoreMove(base: Balances, ms: seq<Move>, m: Move)
    ensures DeltasAfter(base, ms + [m], |ms| + 1) == Moved(base, DeltasAfter(base, ms, |ms|), m)
    ensures DirectAfter(base, ms + [m], |ms| + 1) == Direct(DirectAfter(base, ms, |ms|), m)
  {
    hide Moved, Direct;
    PrefixMoves(base, ms, m, |ms|);
  }

  function Part(base: Balances, who: set<Address>): Balances { map a | a in who :: Base(base, a) }

  /** Everything outside `rest` has been gathered at `x`, with less than 2^127 so far. */
  ghost predicate Gathered(base: Balances, x: Address, d: Deltas, b: Balances, rest: set<Address>) {
    && x !in rest
    && (forall a :: a in rest ==> Base(base, a) < U127 && Delta(d, a) == 0 && Base(b, a) == Base(base, a))
    && Delta(d, x) >= 0 && Base(b, x) == Base(base, x) + Delta(d, x) < U127
    && Base(b, x) + Total(Part(base, rest)) == Total(base)
  }

  /** One more account's balance is moved to `x`: it stays readable, or `x` reads as nothing. */
  lemma GatherOne(base: Balances, x: Address, d: Deltas, b: Balances, rest: set<Address>, a: Address)
    requires Gathered(base, x, d, b, rest) && a in rest
    ensures var m := Move(a, x, Base(base, a));
            || Gathered(base, x, Moved(base, d, m), Direct(b, m), rest - {a})
            || Effective(base, Moved(base, d, m), x) != Base(Direct(b, m), x)
  {
    hide Total, Part, Moved, Direct, Effective;
    var n, m := Base(base, a), Move(a, x, Base(base, a));
    PartSplit(base, rest, a);
    DeltasOfMove(base, d, m);
    DirectOfMove(b, m);
    if Base(b, x) + n >= U127 { EffectiveWraps(base, Moved(base, d, m), x, Delta(d, x), n); }
    else { WrapSmall(Delta(d, x) + n); }
  }

  lemma WrapSmall(n: int)
    requires 0 - U127 <= n < U127
    ensures WrapI128(n) == n
  {
  }

  /** A whole untouched balance moves away. */
  lemma DeltasOfMove(base: Balances, d: Deltas, m: Move)
    requires m.from != m.to && Delta(d, m.from) == 0 && Base(base, m.from) == m.amount < U127
    ensures Moved(base, d, m) == d[m.from := 0 - m.amount][m.to := WrapI128(Delta(d, m.to) + m.amount)]
  {
    hide WrapI128;
    WrapSmall(m.amount);
    WrapSmall(0 - m.amount);
  }

  lemma DirectOfMove(b: Balances, m: Move)
    requires m.from != m.to && Base(b, m.from) == m.amount && Base(b, m.to) + m.amount < U128
    ensures Direct(b, m) == b[m.from := 0][m.to := Base(b, m.to) + m.amount]
  {
  }

  /** A balance of 2^127 or more reads as nothing. */
  lemma EffectiveWraps(base: Balances, d: Deltas, x: Address, before: nat, n: nat)
    requires Delta(d, x) == WrapI128(before + n) && U127 <= Base(base, x) + before + n < U128
    requires Base(base, x) < U127
    ensures Effective(base, d, x) == 0
  {
  }

  lemma PartSplit(base: Balances, rest: set<Address>, a: Address)
    requires a in rest
    ensures Total(Part(base, rest)) == Base(base, a) + Total(Part(base, rest - {a}))
  {
    SumSplit(Part(base, rest), Held, a);
    assert Part(base, rest) - {a} == Part(base, rest - {a});
  }

  lemma {:induction false} GatherAll(base: Balances, x: Address, ms: seq<Move>, rest: set<Address>)
    returns (r: seq<Move>)
    requires Gathered(base, x, DeltasAfter(base, ms, |ms|), DirectAfter(base, ms, |ms|), rest) && Total(base) >= U127
    ensures !ReadsRight(base, r)
    decreases |rest|
  {
    hide Total, Effective, Moved, Direct, DeltasAfter, DirectAfter, Base, Part;
    if a :| a in rest {
      var m := Move(a, x, Base(base, a));
      OneMoreMove(base, ms, m);
      GatherOne(base, x, DeltasAfter(base, ms, |ms|), DirectAfter(base, ms, |ms|), rest, a);
      if Effective(base, DeltasAfter(base, ms + [m], |ms| + 1), x) != Base(DirectAfter(base, ms + [m], |ms| + 1), x) {
        r := ms + [m];
      } else {
        r := GatherAll(base, x, ms + [m], rest - {a});
      }
    } else {
      NoPart(base, rest);
      assert false;
    }
  }

  lemma NoPart(base: Balances, rest: set<Address>)
    requires forall a :: a !in rest
    ensures Total(Part(base, rest)) == 0
  {
    assert Part(base, rest) == map[];
  }

  lemma WholePart(base: Balances)
    ensures Part(base, base.Keys) == base
  {
  }

  lemma Misread(base: Balances) returns (ms: seq<Move>)
    requires Total(base) >= U127
    ensures !ReadsRight(base, ms)
  {
    hide Total, Effective;
    ms := [];
    assert DeltasAfter(base, ms, |ms|) == map[] && DirectAfter(base, ms, |ms|) == base;
    if a :| a in base && base[a] >= U127 {
      UntouchedReadsIff(base, a);
    } else {
      WholePart(base);
      if forall a :: a !in base { NoPart(base, base.Keys); }
      var x :| x in base;
      PartSplit(base, base.Keys, x);
      ms := GatherAll(base, x, [], base.Keys - {x});
    }
  }

  /** Every run of transfers reads right exactly when there is less than 2^127 in all: above that, transfers
      can gather too much in one account. */
  lemma ReadsRightIff(base: Balances)
    ensures (forall ms :: ReadsRight(base, ms)) <==> Total(base) < U127
  {
    hide Total, Effective;
    if Total(base) < U127 {
      forall ms ensures ReadsRight(base, ms) {
        forall a: Address
          ensures Effective(base, DeltasAfter(base, ms, |ms|), a) == Base(DirectAfter(base, ms, |ms|), a)
        {
          BalancesAgree(base, ms, |ms|, a);
        }
      }
    } else {
      var ms := Misread(base);
    }
  }

  // ---- The context object ----

  class ExecutionContext {
    var storageChanges: Writes
    var balanceChanges: Deltas
    const db: Db
    const base: Balances

    constructor (db: Db, base: Balances)
      ensures this.db == db && this.base == base && storageChanges == map[] && balanceChanges == map[]
    {
      this.db, this.base, storageChanges, balanceChanges := db, base, map[], map[];
    }

    method StorageRead(a: Address, k: Bytes) returns (v: Option<Bytes>)
      ensures v == ReadSlot(db, storageChanges, a, k)
    {
      if (a, k) in storageChanges { return storageChanges[(a, k)]; }
      return Get(db, SlotKey(a, k));
    }

    method StorageWrite(a: Address, k: Bytes, v: Bytes)
      modifies this`storageChanges
      ensures storageChanges == old(storageChanges)[(a, k) := Some(v)]
      ensures forall b: Address, l :: ReadSlot(db, storageChanges, b, l)
                == if b == a && l == k then Some(v) else ReadSlot(db, old(storageChanges), b, l)
    {
      storageChanges := storageChanges[(a, k) := Some(v)];
    }

    method StorageDelete(a: Address, k: Bytes)
      modifies this`storageChanges
      ensures storageChanges == old(storageChanges)[(a, k) := None]
      ensures forall b: Address, l :: ReadSlot(db, storageChanges, b, l)
                == if b == a && l == k then None else ReadSlot(db, old(storageChanges), b, l)
    {
      storageChanges := storageChanges[(a, k) := None];
    }

    method Transfer(m: Move) returns (ok: bool)
      modifies this`balanceChanges
      ensures ok <==> Covers(base, old(balanceChanges), m)
      ensures balanceChanges == Moved(base, old(balanceChanges), m)
    {
      hide WrapI128;
      if Effective(base, balanceChanges, m.from) < m.amount { return false; }
      balanceChanges := Bump(balanceChanges, m.from, -WrapI128(m.amount));
      balanceChanges := Bump(balanceChanges, m.to, WrapI128(m.amount));
      return true;
    }
  }

  // ---- The flush, entry by entry ----

  lemma NothingFlushed(db: Db)
    ensures Flushed(db, map[], db)
  {
  }

  lemma FlushOne(db: Db, j: Writes, done: Db, a: Address, k: Bytes, v: Option<Bytes>)
    requires Flushed(db, j, done)
    ensures Flushed(db, j[(a, k) := v], Put(done, SlotKey(a, k), v))
  {
    var more, t := j[(a, k) := v], Put(done, SlotKey(a, k), v);
    forall b: Address, l ensures Get(t, SlotKey(b, l)) == ReadSlot(db, more, b, l) {
      if SlotKey(b, l) == SlotKey(a, k) { SlotKeyInjective(b, l, a, k); }
      assert Get(done, SlotKey(b, l)) == ReadSlot(db, j, b, l);
    }
  }
}
