/** Wrapped-token accounting at the level of byte keys: over every run of calls, the stored supply of
    each `chain:token` string is the sum of the balances stored for it over all addresses. */
module ContractTokens {
  import opened Core
  import opened Bytes
  import opened Contract
  import opened ContractKeys
  import opened Sums

  // ---- The keys of one token ----

  /** `k` is the balance key of the token string `j` and some 20-byte address. */
  predicate IsBalanceKey(k: Bytes, j: Bytes) {
    |k| == 9 + |j| + 20 && k[..9 + |j|] == WRAPPED + j + COLON
  }

  lemma BalanceKeyOf(j: Bytes, addr: Bytes, i: Bytes)
    requires |addr| == 20
    ensures IsBalanceKey(BalanceKey(j, addr), i) <==> i == j
  {
    var k := BalanceKey(j, addr);
    assert k[..9 + |j|] == WRAPPED + j + COLON;
    if IsBalanceKey(k, i) {
      assert k[8..8 + |i|] == i && k[8..8 + |j|] == j;
    }
  }

  /** A balance key determines its token and its address. */
  lemma BalanceKeyInjective(j: Bytes, addr: Bytes, i: Bytes, other: Bytes)
    requires |addr| == 20 && |other| == 20 && BalanceKey(j, addr) == BalanceKey(i, other)
    ensures j == i && addr == other
  {
    BalanceKeyOf(j, addr, j);
    BalanceKeyOf(i, other, j);
    assert BalanceKey(j, addr)[9 + |j|..] == addr && BalanceKey(j, other)[9 + |j|..] == other;
  }

  lemma SupplyKeyInjective(j: Bytes, i: Bytes)
    requires SupplyKey(j) == SupplyKey(i)
    ensures j == i
  {
    assert SupplyKey(j)[15..] == j && SupplyKey(i)[15..] == i;
  }

  lemma TokenKeysAre(j: Bytes, addr: Bytes, k: Bytes)
    ensures IsTokenKey(BalanceKey(j, addr)) && IsTokenKey(SupplyKey(j))
    ensures BalanceKey(j, addr) != SupplyKey(k)
    ensures IsBalanceKey(k, j) ==> IsTokenKey(k)
    ensures !IsBalanceKey(SupplyKey(k), j)
  {
    BalanceAndSupplyKeys(j, addr);
    assert BalanceKey(j, addr)[7] == 58 && SupplyKey(k)[7] == 95;
    if IsBalanceKey(k, j) {
      assert k[..8] == k[..9 + |j|][..8] == WRAPPED;
    }
    assert (WRAPPED + j + COLON)[7] == 58;
  }

  // ---- The sum of the stored balances ----

  /** What one row contributes to the balances of `j`. */
  function Share(k: Bytes, v: Bytes, j: Bytes): nat { if IsBalanceKey(k, j) then Number(v, 16) else 0 }

  function Shares(j: Bytes): (Bytes, Bytes) -> int { (k, v) => Share(k, v, j) }

  ghost function SumOf(m: Storage, j: Bytes): int { SumMap(m, Shares(j)) }

  function ShareAt(m: Storage, k: Bytes, j: Bytes): nat { if k in m then Share(k, m[k], j) else 0 }

  lemma SumOfPut(m: Storage, j: Bytes, k: Bytes, v: Bytes)
    ensures SumOf(m[k := v], j) + ShareAt(m, k, j) == SumOf(m, j) + Share(k, v, j)
  {
    hide Share;
    SumPut(m, Shares(j), k, v);
  }

  lemma SumOfAtLeast(m: Storage, j: Bytes, k: Bytes)
    ensures ShareAt(m, k, j) <= SumOf(m, j)
  {
    hide Share;
    if k in m {
      SumSplit(m, Shares(j), k);
      SumNotNegative(m - {k}, Shares(j));
    } else {
      SumNotNegative(m, Shares(j));
    }
  }

  lemma ShareWithinSum(m: Storage, j: Bytes, addr: Bytes)
    requires |addr| == 20
    ensures Read128(m, BalanceKey(j, addr)) <= SumOf(m, j)
  {
    hide SumOf, IsBalanceKey, BalanceKey;
    BalanceKeyOf(j, addr, j);
    var k := BalanceKey(j, addr);
    SumOfAtLeast(m, j, k);
  }

  lemma PutBalance(m: Storage, i: Bytes, j: Bytes, addr: Bytes, n: u128)
    requires |addr| == 20
    ensures var t := Write128(m, BalanceKey(j, addr), n);
            && SumOf(t, i) + (if i == j then Read128(m, BalanceKey(j, addr)) else 0)
               == SumOf(m, i) + (if i == j then n else 0)
            && Read128(t, SupplyKey(i)) == Read128(m, SupplyKey(i))
  {
    hide SumOf, IsBalanceKey, BalanceKey, SupplyKey, ToLe, FromLe, IsTokenKey;
    var k := BalanceKey(j, addr);
    SumOfPut(m, i, k, ToLe(n, 16));
    BalanceKeyOf(j, addr, i);
    WidthsAre();
    LeRoundTrip(n, 16);
    TokenKeysAre(j, addr, i);
  }

  lemma PutSupply(m: Storage, i: Bytes, j: Bytes, n: u128)
    ensures var t := Write128(m, SupplyKey(j), n);
            SumOf(t, i) == SumOf(m, i) && Read128(t, SupplyKey(i)) == if i == j then n else Read128(m, SupplyKey(i))
  {
    hide SumOf, IsBalanceKey, BalanceKey, SupplyKey, ToLe, FromLe, IsTokenKey;
    SumOfPut(m, i, SupplyKey(j), ToLe(n, 16));
    TokenKeysAre(i, [], j);
    WidthsAre();
    LeRoundTrip(n, 16);
    if SupplyKey(i) == SupplyKey(j) { SupplyKeyInjective(i, j); }
  }

  // ---- Mint and burn ----

  /** The stored supply of `j` is the sum of its stored balances. */
  ghost predicate Balanced(m: Storage, j: Bytes) { Read128(m, SupplyKey(j)) == SumOf(m, j) }

  lemma MintOf(m: Storage, i: Bytes, j: Bytes, to: Bytes, amount: u128)
    requires |to| == 20
    ensures var t, was := Minted(m, j, to, amount), Read128(m, BalanceKey(j, to));
            && SumOf(t, i) + (if i == j then was else 0) == SumOf(m, i) + (if i == j then Add128(was, amount) else 0)
            && Read128(t, SupplyKey(i))
            == (if i == j then Add128(Read128(m, SupplyKey(i)), amount) else Read128(m, SupplyKey(i)))
  {
    hide SumOf, Read128, Write128, BalanceKey, SupplyKey, Add128;
    var was := Read128(m, BalanceKey(j, to));
    var credited := Write128(m, BalanceKey(j, to), Add128(was, amount));
    PutBalance(m, i, j, to, Add128(was, amount));
    PutBalance(m, j, j, to, Add128(was, amount));
    PutSupply(credited, i, j, Add128(Read128(credited, SupplyKey(j)), amount));
  }

  /** A mint keeps the books of its token exactly when the balance and the supply overflow together. */
  lemma MintKeepsIff(m: Storage, j: Bytes, to: Bytes, amount: u128)
    requires |to| == 20 && Balanced(m, j)
    ensures Balanced(Minted(m, j, to, amount), j) <==>
            (Read128(m, BalanceKey(j, to)) + amount < U128 <==> Read128(m, SupplyKey(j)) + amount < U128)
  {
    hide SumOf, Read128, BalanceKey, SupplyKey, Minted;
    MintOf(m, j, j, to, amount);
  }

  lemma BurnOf(m: Storage, i: Bytes, j: Bytes, from: Bytes, amount: u128)
    requires |from| == 20 && amount <= Read128(m, BalanceKey(j, from))
    ensures var t := Burned(m, j, from, amount);
            && SumOf(t, i) + (if i == j then amount else 0) == SumOf(m, i)
            && Read128(t, SupplyKey(i))
            == (if i == j then SatSub(Read128(m, SupplyKey(i)), amount) else Read128(m, SupplyKey(i)))
  {
    hide SumOf, Read128, Write128, BalanceKey, SupplyKey;
    var left := Read128(m, BalanceKey(j, from)) - amount;
    var debited := Write128(m, BalanceKey(j, from), left);
    PutBalance(m, i, j, from, left);
    PutBalance(m, j, j, from, left);
    PutSupply(debited, i, j, SatSub(Read128(debited, SupplyKey(j)), amount));
  }

  /** A burn never saturates and keeps the books of every token. */
  lemma BurnKeeps(m: Storage, i: Bytes, j: Bytes, from: Bytes, amount: u128)
    requires |from| == 20 && amount <= Read128(m, BalanceKey(j, from)) && Balanced(m, i) && Balanced(m, j)
    ensures amount <= Read128(m, SupplyKey(j))
    ensures Balanced(Burned(m, j, from, amount), i)
  {
    hide SumOf, Read128, BalanceKey, SupplyKey, Burned;
    ShareWithinSum(m, j, from);
    BurnOf(m, i, j, from, amount);
  }

  // ---- Calls ----

  /** A mint that the contract carries out: its token, receiver and amount. */
  function MintParts(s: State, c: Call): (r: Option<(Bytes, Bytes, u128)>)
    ensures r.Some? ==> |r.value.1| == 20
  {
    if c.entry.BridgeMint? && DoMint(s, c, c.entry.args).reply.Done? then
      var p := ChainAndToken(c.entry.args).value;
      WidthsAre();
      Some((Joined(p.chain, p.token), p.rest[..20], FromLe(p.rest[20..36])))
    else None
  }

  /** A mint takes the supply of its token past 128 bits. */
  predicate Overflows(s: State, c: Call) {
    MintParts(s, c).Some? &&
    var (j, _, amount) := MintParts(s, c).value; Read128(s.storage, SupplyKey(j)) + amount >= U128
  }

  lemma MintCall(s: State, c: Call, i: Bytes)
    requires c.entry.BridgeMint? && !Overflows(s, c)
    requires forall j :: Balanced(s.storage, j)
    ensures Balanced(Exec(s, c).state.storage, i)
  {
    hide SumOf, Read128, BalanceKey, SupplyKey, Minted, ChainAndToken, Joined, FromLe, Owner, ReadFlag;
    if MintParts(s, c).Some? {
      var (j, to, amount) := MintParts(s, c).value;
      MintOf(s.storage, i, j, to, amount);
      ShareWithinSum(s.storage, j, to);
      assert Balanced(s.storage, j) && Balanced(s.storage, i);
    }
  }

  lemma BurnCall(s: State, c: Call, i: Bytes)
    requires c.entry.BridgeBurn?
    requires forall j :: Balanced(s.storage, j)
    ensures Balanced(Exec(s, c).state.storage, i)
  {
    hide SumOf, Read128, BalanceKey, SupplyKey, Burned, ChainAndToken, Joined, FromLe, ReadFlag;
    if DoBurn(s, c, c.entry.args).reply.Done? {
      var p := ChainAndToken(c.entry.args).value;
      WidthsAre();
      var j, amount := Joined(p.chain, p.token), FromLe(p.rest[..16]);
      assert Balanced(s.storage, j) && Balanced(s.storage, i);
      BurnKeeps(s.storage, i, j, c.caller, amount);
    }
  }

  /** Storages that agree on the token keys have the same books. */
  lemma SameBooks(m: Storage, t: Storage, j: Bytes)
    requires forall k :: IsTokenKey(k) ==> Same(m, t, k)
    ensures SumOf(t, j) == SumOf(m, j) && Read128(t, SupplyKey(j)) == Read128(m, SupplyKey(j))
  {
    hide IsTokenKey, IsBalanceKey, SupplyKey, Read128;
    BalanceAndSupplyKeys(j, []);
    SameNumber(m, t, SupplyKey(j));
    forall k | IsBalanceKey(k, j) ensures Same(m, t, k) { TokenKeysAre(j, [], k); }
    forall k | k in m || k in t ensures At(m, Shares(j), k) == At(t, Shares(j), k) {}
    SumAgree(m, t, Shares(j), Shares(j));
  }

  lemma OtherCall(s: State, c: Call, i: Bytes)
    requires !c.entry.BridgeMint? && !c.entry.BridgeBurn? && Balanced(s.storage, i)
    ensures Balanced(Exec(s, c).state.storage, i)
  {
    hide Exec, SumOf, Read128, SupplyKey, IsSetting, IsSwapKey, IsLockedKey, IsTokenKey, IsValidatorKey, Same;
    SettingsAre();
    forall k | IsTokenKey(k) ensures Same(s.storage, Exec(s, c).state.storage, k) {
      KeysApart(k);
      ExecFrame(s, c, k);
    }
    SameBooks(s.storage, Exec(s, c).state.storage, i);
  }

  lemma CallKeeps(s: State, c: Call, i: Bytes)
    requires !Overflows(s, c)
    requires forall j :: Balanced(s.storage, j)
    ensures Balanced(Exec(s, c).state.storage, i)
  {
    hide *;
    assert Balanced(s.storage, i);
    match c.entry
    case BridgeMint(_) => MintCall(s, c, i);
    case BridgeBurn(_) => BurnCall(s, c, i);
    case _ => OtherCall(s, c, i);
  }

  /** Over every run whose mints do not overflow: supply equals the sum of balances, for every token. */
  lemma {:induction false} RunKeepsBooks(calls: seq<Call>, k: nat, j: Bytes)
    requires k <= |calls|
    requires forall n :: 0 <= n < k ==> !Overflows(After(State(map[], []), calls, n), calls[n])
    ensures Balanced(After(State(map[], []), calls, k).storage, j)
    decreases k
  {
    hide Exec, Balanced, Overflows;
    var s := State(map[], []);
    if k == 0 {
      EmptyBalanced(j);
    } else {
      var d := After(s, calls, k - 1);
      forall i ensures Balanced(d.storage, i) { RunKeepsBooks(calls, k - 1, i); }
      CallKeeps(d, calls[k - 1], j);
    }
  }

  lemma EmptyBalanced(j: Bytes)
    ensures Balanced(map[], j)
  {
  }
}
