/** The contract's settings and totals over whole runs: the owner, the fee, what the locked totals add up
    to, and what pausing stops. */
module ContractAdmin {
  import opened Core
  import opened Bytes
  import opened Contract
  import opened ContractKeys
  import ContractSwaps

  // ---- What `init` leaves, and the fee ----

  lemma InitLeaves(s: State, c: Call)
    requires c.entry.Init?
    ensures var m := Exec(s, c).state.storage;
            && Owner(m) == c.caller && !ReadFlag(m, PAUSED)
            && Read64(m, HTLC_COUNT) == 0 && Read64(m, VALIDATOR_COUNT) == 0
            && FEE_BPS in m && m[FEE_BPS] == ToLe(10, 8) && Read64(m, MIN_SIGNATURES) == 2
  {
    hide ToLe, FromLe;
    assert |OWNER| == 5 && |PAUSED| == 6 && |HTLC_COUNT| == 10 && |VALIDATOR_COUNT| == 15;
    assert |MIN_SIGNATURES| == 14 && |FEE_BPS| == 7;
    WidthsAre();
    LeRoundTrip(0, 8);
    LeRoundTrip(2, 8);
  }

  /** The fee is unset or ten basis points. */
  predicate FeeOk(m: Storage) { FEE_BPS in m ==> m[FEE_BPS] == ToLe(10, 8) }

  lemma CallKeepsFee(s: State, c: Call)
    requires FeeOk(s.storage)
    ensures FeeOk(Exec(s, c).state.storage)
  {
    hide Exec, ToLe, Writes, IsSetting;
    if c.entry.Init? {
      InitLeaves(s, c);
    } else {
      SettingsAre();
      if Writes(c, FEE_BPS) { SettingWriters(c, FEE_BPS); }
      ExecFrame(s, c, FEE_BPS);
    }
  }

  lemma {:induction false} RunKeepsFee(calls: seq<Call>, k: nat)
    requires k <= |calls|
    ensures FeeOk(After(State(map[], []), calls, k).storage)
  {
    hide Exec;
    if k > 0 {
      RunKeepsFee(calls, k - 1);
      CallKeepsFee(After(State(map[], []), calls, k - 1), calls[k - 1]);
    }
  }

  lemma TenBasisPoints(amount: u64, bps: nat)
    requires bps == 0 || bps == 10
    ensures amount * bps / 10000 == (if bps == 0 then 0 else amount / 1000)
  {
  }

  /** In every state of every run the fee is nothing or a thousandth, so the subtraction never borrows. */
  lemma FeeNeverBorrows(calls: seq<Call>, k: nat, amount: u64)
    requires k <= |calls|
    ensures var m := After(State(map[], []), calls, k).storage;
            && Fee(m, amount) == (if FEE_BPS in m then amount / 1000 else 0)
            && Net(m, amount) == amount - Fee(m, amount)
  {
    hide After, ToLe, FromLe;
    RunKeepsFee(calls, k);
    WidthsAre();
    LeRoundTrip(10, 8);
    TenBasisPoints(amount, Read64(After(State(map[], []), calls, k).storage, FEE_BPS));
  }

  // ---- The locked totals ----

  /** What a call adds to the locked total of the string `j`. */
  function LockAdds(s: State, c: Call, j: Bytes): u128 {
    if c.entry.BridgeLock? && DoLock(s, c, c.entry.args).reply.Done? &&
       (var p := ChainAndToken(c.entry.args).value; Joined(p.chain, p.token) == j)
    then Net(s.storage, c.balance) else 0
  }

  function LockedSum(s: State, calls: seq<Call>, k: nat, j: Bytes): nat
    requires k <= |calls|
  {
    if k == 0 then 0 else LockedSum(s, calls, k - 1, j) + LockAdds(After(s, calls, k - 1), calls[k - 1], j)
  }

  lemma LockedKeyInjective(i: Bytes, j: Bytes)
    requires LockedKey(i) == LockedKey(j)
    ensures i == j
  {
    assert LockedKey(i)[7..] == i && LockedKey(j)[7..] == j;
  }

  lemma LockCallAdds(s: State, c: Call, j: Bytes)
    requires c.entry.BridgeLock?
    ensures Read128(Exec(s, c).state.storage, LockedKey(j))
         == Add128(Read128(s.storage, LockedKey(j)), LockAdds(s, c, j))
  {
    hide Read128, Write128, LockedKey, Joined, ChainAndToken, Field, Net, ReadFlag;
    if DoLock(s, c, c.entry.args).reply.Done? {
      var p := ChainAndToken(c.entry.args).value;
      var i := Joined(p.chain, p.token);
      var key := LockedKey(i);
      var n := Add128(Read128(s.storage, key), Net(s.storage, c.balance));
      Stored128(s.storage, key, n);
      if i != j {
        if LockedKey(i) == LockedKey(j) { LockedKeyInjective(i, j); }
        OtherNumber(s.storage, key, n, LockedKey(j));
      }
    }
  }

  lemma OtherNumber(m: Storage, k: Bytes, n: u128, l: Bytes)
    requires k != l
    ensures Read128(Write128(m, k, n), l) == Read128(m, l)
  {
    hide ToLe, FromLe;
  }

  lemma CallAdds(s: State, c: Call, j: Bytes)
    ensures Read128(Exec(s, c).state.storage, LockedKey(j))
         == Add128(Read128(s.storage, LockedKey(j)), LockAdds(s, c, j))
  {
    if c.entry.BridgeLock? {
      hide *;
      LockCallAdds(s, c, j);
    } else {
      hide Exec, Read128, LockedKey, IsSetting, IsSwapKey, IsLockedKey, IsTokenKey, IsValidatorKey, Same;
      LockedKeysAre(j);
      KeysApart(LockedKey(j));
      SettingsAre();
      ExecFrame(s, c, LockedKey(j));
      SameNumber(s.storage, Exec(s, c).state.storage, LockedKey(j));
    }
  }

  /** Over every run the stored total of each `chain:token` string is the sum of what its successful
      locks brought in after the fee, in 128 bits. */
  lemma {:induction false} RunLocks(calls: seq<Call>, k: nat, j: Bytes)
    requires k <= |calls|
    ensures Read128(After(State(map[], []), calls, k).storage, LockedKey(j))
         == LockedSum(State(map[], []), calls, k, j) % U128
  {
    hide Exec, Read128, LockedKey, LockAdds;
    if k == 0 {
      NothingStored(LockedKey(j));
    } else {
      RunLocks(calls, k - 1, j);
      var d := After(State(map[], []), calls, k - 1);
      CallAdds(d, calls[k - 1], j);
      AddedMod(LockedSum(State(map[], []), calls, k - 1, j), LockAdds(d, calls[k - 1], j));
    }
  }

  lemma NothingStored(k: Bytes)
    ensures Read128(map[], k) == 0
  {
  }

  lemma AddedMod(a: nat, b: u128)
    ensures Add128(a % U128, b) == (a + b) % U128
  {
    var q, r := a / U128, a % U128;
    assert a + b == U128 * q + (r + b);
    ModOfMultiple(q, r + b);
  }

  lemma ModOfMultiple(q: nat, x: nat)
    ensures (U128 * q + x) % U128 == x % U128
  {
    var d := (U128 * q + x) / U128 - (q + x / U128);
    assert U128 * d == x % U128 - (U128 * q + x) % U128;
  }

  // ---- Pausing ----

  /** Nothing that moves tokens or opens swaps differs between the two storages. */
  ghost predicate Frozen(m: Storage, t: Storage) {
    && (forall k :: IsTokenKey(k) || IsLockedKey(k) ==> Same(m, t, k))
    && (forall k :: IsSwapKey(k) ==> (k in m <==> k in t))
  }

  /** The call may end a pause: `init`, or `unpause` by the owner. */
  predicate Resumes(m: Storage, c: Call) { c.entry.Init? || (c.entry.Unpause? && c.caller == Owner(m)) }

  lemma OwnerIs(s: State, c: Call)
    ensures Owner(Exec(s, c).state.storage) == if c.entry.Init? then c.caller else Owner(s.storage)
  {
    hide Exec, ToLe, Writes, IsSetting;
    if c.entry.Init? {
      InitLeaves(s, c);
    } else {
      SettingsAre();
      if Writes(c, OWNER) { SettingWriters(c, OWNER); }
      ExecFrame(s, c, OWNER);
    }
  }

  /** The caller of the last `init` among the first `k` calls. */
  function LastInit(calls: seq<Call>, k: nat): Option<Bytes>
    requires k <= |calls|
  {
    if k == 0 then None
    else if calls[k - 1].entry.Init? then Some(calls[k - 1].caller)
    else LastInit(calls, k - 1)
  }

  /** Over every run the owner is the caller of the last `init`, whoever that is; before any, the zero address. */
  lemma {:induction false} OwnerIsLastInit(calls: seq<Call>, k: nat)
    requires k <= |calls|
    ensures Owner(After(State(map[], []), calls, k).storage) == LastInit(calls, k).GetOr(ToLe(0, 20))
  {
    hide Exec, ToLe;
    if k > 0 {
      OwnerIsLastInit(calls, k - 1);
      OwnerIs(After(State(map[], []), calls, k - 1), calls[k - 1]);
    }
  }

  /** So a second `init` replaces the owner, and with it who may mint. */
  lemma SecondInitReplacesOwner(first: Call, second: Call)
    requires first.entry.Init? && second.entry.Init? && first.caller != second.caller
    ensures Owner(After(State(map[], []), [first, second], 1).storage) == first.caller
    ensures Owner(After(State(map[], []), [first, second], 2).storage) == second.caller
  {
    hide After, Owner;
    OwnerIsLastInit([first, second], 1);
    OwnerIsLastInit([first, second], 2);
  }

  /** While paused, creating, locking, minting and burning abort. */
  lemma PausedAborts(s: State, c: Call)
    requires ReadFlag(s.storage, PAUSED)
    requires c.entry.CreateHtlc? || c.entry.BridgeLock? || c.entry.BridgeMint? || c.entry.BridgeBurn?
    ensures Exec(s, c) == Outcome(s, Aborted)
  {
    hide ReadFlag, Owner, Read64, Read128, Joined, ChainAndToken, Field, Encode, HtlcKey, ToLe;
  }

  lemma PausedKeepsFlag(s: State, c: Call)
    requires ReadFlag(s.storage, PAUSED) && !Resumes(s.storage, c)
    ensures ReadFlag(Exec(s, c).state.storage, PAUSED)
  {
    if !c.entry.Pause? && !c.entry.Unpause? {
      hide Exec, ReadFlag, Writes, IsSetting, Same, Owner;
      SettingsAre();
      if Writes(c, PAUSED) { SettingWriters(c, PAUSED); }
      ExecFrame(s, c, PAUSED);
      SameNumber(s.storage, Exec(s, c).state.storage, PAUSED);
    }
  }

  lemma PausedFreezesKey(s: State, c: Call, k: Bytes)
    requires ReadFlag(s.storage, PAUSED) && !c.entry.Init?
    ensures IsTokenKey(k) || IsLockedKey(k) ==> Same(s.storage, Exec(s, c).state.storage, k)
    ensures IsSwapKey(k) ==> (k in s.storage <==> k in Exec(s, c).state.storage)
  {
    if c.entry.CreateHtlc? || c.entry.BridgeLock? || c.entry.BridgeMint? || c.entry.BridgeBurn? {
      hide Exec, ReadFlag;
      PausedAborts(s, c);
    } else {
      hide Exec, ReadFlag, IsSetting, IsSwapKey, IsLockedKey, IsTokenKey, IsValidatorKey, Decode, Encode,
           ContractSwaps.Created, ContractSwaps.ClaimedBy, ContractSwaps.RefundedBy, ContractSwaps.Paid,
           ContractSwaps.PayoutsFor;
      KeysApart(k);
      SettingsAre();
      if IsSwapKey(k) { ContractSwaps.ExecMoves(s, c, k); } else if !Writes(c, k) { ExecFrame(s, c, k); }
    }
  }

  lemma PausedStep(s: State, c: Call)
    requires ReadFlag(s.storage, PAUSED) && !Resumes(s.storage, c)
    ensures var t := Exec(s, c).state.storage;
            ReadFlag(t, PAUSED) && Owner(t) == Owner(s.storage) && Frozen(s.storage, t)
  {
    hide Exec, ReadFlag, Owner, Same, IsTokenKey, IsLockedKey, IsSwapKey;
    OwnerIs(s, c);
    PausedKeepsFlag(s, c);
    forall k { PausedFreezesKey(s, c, k); }
  }

  /** From a paused state until the owner resumes or `init` is called again, over every run: the contract
      stays paused, no token balance, supply or locked total changes and no swap is opened. */
  lemma {:induction false} PausedFreezes(s: State, calls: seq<Call>, i: nat, j: nat)
    requires i <= j <= |calls| && ReadFlag(After(s, calls, i).storage, PAUSED)
    requires forall n :: i <= n < j ==> !Resumes(After(s, calls, i).storage, calls[n])
    ensures var m, t := After(s, calls, i).storage, After(s, calls, j).storage;
            ReadFlag(t, PAUSED) && Owner(t) == Owner(m) && Frozen(m, t)
    decreases j
  {
    hide Exec, ReadFlag, Owner, IsTokenKey, IsLockedKey, IsSwapKey;
    if i < j {
      PausedFreezes(s, calls, i, j - 1);
      PausedStep(After(s, calls, j - 1), calls[j - 1]);
    }
  }
}
