/** What the contract's two stored counts count: the validators whose flag is set, and the swap records. */
module ContractCounts {
  import opened Core
  import opened Bytes
  import opened Contract
  import opened ContractKeys
  import opened ContractSwaps
  import opened ContractAdmin

  // ---- Validators ----

  /** The keys of the validators whose flag is set. */
  function Flagged(m: Storage): set<Bytes> { set k | k in m && IsValidatorKey(k) && ReadFlag(m, k) }

  ghost predicate Counted(m: Storage) { Read64(m, VALIDATOR_COUNT) == |Flagged(m)| }

  /** The calls that make the count wrong: adding a set flag again, removing one that is not set while
      the count is positive, `init` over a positive count, and an overflow of the count. */
  predicate Miscounts(s: State, c: Call) {
    var n := Read64(s.storage, VALIDATOR_COUNT);
    match c.entry
    case Init => n > 0
    case AddValidator(args) =>
      c.caller == Owner(s.storage) && |args| >= 20 && (ReadFlag(s.storage, ValidatorKey(args[..20])) || n + 1 == U64)
    case RemoveValidator(args) =>
      c.caller == Owner(s.storage) && |args| >= 20 && !ReadFlag(s.storage, ValidatorKey(args[..20])) && n > 0
    case _ => false
  }

  lemma SetFlag(m: Storage, k: Bytes, b: bool)
    requires IsValidatorKey(k)
    ensures Flagged(WriteFlag(m, k, b)) == if b then Flagged(m) + {k} else Flagged(m) - {k}
    ensures k in Flagged(m) <==> ReadFlag(m, k)
  {
    hide IsValidatorKey;
  }

  /** Writing the count touches no flag. */
  lemma CountTouchesNoFlag(m: Storage, v: Bytes)
    ensures Flagged(m[VALIDATOR_COUNT := v]) == Flagged(m)
  {
    hide IsValidatorKey, IsSetting, IsSwapKey, IsLockedKey;
    SettingsAre();
    KeysApart(VALIDATOR_COUNT);
  }

  lemma FlagTouchesNoCount(m: Storage, k: Bytes, b: bool)
    requires IsValidatorKey(k)
    ensures Read64(WriteFlag(m, k, b), VALIDATOR_COUNT) == Read64(m, VALIDATOR_COUNT)
  {
    hide IsValidatorKey, IsSetting, IsSwapKey, IsLockedKey, FromLe;
    SettingsAre();
    KeysApart(VALIDATOR_COUNT);
  }

  lemma AddCounts(s: State, c: Call, args: Bytes)
    requires c.entry == AddValidator(args) && c.caller == Owner(s.storage) && |args| >= 20 && Counted(s.storage)
    ensures Counted(Exec(s, c).state.storage) <==> !Miscounts(s, c)
  {
    hide Flagged, Read64, Write64, WriteFlag, ReadFlag, Owner, ValidatorKey, IsValidatorKey;
    var key, n := ValidatorKey(args[..20]), Read64(s.storage, VALIDATOR_COUNT);
    ValidatorKeysAre(args[..20]);
    SetFlag(s.storage, key, true);
    FlagTouchesNoCount(s.storage, key, true);
    var m := WriteFlag(s.storage, key, true);
    WriteCount(m, (n + 1) % U64);
    if key in Flagged(s.storage) { assert Flagged(s.storage) + {key} == Flagged(s.storage); }
  }

  lemma WriteCount(m: Storage, n: u64)
    ensures Read64(Write64(m, VALIDATOR_COUNT, n), VALIDATOR_COUNT) == n
    ensures Flagged(Write64(m, VALIDATOR_COUNT, n)) == Flagged(m)
  {
    hide Flagged, Read64, ToLe;
    Stored64(m, VALIDATOR_COUNT, n);
    CountTouchesNoFlag(m, ToLe(n, 8));
  }

  lemma RemoveCounts(s: State, c: Call, args: Bytes)
    requires c.entry == RemoveValidator(args) && c.caller == Owner(s.storage) && |args| >= 20 && Counted(s.storage)
    ensures Counted(Exec(s, c).state.storage) <==> !Miscounts(s, c)
  {
    hide Flagged, Read64, Write64, WriteFlag, ReadFlag, Owner, ValidatorKey, IsValidatorKey;
    var key, n := ValidatorKey(args[..20]), Read64(s.storage, VALIDATOR_COUNT);
    ValidatorKeysAre(args[..20]);
    SetFlag(s.storage, key, false);
    FlagTouchesNoCount(s.storage, key, false);
    var m := WriteFlag(s.storage, key, false);
    if n > 0 { WriteCount(m, n - 1); }
    if key !in Flagged(s.storage) { assert Flagged(s.storage) - {key} == Flagged(s.storage); }
  }

  lemma SameFlags(m: Storage, t: Storage)
    requires forall k :: IsValidatorKey(k) ==> Same(m, t, k)
    ensures Flagged(t) == Flagged(m)
  {
    hide IsValidatorKey;
    forall k | IsValidatorKey(k) ensures k in Flagged(t) <==> k in Flagged(m) { assert Same(m, t, k); }
    assert forall k :: k in Flagged(t) ==> IsValidatorKey(k);
    assert forall k :: k in Flagged(m) ==> IsValidatorKey(k);
  }

  lemma InitCounts(s: State, c: Call)
    requires c.entry.Init? && Counted(s.storage)
    ensures Counted(Exec(s, c).state.storage) <==> !Miscounts(s, c)
  {
    hide Exec, Flagged, Read64, IsValidatorKey, IsSetting, IsSwapKey, IsLockedKey, Same, ReadFlag, Owner, ToLe;
    InitLeaves(s, c);
    forall k | IsValidatorKey(k) ensures Same(s.storage, Exec(s, c).state.storage, k) {
      KeysApart(k);
      ExecFrame(s, c, k);
    }
    SameFlags(s.storage, Exec(s, c).state.storage);
  }

  lemma OtherCounts(s: State, c: Call)
    requires !c.entry.Init? && !c.entry.AddValidator? && !c.entry.RemoveValidator? && Counted(s.storage)
    ensures Counted(Exec(s, c).state.storage)
  {
    hide Exec, Flagged, Read64, IsValidatorKey, IsSetting, IsSwapKey, IsLockedKey, IsTokenKey, Same, ReadFlag;
    SettingsAre();
    forall k | IsValidatorKey(k) || k == VALIDATOR_COUNT ensures Same(s.storage, Exec(s, c).state.storage, k) {
      KeysApart(k);
      ExecFrame(s, c, k);
    }
    SameNumber(s.storage, Exec(s, c).state.storage, VALIDATOR_COUNT);
    SameFlags(s.storage, Exec(s, c).state.storage);
  }

  /** A call keeps the stored count equal to the number of set flags exactly unless it miscounts. */
  lemma CallCountsIff(s: State, c: Call)
    requires Counted(s.storage)
    ensures Counted(Exec(s, c).state.storage) <==> !Miscounts(s, c)
  {
    hide Counted, ReadFlag, Read64, ValidatorKey, Owner, Write64, WriteFlag;
    match c.entry
    case Init => hide Exec; InitCounts(s, c);
    case AddValidator(args) =>
      if c.caller == Owner(s.storage) && |args| >= 20 { AddCounts(s, c, args); }
    case RemoveValidator(args) =>
      if c.caller == Owner(s.storage) && |args| >= 20 { RemoveCounts(s, c, args); }
    case _ => hide Exec; OtherCounts(s, c);
  }

  /** Over every run without such calls the count is right. */
  lemma {:induction false} RunCounts(calls: seq<Call>, k: nat)
    requires k <= |calls|
    requires forall n :: 0 <= n < k ==> !Miscounts(After(State(map[], []), calls, n), calls[n])
    ensures Counted(After(State(map[], []), calls, k).storage)
    decreases k
  {
    hide Exec, Miscounts;
    if k > 0 {
      RunCounts(calls, k - 1);
      CallCountsIff(After(State(map[], []), calls, k - 1), calls[k - 1]);
    }
  }

  lemma AddSetsFlag(s: State, c: Call, args: Bytes)
    requires c.entry == AddValidator(args) && c.caller == Owner(s.storage) && |args| >= 20
    ensures ReadFlag(Exec(s, c).state.storage, ValidatorKey(args[..20]))
  {
    hide ToLe, Read64, Owner, IsValidatorKey, IsSetting, IsSwapKey, IsLockedKey, ValidatorKey;
    ValidatorKeysAre(args[..20]);
    SettingsAre();
    KeysApart(VALIDATOR_COUNT);
  }

  /** For example: adding one validator twice counts two for one flag. */
  lemma AddedTwiceMiscounts(init: Call, add: Call, addr: Bytes)
    requires init.entry.Init? && add.entry == AddValidator(addr) && |addr| == 20 && add.caller == init.caller
    ensures var calls := [init, add, add];
            Counted(After(State(map[], []), calls, 2).storage) && !Counted(After(State(map[], []), calls, 3).storage)
  {
    hide *;
    var empty := State(map[], []);
    var s1 := Exec(empty, init).state;
    var s2 := Exec(s1, add).state;
    InitThenAdd(init, add, addr);
    CallCountsIff(s1, add);
    CallCountsIff(s2, add);
    AfterThree(empty, init, add, add);
  }

  lemma AfterThree(s: State, a: Call, b: Call, c: Call)
    ensures var s2 := Exec(Exec(s, a).state, b).state;
            After(s, [a, b, c], 2) == s2 && After(s, [a, b, c], 3) == Exec(s2, c).state
  {
    hide Exec;
    assert After(s, [a, b, c], 1) == Exec(s, a).state;
    assert After(s, [a, b, c], 2) == Exec(Exec(s, a).state, b).state;
  }

  /** The first addition is counted, the second is not. */
  lemma InitThenAdd(init: Call, add: Call, addr: Bytes)
    requires init.entry.Init? && add.entry == AddValidator(addr) && |addr| == 20 && add.caller == init.caller
    ensures var s1 := Exec(State(map[], []), init).state;
            Counted(s1.storage) && !Miscounts(s1, add) && Miscounts(Exec(s1, add).state, add)
  {
    hide Exec, Counted, Read64, ReadFlag, Owner, ValidatorKey, IsValidatorKey, IsSetting, IsSwapKey, IsLockedKey, ToLe;
    var empty := State(map[], []);
    var s1 := Exec(empty, init).state;
    assert addr[..20] == addr;
    NothingCounted();
    CallCountsIff(empty, init);
    InitLeaves(empty, init);
    ValidatorKeysAre(addr);
    KeysApart(ValidatorKey(addr));
    ExecFrame(empty, init, ValidatorKey(addr));
    NoFlag(s1.storage, ValidatorKey(addr));
    AddSetsFlag(s1, add, addr);
    OwnerIs(s1, add);
  }

  lemma NothingCounted()
    ensures Counted(map[]) && Read64(map[], VALIDATOR_COUNT) == 0
  {
    assert Flagged(map[]) == {};
  }

  lemma NoFlag(m: Storage, k: Bytes)
    requires k !in m
    ensures !ReadFlag(m, k)
  {
  }

  // ---- Swap records ----

  function SwapKeys(m: Storage): set<Bytes> { set k | k in m && IsSwapKey(k) }

  ghost predicate SwapsCounted(m: Storage) { Read64(m, HTLC_COUNT) == |SwapKeys(m)| % U64 }

  lemma CreateCountsSwaps(s: State, c: Call, args: Bytes)
    requires c.entry == CreateHtlc(args) && DoCreate(s, c, args).reply.Done? && SwapsCounted(s.storage)
    ensures SwapsCounted(Exec(s, c).state.storage)
  {
    hide IsSwapKey, HtlcKey, Encode, ToLe, FromLe, ReadFlag, Read64, IsSetting, IsLockedKey, IsValidatorKey;
    var key := HtlcKey(args[..32]);
    SwapKeysAre(args[..32]);
    SettingsAre();
    KeysApart(HTLC_COUNT);
    var m := s.storage[key := Encode(NewHtlc(c, args))];
    SameNumber(s.storage, m, HTLC_COUNT);
    var t := Write64(m, HTLC_COUNT, (Read64(m, HTLC_COUNT) + 1) % U64);
    Stored64(m, HTLC_COUNT, (Read64(m, HTLC_COUNT) + 1) % U64);
    assert SwapKeys(t) == SwapKeys(s.storage) + {key};
    OneMore(|SwapKeys(s.storage)|);
  }

  lemma OneMore(n: nat)
    ensures (n % U64 + 1) % U64 == (n + 1) % U64
  {
  }

  /** The swap keys and the stored count are the same after any other call but `init`. */
  lemma OtherCallsKeepSwaps(s: State, c: Call)
    requires !c.entry.Init? && (c.entry.CreateHtlc? ==> !Exec(s, c).reply.Done?) && SwapsCounted(s.storage)
    ensures SwapsCounted(Exec(s, c).state.storage)
  {
    var t := Exec(s, c).state.storage;
    if c.entry.CreateHtlc? {
      hide IsSwapKey, HtlcKey, Encode, ToLe, FromLe, ReadFlag, Read64;
      assert t == s.storage;
    } else {
      hide Exec, IsSwapKey, IsSetting, IsLockedKey, IsValidatorKey, IsTokenKey, Created, ClaimedBy, RefundedBy,
           Paid, PayoutsFor, Decode, Encode, Read64, Writes, ReadFlag;
      forall k | IsSwapKey(k) ensures k in t <==> k in s.storage { ExecMoves(s, c, k); }
      assert SwapKeys(t) == SwapKeys(s.storage);
      SettingsAre();
      if Writes(c, HTLC_COUNT) { SettingWriters(c, HTLC_COUNT); }
      ExecFrame(s, c, HTLC_COUNT);
      SameNumber(s.storage, t, HTLC_COUNT);
    }
  }

  lemma InitCountsSwaps(s: State, c: Call)
    requires c.entry.Init? && SwapsCounted(s.storage)
    ensures SwapsCounted(Exec(s, c).state.storage) <==> Read64(s.storage, HTLC_COUNT) == 0
  {
    hide Exec, IsSwapKey, IsSetting, IsLockedKey, IsValidatorKey, Created, ClaimedBy, RefundedBy,
         Paid, PayoutsFor, Decode, Encode, Read64, ReadFlag, Owner, ToLe;
    var t := Exec(s, c).state.storage;
    InitLeaves(s, c);
    forall k | IsSwapKey(k) ensures k in t <==> k in s.storage {
      KeysApart(k);
      ExecFrame(s, c, k);
    }
    assert SwapKeys(t) == SwapKeys(s.storage);
  }

  /** A call keeps the stored count of swaps equal to the number of records, in 64 bits, exactly unless it
      is `init` over a count that is not zero. */
  lemma CallCountsSwapsIff(s: State, c: Call)
    requires SwapsCounted(s.storage)
    ensures SwapsCounted(Exec(s, c).state.storage) <==> !(c.entry.Init? && Read64(s.storage, HTLC_COUNT) != 0)
  {
    hide Exec, SwapsCounted, Read64;
    if c.entry.Init? {
      InitCountsSwaps(s, c);
    } else if c.entry.CreateHtlc? && Exec(s, c).reply.Done? {
      ExecIs(s, c);
      CreateCountsSwaps(s, c, c.entry.args);
    } else {
      OtherCallsKeepSwaps(s, c);
    }
  }

  /** So over every run without such an `init` the stored count is the number of records. */
  lemma {:induction false} RunCountsSwaps(calls: seq<Call>, k: nat)
    requires k <= |calls|
    requires forall n :: 0 <= n < k && calls[n].entry.Init? ==>
               Read64(After(State(map[], []), calls, n).storage, HTLC_COUNT) == 0
    ensures SwapsCounted(After(State(map[], []), calls, k).storage)
    decreases k
  {
    hide Exec;
    if k > 0 {
      RunCountsSwaps(calls, k - 1);
      CallCountsSwapsIff(After(State(map[], []), calls, k - 1), calls[k - 1]);
    }
  }
}
