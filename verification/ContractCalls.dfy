/** What each entry point does with arguments built as its documentation says: when it succeeds, and whose
    record, balance, total or flag changes to what. */
module ContractCalls {
  import opened Core
  import opened Bytes
  import opened Contract
  import opened ContractArgs
  import opened ContractKeys
  import opened ContractTokens
  import ContractAdmin
  import ContractSwaps
  import Sha256

  // ---- Swaps ----

  lemma CreateArgs(lock: Bytes, to: Bytes, timelock: u64, more: Bytes)
    requires |lock| == 32 && |to| == 20
    ensures var args := lock + to + ToLe(timelock, 8) + more;
            |args| >= 60 && args[..32] == lock && args[32..52] == to && FromLe(args[52..60]) == timelock
  {
    hide ToLe, FromLe;
    WidthsAre();
    LeRoundTrip(timelock, 8);
    var args := lock + to + ToLe(timelock, 8) + more;
    assert args[52..60] == ToLe(timelock, 8);
  }

  /** A swap from the caller to `to` over the attached amount is stored exactly when the contract is not
      paused, something is attached and the lock is unused. */
  lemma CreateStores(s: State, c: Call, lock: Bytes, to: Bytes, timelock: u64, more: Bytes)
    requires |lock| == 32 && |to| == 20 && c.entry == CreateHtlc(lock + to + ToLe(timelock, 8) + more)
    ensures var (t, r, key) := (Exec(s, c).state, Exec(s, c).reply, HtlcKey(lock));
            && (r.Aborted? <==> ReadFlag(s.storage, PAUSED))
            && (r.Done? <==> !ReadFlag(s.storage, PAUSED) && c.balance > 0 && key !in s.storage)
            && (r.Done? ==> key in t.storage &&
                            Decode(t.storage[key]) == Some(Htlc(c.caller, to, c.balance, timelock, ACTIVE)))
            && (!r.Done? ==> t == s)
  {
    CreateArgs(lock, to, timelock, more);
    ContractSwaps.DecodeEncode(Htlc(c.caller, to, c.balance, timelock, ACTIVE));
    SettingsAre();
    SwapKeysAre(lock);
    KeysApart(HTLC_COUNT);
    hide ReadFlag, Read64, HtlcKey, Encode, Decode, FromLe, ToLe, IsSwapKey, IsSetting, IsLockedKey, IsTokenKey,
         IsValidatorKey;
  }

  /** The record under the key, if it decodes. */
  function RecordAt(m: Storage, key: Bytes): Option<Htlc> { if key in m then Decode(m[key]) else None }

  /** The record is paid out to the caller, once, and marked. */
  predicate Settled(s: State, t: State, c: Call, key: Bytes, h: Htlc, status: byte) {
    && RecordAt(t.storage, key) == Some(h.(status := status))
    && t.log == s.log + [Payout(key, c.caller, h.amount % U64, c.balance >= h.amount % U64)]
  }

  /** A claim pays the recipient exactly when the preimage opens an active record of the caller in time. */
  lemma ClaimPays(s: State, c: Call, preimage: Bytes, key: Bytes, h: Option<Htlc>)
    requires c.entry == ClaimHtlc(preimage) && key == HtlcKey(Sha256.Digest(preimage)) && h == RecordAt(s.storage, key)
    ensures Exec(s, c).reply.Done? <==>
            && preimage != [] && h.Some? && h.value.status == ACTIVE && h.value.recipient == c.caller
            && c.now < h.value.timelock
    ensures !Exec(s, c).reply.Done? ==> Exec(s, c) == Outcome(s, Failed)
    ensures Exec(s, c).reply.Done? ==> Settled(s, Exec(s, c).state, c, key, h.value, CLAIMED)
  {
    hide HtlcKey, Encode, Decode, Sha256.Digest;
    if h.Some? { Marked(s.storage[key], CLAIMED); }
  }

  /** A refund pays the sender exactly when the record is active, the caller's own and the deadline reached. */
  lemma RefundPays(s: State, c: Call, lock: Bytes, more: Bytes, key: Bytes, h: Option<Htlc>)
    requires |lock| == 32 && c.entry == RefundHtlc(lock + more) && key == HtlcKey(lock) && h == RecordAt(s.storage, key)
    ensures Exec(s, c).reply.Done? <==>
            h.Some? && h.value.status == ACTIVE && h.value.sender == c.caller && c.now >= h.value.timelock
    ensures !Exec(s, c).reply.Done? ==> Exec(s, c) == Outcome(s, Failed)
    ensures Exec(s, c).reply.Done? ==> Settled(s, Exec(s, c).state, c, key, h.value, REFUNDED)
  {
    hide HtlcKey, Encode, Decode;
    assert (lock + more)[..32] == lock;
    if h.Some? { Marked(s.storage[key], REFUNDED); }
  }

  lemma Marked(d: Bytes, status: byte)
    requires Decode(d).Some?
    ensures var h := Decode(d).value.(status := status); Decode(Encode(h)) == Some(h)
  {
    hide Encode, FromLe;
    ContractSwaps.DecodeEncode(Decode(d).value.(status := status));
  }

  // ---- Wrapped tokens ----

  lemma MintArgs(chain: Bytes, token: Bytes, to: Bytes, amount: u128, more: Bytes)
    requires |chain| < U32 && |token| < U32 && |to| == 20
    ensures var rest := to + ToLe(amount, 16) + more; var args := Prefixed(chain) + Prefixed(token) + rest;
            && |args| >= 44 && ChainAndToken(args) == Some(Parsed(chain, token, rest))
            && |rest| >= 36 && rest[..20] == to && FromLe(rest[20..36]) == amount
  {
    hide ToLe, FromLe, ChainAndToken;
    var rest := to + ToLe(amount, 16) + more;
    ParseOfBuilt(chain, token, rest);
    WidthsAre();
    LeRoundTrip(amount, 16);
    assert rest[20..36] == ToLe(amount, 16);
  }

  /** A mint credits exactly the named address: from the owner, unless paused. */
  lemma MintMoves(s: State, c: Call, chain: Bytes, token: Bytes, to: Bytes, amount: u128, more: Bytes,
                  j: Bytes, a: Bytes)
    requires |chain| < U32 && |token| < U32 && |to| == 20 && |a| == 20
    requires c.entry == BridgeMint(Prefixed(chain) + Prefixed(token) + (to + ToLe(amount, 16) + more))
    ensures var (t, r) := (Exec(s, c).state, Exec(s, c).reply);
            && (r.Done? <==> c.caller == Owner(s.storage) && !ReadFlag(s.storage, PAUSED))
            && (!r.Done? ==> r.Aborted? && t == s)
    ensures Exec(s, c).reply.Done? ==> var was := Read128(s.storage, BalanceKey(j, a));
              Read128(Exec(s, c).state.storage, BalanceKey(j, a))
              == (if j == Joined(chain, token) && a == to then Add128(was, amount) else was)
  {
    MintArgs(chain, token, to, amount, more);
    hide BalanceKey, SupplyKey, Read128, Write128, Owner, ReadFlag, FromLe, ToLe, ChainAndToken, Joined, Prefixed;
    MintedAt(s.storage, Joined(chain, token), to, amount, j, a);
  }

  lemma MintedAt(m: Storage, i: Bytes, to: Bytes, amount: u128, j: Bytes, a: Bytes)
    requires |to| == 20 && |a| == 20
    ensures Read128(Minted(m, i, to, amount), BalanceKey(j, a)) ==
            var was := Read128(m, BalanceKey(j, a)); if j == i && a == to then Add128(was, amount) else was
  {
    hide BalanceKey, SupplyKey, Read128, Write128;
    var n := Add128(Read128(m, BalanceKey(i, to)), amount);
    var credited := Write128(m, BalanceKey(i, to), n);
    BalanceWritten(m, i, to, n, j, a);
    SupplyApart(credited, i, Add128(Read128(credited, SupplyKey(i)), amount), j, a);
  }

  lemma BalanceWritten(m: Storage, i: Bytes, to: Bytes, n: u128, j: Bytes, a: Bytes)
    requires |to| == 20 && |a| == 20
    ensures Read128(Write128(m, BalanceKey(i, to), n), BalanceKey(j, a))
         == if j == i && a == to then n else Read128(m, BalanceKey(j, a))
  {
    hide BalanceKey, Read128, Write128;
    if BalanceKey(i, to) == BalanceKey(j, a) { BalanceKeyInjective(i, to, j, a); }
    if j == i && a == to {
      Stored128(m, BalanceKey(i, to), n);
    } else {
      ContractAdmin.OtherNumber(m, BalanceKey(i, to), n, BalanceKey(j, a));
    }
  }

  lemma SupplyApart(m: Storage, i: Bytes, n: u128, j: Bytes, a: Bytes)
    ensures Read128(Write128(m, SupplyKey(i), n), BalanceKey(j, a)) == Read128(m, BalanceKey(j, a))
  {
    hide BalanceKey, SupplyKey, Read128, Write128;
    TokenKeysAre(j, a, i);
    ContractAdmin.OtherNumber(m, SupplyKey(i), n, BalanceKey(j, a));
  }

  lemma BurnArgs(chain: Bytes, token: Bytes, amount: u128, more: Bytes)
    requires |chain| < U32 && |token| < U32
    ensures var rest := ToLe(amount, 16) + more; var args := Prefixed(chain) + Prefixed(token) + rest;
            && ChainAndToken(args) == Some(Parsed(chain, token, rest))
            && |rest| >= 16 && FromLe(rest[..16]) == amount && |args| == 24 + |chain| + |token| + |more|
  {
    hide ToLe, FromLe, ChainAndToken;
    var rest := ToLe(amount, 16) + more;
    ParseOfBuilt(chain, token, rest);
    WidthsAre();
    LeRoundTrip(amount, 16);
    assert rest[..16] == ToLe(amount, 16);
  }

  /** A burn debits exactly the caller: unless paused, of 28 bytes or more and covered by the balance. */
  lemma BurnMoves(s: State, c: Call, chain: Bytes, token: Bytes, amount: u128, more: Bytes, j: Bytes, a: Bytes)
    requires |chain| < U32 && |token| < U32 && |a| == 20
    requires c.entry == BridgeBurn(Prefixed(chain) + Prefixed(token) + (ToLe(amount, 16) + more))
    ensures var (t, r) := (Exec(s, c).state, Exec(s, c).reply);
            && (r.Aborted? <==> ReadFlag(s.storage, PAUSED))
            && (r.Done? <==> !ReadFlag(s.storage, PAUSED) && |chain| + |token| + |more| >= 4 &&
                             Read128(s.storage, BalanceKey(Joined(chain, token), c.caller)) >= amount)
            && (!r.Done? ==> t == s)
    ensures Exec(s, c).reply.Done? ==>
              Read128(Exec(s, c).state.storage, BalanceKey(j, a))
              == Read128(s.storage, BalanceKey(j, a))
                 - (if j == Joined(chain, token) && a == c.caller then amount else 0)
  {
    BurnArgs(chain, token, amount, more);
    hide BalanceKey, SupplyKey, Read128, Write128, Owner, ReadFlag, FromLe, ToLe, ChainAndToken, Joined, Prefixed;
    var i := Joined(chain, token);
    if Read128(s.storage, BalanceKey(i, c.caller)) >= amount { BurnedAt(s.storage, i, c.caller, amount, j, a); }
  }

  lemma BurnedAt(m: Storage, i: Bytes, from: Bytes, amount: u128, j: Bytes, a: Bytes)
    requires |from| == 20 && |a| == 20 && amount <= Read128(m, BalanceKey(i, from))
    ensures Read128(Burned(m, i, from, amount), BalanceKey(j, a))
         == Read128(m, BalanceKey(j, a)) - (if j == i && a == from then amount else 0)
  {
    hide BalanceKey, SupplyKey, Read128, Write128;
    var n := Read128(m, BalanceKey(i, from)) - amount;
    var debited := Write128(m, BalanceKey(i, from), n);
    BalanceWritten(m, i, from, n, j, a);
    SupplyApart(debited, i, SatSub(Read128(debited, SupplyKey(i)), amount), j, a);
  }

  // ---- Whose balance is what, over whole runs ----

  /** A burn that the contract carries out: its token and amount. */
  function BurnParts(s: State, c: Call): Option<(Bytes, u128)> {
    if c.entry.BridgeBurn? && DoBurn(s, c, c.entry.args).reply.Done? then
      var p := ChainAndToken(c.entry.args).value;
      WidthsAre();
      Some((Joined(p.chain, p.token), FromLe(p.rest[..16])))
    else None
  }

  /** What a call mints to the address, and what it burns of it. */
  function MintedTo(s: State, c: Call, j: Bytes, a: Bytes): u128 {
    var p := MintParts(s, c);
    if p.Some? && p.value.0 == j && p.value.1 == a then p.value.2 else 0
  }

  function BurnedBy(s: State, c: Call, j: Bytes, a: Bytes): u128 {
    var p := BurnParts(s, c);
    if p.Some? && p.value.0 == j && c.caller == a then p.value.1 else 0
  }

  function TotalMinted(s: State, calls: seq<Call>, k: nat, j: Bytes, a: Bytes): nat
    requires k <= |calls|
  {
    if k == 0 then 0 else TotalMinted(s, calls, k - 1, j, a) + MintedTo(After(s, calls, k - 1), calls[k - 1], j, a)
  }

  function TotalBurned(s: State, calls: seq<Call>, k: nat, j: Bytes, a: Bytes): nat
    requires k <= |calls|
  {
    if k == 0 then 0 else TotalBurned(s, calls, k - 1, j, a) + BurnedBy(After(s, calls, k - 1), calls[k - 1], j, a)
  }

  lemma MintChanges(s: State, c: Call, j: Bytes, a: Bytes)
    requires c.entry.BridgeMint? && |a| == 20
    ensures BurnedBy(s, c, j, a) == 0
    ensures Read128(Exec(s, c).state.storage, BalanceKey(j, a))
         == Add128(Read128(s.storage, BalanceKey(j, a)), MintedTo(s, c, j, a))
  {
    hide BalanceKey, SupplyKey, Read128, Minted, ChainAndToken, Joined, FromLe, Owner, ReadFlag;
    if MintParts(s, c).Some? {
      var (i, to, amount) := MintParts(s, c).value;
      MintedAt(s.storage, i, to, amount, j, a);
    }
  }

  lemma BurnChanges(s: State, c: Call, j: Bytes, a: Bytes)
    requires c.entry.BridgeBurn? && |a| == 20
    ensures MintedTo(s, c, j, a) == 0
    ensures Read128(Exec(s, c).state.storage, BalanceKey(j, a)) + BurnedBy(s, c, j, a)
         == Read128(s.storage, BalanceKey(j, a))
  {
    hide BalanceKey, SupplyKey, Read128, Burned, ChainAndToken, Joined, FromLe, Owner, ReadFlag;
    if BurnParts(s, c).Some? {
      var (i, amount) := BurnParts(s, c).value;
      BurnedAt(s.storage, i, c.caller, amount, j, a);
    }
  }

  lemma OtherChanges(s: State, c: Call, j: Bytes, a: Bytes)
    requires !c.entry.BridgeMint? && !c.entry.BridgeBurn?
    ensures MintedTo(s, c, j, a) == 0 && BurnedBy(s, c, j, a) == 0
    ensures Read128(Exec(s, c).state.storage, BalanceKey(j, a)) == Read128(s.storage, BalanceKey(j, a))
  {
    hide Exec, BalanceKey, Read128, IsSetting, IsSwapKey, IsLockedKey, IsTokenKey, IsValidatorKey, Same;
    BalanceAndSupplyKeys(j, a);
    KeysApart(BalanceKey(j, a));
    SettingsAre();
    ExecFrame(s, c, BalanceKey(j, a));
    SameNumber(s.storage, Exec(s, c).state.storage, BalanceKey(j, a));
  }

  /** A call changes an address's balance by what it mints to it or burns of it. */
  lemma CallChanges(s: State, c: Call, j: Bytes, a: Bytes)
    requires |a| == 20
    ensures var was, now := Read128(s.storage, BalanceKey(j, a)), Read128(Exec(s, c).state.storage, BalanceKey(j, a));
            now + BurnedBy(s, c, j, a) == Add128(was, MintedTo(s, c, j, a))
  {
    hide *;
    match c.entry
    case BridgeMint(_) => MintChanges(s, c, j, a); AddNothing(Read128(s.storage, BalanceKey(j, a)));
    case BridgeBurn(_) => BurnChanges(s, c, j, a); AddNothing(Read128(s.storage, BalanceKey(j, a)));
    case _ => OtherChanges(s, c, j, a); AddNothing(Read128(s.storage, BalanceKey(j, a)));
  }

  lemma AddNothing(n: u128)
    ensures Add128(n, 0) == n
  {
  }

  /** Over every run whose mints do not overflow, each stored balance is what was minted to that address less
      what it burned. */
  lemma {:induction false} RunBalance(calls: seq<Call>, k: nat, j: Bytes, a: Bytes)
    requires k <= |calls| && |a| == 20
    requires forall n :: 0 <= n < k ==> !Overflows(After(State(map[], []), calls, n), calls[n])
    ensures Read128(After(State(map[], []), calls, k).storage, BalanceKey(j, a))
            + TotalBurned(State(map[], []), calls, k, j, a) == TotalMinted(State(map[], []), calls, k, j, a)
    decreases k
  {
    hide Exec, Read128, BalanceKey, MintedTo, BurnedBy, Overflows;
    if k == 0 {
      ContractAdmin.NothingStored(BalanceKey(j, a));
    } else {
      RunBalance(calls, k - 1, j, a);
      var d := After(State(map[], []), calls, k - 1);
      forall i ensures Balanced(d.storage, i) { RunKeepsBooks(calls, k - 1, i); }
      CallChanges(d, calls[k - 1], j, a);
      NoCarry(d, calls[k - 1], j, a);
    }
  }

  /** A mint that keeps the supply within 128 bits keeps every balance within them. */
  lemma NoCarry(s: State, c: Call, j: Bytes, a: Bytes)
    requires !Overflows(s, c) && Balanced(s.storage, j) && |a| == 20
    ensures Read128(s.storage, BalanceKey(j, a)) + MintedTo(s, c, j, a) < U128
  {
    hide Read128, BalanceKey, SupplyKey, SumOf, MintParts;
    ShareWithinSum(s.storage, j, a);
  }

  // ---- Locks, validators and the pause ----

  lemma LockArgs(chain: Bytes, token: Bytes, recipient: Bytes, more: Bytes)
    requires |chain| < U32 && |token| < U32 && |recipient| < U32
    ensures var rest := Prefixed(recipient) + more; var args := Prefixed(chain) + Prefixed(token) + rest;
            && |args| >= 12 && ChainAndToken(args) == Some(Parsed(chain, token, rest))
            && Field(rest) == Some((recipient, more))
  {
    hide ChainAndToken, Field;
    ParseOfBuilt(chain, token, Prefixed(recipient) + more);
    FieldOfPrefixed(recipient, more);
  }

  /** A lock adds the attached amount less the fee to the total of its string, and to no other, exactly when
      the contract is not paused and something is attached. */
  lemma LockMoves(s: State, c: Call, chain: Bytes, token: Bytes, recipient: Bytes, more: Bytes, j: Bytes)
    requires |chain| < U32 && |token| < U32 && |recipient| < U32
    requires c.entry == BridgeLock(Prefixed(chain) + Prefixed(token) + (Prefixed(recipient) + more))
    ensures var (t, r) := (Exec(s, c).state, Exec(s, c).reply);
            && (r.Aborted? <==> ReadFlag(s.storage, PAUSED))
            && (r.Done? <==> !ReadFlag(s.storage, PAUSED) && c.balance > 0)
            && (!r.Done? ==> t == s)
    ensures Exec(s, c).reply.Done? ==>
              Read128(Exec(s, c).state.storage, LockedKey(j)) == Add128(Read128(s.storage, LockedKey(j)),
                if j == Joined(chain, token) then Net(s.storage, c.balance) else 0)
  {
    LockArgs(chain, token, recipient, more);
    ContractAdmin.LockCallAdds(s, c, j);
    hide LockedKey, Read128, Write128, ReadFlag, ChainAndToken, Field, Joined, Net, Prefixed;
  }

  /** The owner, and nobody else, adds a validator: its flag is set and no other flag changes. */
  lemma AddSets(s: State, c: Call, addr: Bytes, more: Bytes, a: Bytes)
    requires |addr| == 20 && |a| == 20 && c.entry == AddValidator(addr + more)
    ensures Exec(s, c).reply.Done? <==> c.caller == Owner(s.storage)
    ensures !Exec(s, c).reply.Done? ==> Exec(s, c) == Outcome(s, Aborted)
    ensures Exec(s, c).reply.Done? ==>
              ReadFlag(Exec(s, c).state.storage, ValidatorKey(a)) == (a == addr || ReadFlag(s.storage, ValidatorKey(a)))
  {
    assert (addr + more)[..20] == addr;
    FlagsApart(addr, a);
    hide ToLe, Read64, Owner, ValidatorKey;
  }

  /** The owner, and nobody else, removes one: its flag is cleared and no other flag changes. */
  lemma RemoveClears(s: State, c: Call, addr: Bytes, more: Bytes, a: Bytes)
    requires |addr| == 20 && |a| == 20 && c.entry == RemoveValidator(addr + more)
    ensures Exec(s, c).reply.Done? <==> c.caller == Owner(s.storage)
    ensures !Exec(s, c).reply.Done? ==> Exec(s, c) == Outcome(s, Aborted)
    ensures Exec(s, c).reply.Done? ==>
              ReadFlag(Exec(s, c).state.storage, ValidatorKey(a)) == (a != addr && ReadFlag(s.storage, ValidatorKey(a)))
  {
    assert (addr + more)[..20] == addr;
    FlagsApart(addr, a);
    hide ToLe, Read64, Owner, ValidatorKey;
  }

  lemma FlagsApart(addr: Bytes, a: Bytes)
    requires |addr| == 20 && |a| == 20
    ensures ValidatorKey(addr) == ValidatorKey(a) <==> addr == a
    ensures ValidatorKey(a) != VALIDATOR_COUNT && ValidatorKey(addr) != VALIDATOR_COUNT
  {
    assert ValidatorKey(addr)[10..] == addr && ValidatorKey(a)[10..] == a;
    assert |ValidatorKey(a)| == 30 && |VALIDATOR_COUNT| == 15;
  }

  /** The owner, and nobody else, pauses and resumes. */
  lemma PauseSets(s: State, c: Call)
    requires c.entry.Pause? || c.entry.Unpause?
    ensures Exec(s, c).reply.Done? <==> c.caller == Owner(s.storage)
    ensures !Exec(s, c).reply.Done? ==> Exec(s, c) == Outcome(s, Aborted)
    ensures Exec(s, c).reply.Done? ==> ReadFlag(Exec(s, c).state.storage, PAUSED) == c.entry.Pause?
  {
    hide Owner;
  }

  /** Arguments that are too short, or whose fields run past the end, change nothing. */
  lemma MalformedChangesNothing(s: State, c: Call)
    requires match c.entry
             case CreateHtlc(args) => |args| < 60
             case RefundHtlc(args) => |args| < 32
             case BridgeLock(args) => ChainAndToken(args).None? || Field(ChainAndToken(args).value.rest).None?
             case BridgeMint(args) => ChainAndToken(args).None? || |ChainAndToken(args).value.rest| < 36
             case BridgeBurn(args) => ChainAndToken(args).None? || |ChainAndToken(args).value.rest| < 16
             case AddValidator(args) => |args| < 20
             case RemoveValidator(args) => |args| < 20
             case _ => false
    ensures !Exec(s, c).reply.Done? && Exec(s, c).state == s
  {
    hide ReadFlag, Owner, Read64, Read128, ChainAndToken, Field, Joined, HtlcKey, ToLe, FromLe, Encode, Decode;
  }
}
