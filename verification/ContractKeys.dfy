/** The classes of the contract's storage keys, kept apart by their prefixes, and which of them each
    call may write. */
module ContractKeys {
  import opened Core
  import opened Bytes
  import opened Contract
  import Sha256

  function Ascii(s: string): (r: Bytes)
    requires forall i :: 0 <= i < |s| ==> s[i] as int < 128
    ensures |r| == |s|
  {
    seq(|s|, i requires 0 <= i < |s| => s[i] as int as byte)
  }

  /** The keys as the contract's documentation spells them. */
  lemma KeysSpelled(chain: Bytes, token: Bytes, addr: Bytes, lock: Bytes)
    ensures OWNER == Ascii("owner") && PAUSED == Ascii("paused") && HTLC_COUNT == Ascii("htlc_count")
    ensures VALIDATOR_COUNT == Ascii("validator_count") && MIN_SIGNATURES == Ascii("min_signatures")
    ensures FEE_BPS == Ascii("fee_bps") && HtlcKey(lock) == Ascii("htlc:") + Hex(lock)
    ensures LockedKey(Joined(chain, token)) == Ascii("locked:") + chain + Ascii(":") + token
    ensures SupplyKey(Joined(chain, token)) == Ascii("wrapped_supply:") + chain + Ascii(":") + token
    ensures BalanceKey(Joined(chain, token), addr)
         == Ascii("wrapped:") + chain + Ascii(":") + token + Ascii(":") + addr
    ensures ValidatorKey(addr) == Ascii("validator:") + addr
  {
    hide Hex;
    Prefixes();
    hide Ascii;
    assert LOCKED + (chain + COLON + token) == LOCKED + chain + COLON + token;
    assert SUPPLY + (chain + COLON + token) == SUPPLY + chain + COLON + token;
    assert WRAPPED + (chain + COLON + token) + COLON + addr == WRAPPED + chain + COLON + token + COLON + addr;
  }

  lemma Prefixes()
    ensures OWNER == Ascii("owner") && PAUSED == Ascii("paused") && HTLC_COUNT == Ascii("htlc_count")
    ensures VALIDATOR_COUNT == Ascii("validator_count") && MIN_SIGNATURES == Ascii("min_signatures")
    ensures FEE_BPS == Ascii("fee_bps") && HTLC == Ascii("htlc:") && LOCKED == Ascii("locked:")
    ensures WRAPPED == Ascii("wrapped:") && SUPPLY == Ascii("wrapped_supply:") && VALIDATOR == Ascii("validator:")
    ensures COLON == Ascii(":")
  {
  }

  predicate IsSwapKey(k: Bytes) { |k| >= 5 && k[..5] == HTLC }

  predicate IsTokenKey(k: Bytes) { |k| >= 8 && (k[..8] == WRAPPED || k[..8] == SUPPLY[..8]) }

  predicate IsLockedKey(k: Bytes) { |k| >= 7 && k[..7] == LOCKED }

  predicate IsValidatorKey(k: Bytes) { |k| >= 10 && k[..10] == VALIDATOR }

  predicate IsSetting(k: Bytes) {
    k == OWNER || k == PAUSED || k == HTLC_COUNT || k == VALIDATOR_COUNT || k == MIN_SIGNATURES || k == FEE_BPS
  }

  predicate Writes(c: Call, k: Bytes) {
    match c.entry
    case Init => IsSetting(k)
    case CreateHtlc(_) => IsSwapKey(k) || k == HTLC_COUNT
    case ClaimHtlc(_) => IsSwapKey(k)
    case RefundHtlc(_) => IsSwapKey(k)
    case BridgeLock(_) => IsLockedKey(k)
    case BridgeMint(_) => IsTokenKey(k)
    case BridgeBurn(_) => IsTokenKey(k)
    case AddValidator(_) => IsValidatorKey(k) || k == VALIDATOR_COUNT
    case RemoveValidator(_) => IsValidatorKey(k) || k == VALIDATOR_COUNT
    case Pause => k == PAUSED
    case Unpause => k == PAUSED
  }

  predicate Same(m: Storage, t: Storage, k: Bytes) {
    (k in m <==> k in t) && (k in m ==> t[k] == m[k])
  }

  lemma SwapKeysAre(lock: Bytes)
    ensures IsSwapKey(HtlcKey(lock))
  {
    hide Hex;
  }

  lemma BalanceAndSupplyKeys(j: Bytes, addr: Bytes)
    ensures IsTokenKey(BalanceKey(j, addr)) && IsTokenKey(SupplyKey(j))
  {
    assert SupplyKey(j)[..8] == SUPPLY[..8] && BalanceKey(j, addr)[..8] == WRAPPED;
  }

  lemma LockedKeysAre(j: Bytes)
    ensures IsLockedKey(LockedKey(j))
  {
  }

  lemma ValidatorKeysAre(addr: Bytes)
    ensures IsValidatorKey(ValidatorKey(addr))
  {
  }

  lemma SwapFrame(s: State, c: Call, k: Bytes)
    requires (c.entry.CreateHtlc? || c.entry.ClaimHtlc? || c.entry.RefundHtlc?) && !Writes(c, k)
    ensures Same(s.storage, Exec(s, c).state.storage, k)
  {
    hide IsSwapKey, HtlcKey, Sha256.Digest, Encode, Decode, ToLe, FromLe, Read64, ReadFlag;
    match c.entry
    case CreateHtlc(args) => if |args| >= 60 { SwapKeysAre(args[..32]); }
    case ClaimHtlc(args) => SwapKeysAre(Sha256.Digest(args));
    case RefundHtlc(args) => if |args| >= 32 { SwapKeysAre(args[..32]); }
  }

  lemma TokenFrame(s: State, c: Call, k: Bytes)
    requires (c.entry.BridgeLock? || c.entry.BridgeMint? || c.entry.BridgeBurn?) && !Writes(c, k)
    ensures Same(s.storage, Exec(s, c).state.storage, k)
  {
    hide IsTokenKey, IsLockedKey, ToLe, FromLe, Read, Read64, Read128, ReadFlag, ChainAndToken, Joined, Field,
         LockedKey, SupplyKey, BalanceKey, Owner;
    if ChainAndToken(c.entry.args).Some? {
      var p := ChainAndToken(c.entry.args).value;
      var j := Joined(p.chain, p.token);
      LockedKeysAre(j);
      BalanceAndSupplyKeys(j, if |p.rest| >= 20 then p.rest[..20] else []);
      BalanceAndSupplyKeys(j, c.caller);
    }
  }

  lemma AdminFrame(s: State, c: Call, k: Bytes)
    requires c.entry.Init? || c.entry.Pause? || c.entry.Unpause? || c.entry.AddValidator? || c.entry.RemoveValidator?
    requires !Writes(c, k)
    ensures Same(s.storage, Exec(s, c).state.storage, k)
  {
    hide IsValidatorKey, ToLe, FromLe, Read, Read64, ReadFlag, ValidatorKey, Owner;
    if (c.entry.AddValidator? || c.entry.RemoveValidator?) && |c.entry.args| >= 20 {
      ValidatorKeysAre(c.entry.args[..20]);
    }
  }

  /** Every call leaves all other keys alone. */
  lemma ExecFrame(s: State, c: Call, k: Bytes)
    requires !Writes(c, k)
    ensures Same(s.storage, Exec(s, c).state.storage, k)
  {
    hide Exec, Writes, Same;
    match c.entry
    case CreateHtlc(_) => SwapFrame(s, c, k);
    case ClaimHtlc(_) => SwapFrame(s, c, k);
    case RefundHtlc(_) => SwapFrame(s, c, k);
    case BridgeLock(_) => TokenFrame(s, c, k);
    case BridgeMint(_) => TokenFrame(s, c, k);
    case BridgeBurn(_) => TokenFrame(s, c, k);
    case _ => AdminFrame(s, c, k);
  }

  /** The prefixes keep the classes of keys apart, by their first bytes. */
  lemma KeysApart(k: Bytes)
    ensures IsSetting(k) ==> !IsSwapKey(k) && !IsLockedKey(k) && !IsTokenKey(k) && !IsValidatorKey(k)
    ensures IsSwapKey(k) ==> !IsLockedKey(k) && !IsTokenKey(k) && !IsValidatorKey(k)
    ensures IsLockedKey(k) ==> !IsTokenKey(k) && !IsValidatorKey(k)
    ensures IsTokenKey(k) ==> !IsValidatorKey(k)
  {
    assert HTLC[0] == 104 && LOCKED[0] == 108 && WRAPPED[0] == 119 && SUPPLY[..8][0] == 119 && VALIDATOR[0] == 118;
    assert IsSwapKey(k) ==> k[..5][0] == k[0] && k[..5][4] == 58;
    assert IsLockedKey(k) ==> k[..7][0] == k[0];
    assert IsTokenKey(k) ==> k[..8][0] == k[0];
    assert IsValidatorKey(k) ==> k[..10][0] == k[0] && k[..10][9] == 58;
    assert HTLC_COUNT[4] == 95 && VALIDATOR_COUNT[9] == 95;
  }

  lemma SettingsAre()
    ensures IsSetting(OWNER) && IsSetting(PAUSED) && IsSetting(HTLC_COUNT)
    ensures IsSetting(VALIDATOR_COUNT) && IsSetting(FEE_BPS)
    ensures OWNER != PAUSED && OWNER != HTLC_COUNT && OWNER != VALIDATOR_COUNT && OWNER != FEE_BPS
    ensures PAUSED != HTLC_COUNT && PAUSED != VALIDATOR_COUNT && PAUSED != FEE_BPS
    ensures HTLC_COUNT != VALIDATOR_COUNT && HTLC_COUNT != FEE_BPS && VALIDATOR_COUNT != FEE_BPS
  {
    assert |OWNER| == 5 && |PAUSED| == 6 && |HTLC_COUNT| == 10 && |VALIDATOR_COUNT| == 15 && |FEE_BPS| == 7;
  }

  /** A setting is written by `init`, and otherwise only by the calls that are about it. */
  lemma SettingWriters(c: Call, k: Bytes)
    requires IsSetting(k) && Writes(c, k)
    ensures || c.entry.Init?
            || (k == HTLC_COUNT && c.entry.CreateHtlc?)
            || (k == VALIDATOR_COUNT && (c.entry.AddValidator? || c.entry.RemoveValidator?))
            || (k == PAUSED && (c.entry.Pause? || c.entry.Unpause?))
  {
    hide IsSetting, IsSwapKey, IsLockedKey, IsTokenKey, IsValidatorKey;
    KeysApart(k);
  }

  lemma Stored64(m: Storage, k: Bytes, n: u64)
    ensures Read64(Write64(m, k, n), k) == n
  {
    hide ToLe, FromLe;
    WidthsAre();
    LeRoundTrip(n, 8);
  }

  lemma Stored128(m: Storage, k: Bytes, n: u128)
    ensures Read128(Write128(m, k, n), k) == n
  {
    hide ToLe, FromLe;
    WidthsAre();
    LeRoundTrip(n, 16);
  }

  lemma SameNumber(m: Storage, t: Storage, k: Bytes)
    requires Same(m, t, k)
    ensures Read128(t, k) == Read128(m, k) && Read64(t, k) == Read64(m, k) && ReadFlag(t, k) == ReadFlag(m, k)
  {
    hide FromLe;
  }

  /** Only claims and refunds attempt a payout. */
  lemma LogKept(s: State, c: Call)
    requires !c.entry.ClaimHtlc? && !c.entry.RefundHtlc?
    ensures Exec(s, c).state.log == s.log
  {
    hide ReadFlag, Owner, Read64, Read128, Joined, ChainAndToken, Field, Encode, HtlcKey, ToLe, FromLe;
  }
}
