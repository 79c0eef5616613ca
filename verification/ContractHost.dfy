/** The bridge contract's entry points as the source runs them: buffers grown piece by piece, storage
    read and written in place. Each is proved to do what its function in `Contract` says. */
module ContractHost {
  import opened Core
  import opened Bytes
  import opened Contract
  import opened ContractArgs
  import Sha256

  method HexEncode(bytes: Bytes) returns (out: Bytes)
    ensures out == Hex(bytes)
  {
    hide HexDigit;
    out := [];
    for i := 0 to |bytes|
      invariant out == Hex(bytes[..i])
    {
      assert bytes[..i + 1][..i] == bytes[..i];
      out := out + [HexDigit(bytes[i] as nat / 16)];
      out := out + [HexDigit(bytes[i] as nat % 16)];
    }
    assert bytes[..|bytes|] == bytes;
  }

  method MakeHtlcKey(lock: Bytes) returns (key: Bytes)
    ensures key == HtlcKey(lock)
  {
    hide Hex;
    key := HTLC;
    var hex := HexEncode(lock);
    key := key + hex;
  }

  method MakeBalanceKey(chain: Bytes, token: Bytes, addr: Bytes) returns (key: Bytes)
    ensures key == BalanceKey(Joined(chain, token), addr)
  {
    key := WRAPPED;
    key := key + chain;
    key := key + COLON;
    key := key + token;
    key := key + COLON;
    key := key + addr;
    assert key == WRAPPED + (chain + COLON + token) + COLON + addr;
  }

  method MakeSupplyKey(chain: Bytes, token: Bytes) returns (key: Bytes)
    ensures key == SupplyKey(Joined(chain, token))
  {
    key := SUPPLY;
    key := key + chain;
    key := key + COLON;
    key := key + token;
    assert key == SUPPLY + (chain + COLON + token);
  }

  method MakeLockedKey(chain: Bytes, token: Bytes) returns (key: Bytes)
    ensures key == LockedKey(Joined(chain, token))
  {
    key := LOCKED;
    key := key + chain;
    key := key + COLON;
    key := key + token;
    assert key == LOCKED + (chain + COLON + token);
  }

  // ---- Records and arguments ----

  method EncodeHtlc(sender: Bytes, recipient: Bytes, amount: u128, timelock: u64, status: byte) returns (data: Bytes)
    ensures data == Encode(Htlc(sender, recipient, amount, timelock, status))
  {
    hide ToLe;
    data := [];
    data := data + sender;
    data := data + recipient;
    data := data + ToLe(amount, 16);
    data := data + ToLe(timelock, 8);
    data := data + [status];
  }

  method DecodeHtlc(data: Bytes) returns (r: Option<Htlc>)
    ensures r == Decode(data)
  {
    hide FromLe;
    if |data| < 65 { return None; }
    WidthsAre();
    var sender := data[0..20];
    var recipient := data[20..40];
    var amount := FromLe(data[40..56]);
    var timelock := FromLe(data[56..64]);
    return Some(Htlc(sender, recipient, amount, timelock, data[64]));
  }

  /** The chain, the token and the offset behind them; `None` where a slice is out of range. */
  method ParseHeader(args: Bytes) returns (r: Option<(Bytes, Bytes, nat)>)
    ensures r.Some? <==> HeaderFits(args)
    ensures r.Some? ==> r.value.2 <= |args| &&
                        ChainAndToken(args) == Some(Parsed(r.value.0, r.value.1, args[r.value.2..]))
    ensures r.None? ==> ChainAndToken(args).None?
  {
    HeaderIs(args);
    hide FromLe, ChainAndToken;
    if |args| < 4 { return None; }
    var chainLen := FromLe(args[0..4]);
    if |args| < 4 + chainLen { return None; }
    var chain := args[4..4 + chainLen];
    var offset := 4 + chainLen;
    if |args| < offset + 4 { return None; }
    var tokenLen := FromLe(args[offset..offset + 4]);
    if |args| < offset + 4 + tokenLen { return None; }
    var token := args[offset + 4..offset + 4 + tokenLen];
    return Some((chain, token, offset + 4 + tokenLen));
  }

  /** The chain and the token of a lock, whose lengths are checked before every slice. */
  method ParseLock(args: Bytes) returns (r: Option<(Bytes, Bytes)>)
    requires |args| >= 12
    ensures r.Some? <==> ChainAndToken(args).Some? && Field(ChainAndToken(args).value.rest).Some?
    ensures r.Some? ==> r.value == (ChainAndToken(args).value.chain, ChainAndToken(args).value.token)
  {
    HeaderIs(args);
    hide FromLe, ChainAndToken, Field;
    var chainLen := FromLe(args[0..4]);
    if |args| < 4 + chainLen + 4 { return None; }
    var chain := args[4..4 + chainLen];
    var offset := 4 + chainLen;
    var tokenLen := FromLe(args[offset..offset + 4]);
    if |args| >= offset + 4 + tokenLen { FieldIs(args, offset + 4 + tokenLen); }
    if |args| < offset + 4 + tokenLen + 4 { return None; }
    var token := args[offset + 4..offset + 4 + tokenLen];
    var offset2 := offset + 4 + tokenLen;
    var recipLen := FromLe(args[offset2..offset2 + 4]);
    if |args| < offset2 + 4 + recipLen { return None; }
    return Some((chain, token));
  }

  class BridgeContract {
    var storage: Storage
    var log: seq<Payout>

    ghost function View(): State
      reads this
    {
      State(storage, log)
    }

    constructor ()
      ensures View() == State(map[], [])
    {
      storage, log := map[], [];
    }

    method Init(c: Call) returns (r: Reply)
      modifies this`storage
      ensures Outcome(View(), r) == DoInit(old(View()), c)
    {
      hide ToLe;
      storage := storage[OWNER := c.caller];
      storage := WriteFlag(storage, PAUSED, false);
      storage := Write64(storage, HTLC_COUNT, 0);
      storage := Write64(storage, VALIDATOR_COUNT, 0);
      storage := Write64(storage, MIN_SIGNATURES, 2);
      storage := Write64(storage, FEE_BPS, 10);
      r := Done;
    }

    method CreateHtlc(c: Call, args: Bytes) returns (r: Reply)
      modifies this`storage
      ensures Outcome(View(), r) == DoCreate(old(View()), c, args)
    {
      hide HtlcKey, Encode, ToLe, FromLe, Read64, ReadFlag;
      if ReadFlag(storage, PAUSED) { return Aborted; }
      if |args| < 60 { return Failed; }
      if c.balance == 0 { return Failed; }
      var key := MakeHtlcKey(args[..32]);
      if key in storage { return Failed; }
      WidthsAre();
      var recipient := args[32..52];
      var timelock := FromLe(args[52..60]);
      var data := EncodeHtlc(c.caller, recipient, c.balance, timelock, ACTIVE);
      storage := storage[key := data];
      var count := Read64(storage, HTLC_COUNT);
      storage := Write64(storage, HTLC_COUNT, (count + 1) % U64);
      r := Done;
    }

    /** `sdk::transfer`: one attempt, logged, its answer ignored by the callers. */
    method Pay(key: Bytes, to: Bytes, amount: u64, balance: u64)
      modifies this`log
      ensures log == old(log) + [Payout(key, to, amount, balance >= amount)]
    {
      log := log + [Payout(key, to, amount, balance >= amount)];
    }

    method ClaimHtlc(c: Call, args: Bytes) returns (r: Reply)
      modifies this
      ensures Outcome(View(), r) == DoClaim(old(View()), c, args)
    {
      hide HtlcKey, Encode, Decode, Sha256.Digest;
      if |args| < 1 { return Failed; }
      var hash := Sha256.SimpleSha256(args);
      var key := MakeHtlcKey(hash);
      if key !in storage { return Failed; }
      var decoded := DecodeHtlc(storage[key]);
      if decoded.None? { return Failed; }
      var h := decoded.value;
      if h.status != ACTIVE { return Failed; }
      if c.caller != h.recipient { return Failed; }
      if c.now >= h.timelock { return Failed; }
      Pay(key, h.recipient, h.amount % U64, c.balance);
      var updated := EncodeHtlc(h.sender, h.recipient, h.amount, h.timelock, CLAIMED);
      storage := storage[key := updated];
      r := Done;
    }

    method RefundHtlc(c: Call, args: Bytes) returns (r: Reply)
      modifies this
      ensures Outcome(View(), r) == DoRefund(old(View()), c, args)
    {
      hide HtlcKey, Encode, Decode;
      if |args| < 32 { return Failed; }
      var key := MakeHtlcKey(args[..32]);
      if key !in storage { return Failed; }
      var decoded := DecodeHtlc(storage[key]);
      if decoded.None? { return Failed; }
      var h := decoded.value;
      if h.status != ACTIVE { return Failed; }
      if c.caller != h.sender { return Failed; }
      if c.now < h.timelock { return Failed; }
      Pay(key, h.sender, h.amount % U64, c.balance);
      var updated := EncodeHtlc(h.sender, h.recipient, h.amount, h.timelock, REFUNDED);
      storage := storage[key := updated];
      r := Done;
    }

    method BridgeMint(c: Call, args: Bytes) returns (r: Reply)
      modifies this`storage
      ensures Outcome(View(), r) == DoMint(old(View()), c, args)
    {
      hide BalanceKey, SupplyKey, Joined, ToLe, FromLe, ReadFlag, Owner, ChainAndToken, Read128, HeaderFits;
      if c.caller != Owner(storage) { return Aborted; }
      if ReadFlag(storage, PAUSED) { return Aborted; }
      if |args| < 44 { return Failed; }
      var parsed := ParseHeader(args);
      if parsed.None? { return Aborted; }
      var (chain, token, offset) := parsed.value;
      if |args| < offset + 20 { return Aborted; }
      var recipient := args[offset..offset + 20];
      if |args| < offset + 36 { return Aborted; }
      WidthsAre();
      var amount := FromLe(args[offset + 20..offset + 36]);
      assert args[offset..][..20] == recipient && args[offset..][20..36] == args[offset + 20..offset + 36];
      var bk := MakeBalanceKey(chain, token, recipient);
      var current := Read128(storage, bk);
      storage := Write128(storage, bk, Add128(current, amount));
      var sk := MakeSupplyKey(chain, token);
      var supply := Read128(storage, sk);
      storage := Write128(storage, sk, Add128(supply, amount));
      r := Done;
    }

    method BridgeBurn(c: Call, args: Bytes) returns (r: Reply)
      modifies this`storage
      ensures Outcome(View(), r) == DoBurn(old(View()), c, args)
    {
      hide BalanceKey, SupplyKey, Joined, ToLe, FromLe, ReadFlag, ChainAndToken, Read128, HeaderFits;
      if ReadFlag(storage, PAUSED) { return Aborted; }
      if |args| < 28 { return Failed; }
      var parsed := ParseHeader(args);
      if parsed.None? { return Aborted; }
      var (chain, token, offset) := parsed.value;
      if |args| < offset + 16 { return Aborted; }
      WidthsAre();
      var amount := FromLe(args[offset..offset + 16]);
      assert args[offset..][..16] == args[offset..offset + 16];
      var bk := MakeBalanceKey(chain, token, c.caller);
      var balance := Read128(storage, bk);
      if balance < amount { return Failed; }
      storage := Write128(storage, bk, balance - amount);
      var sk := MakeSupplyKey(chain, token);
      var supply := Read128(storage, sk);
      storage := Write128(storage, sk, SatSub(supply, amount));
      r := Done;
    }

    method BridgeLock(c: Call, args: Bytes) returns (r: Reply)
      modifies this`storage
      ensures Outcome(View(), r) == DoLock(old(View()), c, args)
    {
      hide LockedKey, Joined, ToLe, FromLe, ReadFlag, Field, ChainAndToken, Read64, Read128;
      if ReadFlag(storage, PAUSED) { return Aborted; }
      if |args| < 12 { return Failed; }
      var parsed := ParseLock(args);
      if parsed.None? { return Failed; }
      if c.balance == 0 { return Failed; }
      var fee := c.balance * Read64(storage, FEE_BPS) / 10000;
      var net := Sub128(c.balance, fee % U128);
      var key := MakeLockedKey(parsed.value.0, parsed.value.1);
      storage := Write128(storage, key, Add128(Read128(storage, key), net));
      r := Done;
    }

    method AddValidator(c: Call, args: Bytes) returns (r: Reply)
      modifies this`storage
      ensures Outcome(View(), r) == DoAddValidator(old(View()), c, args)
    {
      hide ValidatorKey, ToLe, Read64, Owner;
      if c.caller != Owner(storage) { return Aborted; }
      if |args| < 20 { return Failed; }
      storage := WriteFlag(storage, ValidatorKey(args[..20]), true);
      var count := Read64(storage, VALIDATOR_COUNT);
      storage := Write64(storage, VALIDATOR_COUNT, (count + 1) % U64);
      r := Done;
    }

    method RemoveValidator(c: Call, args: Bytes) returns (r: Reply)
      modifies this`storage
      ensures Outcome(View(), r) == DoRemoveValidator(old(View()), c, args)
    {
      hide ValidatorKey, ToLe, Read64, Owner;
      if c.caller != Owner(storage) { return Aborted; }
      if |args| < 20 { return Failed; }
      storage := WriteFlag(storage, ValidatorKey(args[..20]), false);
      var count := Read64(storage, VALIDATOR_COUNT);
      if count > 0 {
        storage := Write64(storage, VALIDATOR_COUNT, count - 1);
      }
      r := Done;
    }

    /** `pause` and `unpause`. */
    method SetPaused(c: Call, paused: bool) returns (r: Reply)
      modifies this`storage
      ensures Outcome(View(), r) == DoPause(old(View()), c, paused)
    {
      hide Owner;
      if c.caller != Owner(storage) { return Aborted; }
      storage := WriteFlag(storage, PAUSED, paused);
      r := Done;
    }
  }
}
