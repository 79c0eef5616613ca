/** The bridge contract (contracts/bridge/src/lib.rs) over raw byte keys and records: the entry
    points as functions of the contract's storage and its log of payouts. Storage and transfer are
    the native ones of contracts/sdk/src/lib.rs. */
module Contract {
  import opened Core
  import opened Bytes
  import Sha256

  type Storage = map<Bytes, Bytes>

  // ---- Keys ----

  const OWNER: Bytes := [111, 119, 110, 101, 114]
  const PAUSED: Bytes := [112, 97, 117, 115, 101, 100]
  const HTLC_COUNT: Bytes := [104, 116, 108, 99, 95, 99, 111, 117, 110, 116]
  const VALIDATOR_COUNT: Bytes := [118, 97, 108, 105, 100, 97, 116, 111, 114, 95, 99, 111, 117, 110, 116]
  const MIN_SIGNATURES: Bytes := [109, 105, 110, 95, 115, 105, 103, 110, 97, 116, 117, 114, 101, 115]
  const FEE_BPS: Bytes := [102, 101, 101, 95, 98, 112, 115]

  /** Prefixes `htlc:`, `locked:`, `wrapped:`, `wrapped_supply:` and `validator:`. */
  const HTLC: Bytes := [104, 116, 108, 99, 58]
  const LOCKED: Bytes := [108, 111, 99, 107, 101, 100, 58]
  const WRAPPED: Bytes := [119, 114, 97, 112, 112, 101, 100, 58]
  const SUPPLY: Bytes := [119, 114, 97, 112, 112, 101, 100, 95, 115, 117, 112, 112, 108, 121, 58]
  const VALIDATOR: Bytes := [118, 97, 108, 105, 100, 97, 116, 111, 114, 58]
  const COLON: Bytes := [58]

  function HexDigit(n: nat): byte
    requires n < 16
  {
    if n < 10 then (48 + n) as byte else (87 + n) as byte
  }

  function Hex(s: Bytes): (r: Bytes)
    ensures |r| == 2 * |s|
  {
    if s == [] then []
    else Hex(s[..|s| - 1]) + [HexDigit(s[|s| - 1] as nat / 16), HexDigit(s[|s| - 1] as nat % 16)]
  }

  function HtlcKey(lock: Bytes): Bytes { HTLC + Hex(lock) }

  /** The string `chain:token`. */
  function Joined(chain: Bytes, token: Bytes): Bytes { chain + COLON + token }

  function LockedKey(j: Bytes): Bytes { LOCKED + j }

  function BalanceKey(j: Bytes, addr: Bytes): Bytes { WRAPPED + j + COLON + addr }

  function SupplyKey(j: Bytes): Bytes { SUPPLY + j }

  function ValidatorKey(addr: Bytes): Bytes { VALIDATOR + addr }

  // ---- Numbers in storage ----

  /** A stored number of `width` bytes; anything else reads as zero. */
  function Number(v: Bytes, width: nat): nat { if |v| == width then FromLe(v) else 0 }

  function Read(m: Storage, k: Bytes, width: nat): nat { if k in m then Number(m[k], width) else 0 }

  function Read128(m: Storage, k: Bytes): u128 {
    WidthsAre();
    Read(m, k, 16)
  }

  function Read64(m: Storage, k: Bytes): u64 {
    WidthsAre();
    Read(m, k, 8)
  }

  function Write128(m: Storage, k: Bytes, n: u128): Storage { m[k := ToLe(n, 16)] }

  function Write64(m: Storage, k: Bytes, n: u64): Storage { m[k := ToLe(n, 8)] }

  function ReadFlag(m: Storage, k: Bytes): bool { k in m && m[k] != [] && m[k][0] != 0 }

  function WriteFlag(m: Storage, k: Bytes, b: bool): Storage { m[k := [if b then 1 else 0]] }

  function Owner(m: Storage): Bytes { if OWNER in m && |m[OWNER]| == 20 then m[OWNER] else ToLe(0, 20) }

  // ---- Swap records ----

  const ACTIVE: byte := 0
  const CLAIMED: byte := 1
  const REFUNDED: byte := 2

  datatype Htlc = Htlc(sender: Bytes, recipient: Bytes, amount: u128, timelock: u64, status: byte)

  predicate Sized(h: Htlc) { |h.sender| == 20 && |h.recipient| == 20 }

  /** [sender:20][recipient:20][amount:16][timelock:8][status:1] */
  function Encode(h: Htlc): Bytes {
    h.sender + h.recipient + ToLe(h.amount, 16) + ToLe(h.timelock, 8) + [h.status]
  }

  function Decode(d: Bytes): Option<Htlc> {
    if |d| < 65 then None
    else
      WidthsAre();
      Some(Htlc(d[0..20], d[20..40], FromLe(d[40..56]), FromLe(d[56..64]), d[64]))
  }

  // ---- Calls ----

  /** One attempt to pay out a record, and whether the balance covered it. */
  datatype Payout = Payout(key: Bytes, to: Bytes, amount: u64, sent: bool)

  datatype State = State(storage: Storage, log: seq<Payout>)

  /** Return code 0, return code -1, or a panic, which leaves the state as it was. */
  datatype Reply = Done | Failed | Aborted

  datatype Entry =
    | Init | CreateHtlc(args: Bytes) | ClaimHtlc(args: Bytes) | RefundHtlc(args: Bytes)
    | BridgeLock(args: Bytes) | BridgeMint(args: Bytes) | BridgeBurn(args: Bytes)
    | AddValidator(args: Bytes) | RemoveValidator(args: Bytes) | Pause | Unpause

  /** What the host supplies: the caller, the block time and the contract's balance. */
  datatype Raw = Raw(entry: Entry, caller: Bytes, now: u64, balance: u64)

  type Call = c: Raw | |c.caller| == 20 witness Raw(Init, ToLe(0, 20), 0, 0)

  datatype Outcome = Outcome(state: State, reply: Reply)

  function DoInit(s: State, c: Call): Outcome {
    var m := WriteFlag(s.storage[OWNER := c.caller], PAUSED, false);
    var m1 := Write64(Write64(m, HTLC_COUNT, 0), VALIDATOR_COUNT, 0);
    Outcome(s.(storage := Write64(Write64(m1, MIN_SIGNATURES, 2), FEE_BPS, 10)), Done)
  }

  /** The record that `[hash_lock:32][recipient:20][timelock:8]` asks for. */
  function NewHtlc(c: Call, args: Bytes): Htlc
    requires |args| >= 60
  {
    WidthsAre();
    Htlc(c.caller, args[32..52], c.balance, FromLe(args[52..60]), ACTIVE)
  }

  function DoCreate(s: State, c: Call, args: Bytes): Outcome {
    if ReadFlag(s.storage, PAUSED) then Outcome(s, Aborted)
    else if |args| < 60 || c.balance == 0 || HtlcKey(args[..32]) in s.storage then Outcome(s, Failed)
    else
      var m := s.storage[HtlcKey(args[..32]) := Encode(NewHtlc(c, args))];
      Outcome(s.(storage := Write64(m, HTLC_COUNT, (Read64(m, HTLC_COUNT) + 1) % U64)), Done)
  }

  /** Pays the record out and marks it. */
  function Settle(s: State, key: Bytes, h: Htlc, to: Bytes, balance: u64, status: byte): State {
    var amount := h.amount % U64;
    State(s.storage[key := Encode(h.(status := status))], s.log + [Payout(key, to, amount, balance >= amount)])
  }

  function DoClaim(s: State, c: Call, args: Bytes): Outcome {
    var key := HtlcKey(Sha256.Digest(args));
    if |args| < 1 || key !in s.storage || Decode(s.storage[key]).None? then Outcome(s, Failed)
    else
      var h := Decode(s.storage[key]).value;
      if h.status != ACTIVE || c.caller != h.recipient || c.now >= h.timelock then Outcome(s, Failed)
      else Outcome(Settle(s, key, h, h.recipient, c.balance, CLAIMED), Done)
  }

  function DoRefund(s: State, c: Call, args: Bytes): Outcome {
    if |args| < 32 then Outcome(s, Failed)
    else
      var key := HtlcKey(args[..32]);
      if key !in s.storage || Decode(s.storage[key]).None? then Outcome(s, Failed)
      else
        var h := Decode(s.storage[key]).value;
        if h.status != ACTIVE || c.caller != h.sender || c.now < h.timelock then Outcome(s, Failed)
        else Outcome(Settle(s, key, h, h.sender, c.balance, REFUNDED), Done)
  }

  /** A length-prefixed field at the front, and the rest; `None` when the slice is out of range. */
  function Field(args: Bytes): (r: Option<(Bytes, Bytes)>) {
    if |args| < 4 then None
    else
      var n := FromLe(args[..4]);
      if |args| < 4 + n then None else Some((args[4..4 + n], args[4 + n..]))
  }

  datatype Parsed = Parsed(chain: Bytes, token: Bytes, rest: Bytes)

  function ChainAndToken(args: Bytes): Option<Parsed> {
    var chain := Field(args);
    if chain.None? then None
    else
      var token := Field(chain.value.1);
      if token.None? then None else Some(Parsed(chain.value.0, token.value.0, token.value.1))
  }

  /** The fee of a lock, and what is left of the amount; the source subtracts in 128 bits. */
  function Fee(m: Storage, amount: u64): nat { amount * Read64(m, FEE_BPS) / 10000 }

  function Net(m: Storage, amount: u64): u128 { Sub128(amount, Fee(m, amount) % U128) }

  function DoLock(s: State, c: Call, args: Bytes): Outcome {
    if ReadFlag(s.storage, PAUSED) then Outcome(s, Aborted)
    else
      var p := ChainAndToken(args);
      if |args| < 12 || p.None? || Field(p.value.rest).None? || c.balance == 0 then Outcome(s, Failed)
      else
        var key := LockedKey(Joined(p.value.chain, p.value.token));
        var total := Add128(Read128(s.storage, key), Net(s.storage, c.balance));
        Outcome(s.(storage := Write128(s.storage, key, total)), Done)
  }

  function Minted(m: Storage, j: Bytes, to: Bytes, amount: u128): Storage {
    var credited := Write128(m, BalanceKey(j, to), Add128(Read128(m, BalanceKey(j, to)), amount));
    Write128(credited, SupplyKey(j), Add128(Read128(credited, SupplyKey(j)), amount))
  }

  function Burned(m: Storage, j: Bytes, from: Bytes, amount: u128): Storage
    requires amount <= Read128(m, BalanceKey(j, from))
  {
    var debited := Write128(m, BalanceKey(j, from), Read128(m, BalanceKey(j, from)) - amount);
    Write128(debited, SupplyKey(j), SatSub(Read128(debited, SupplyKey(j)), amount))
  }

  function DoMint(s: State, c: Call, args: Bytes): Outcome {
    if c.caller != Owner(s.storage) || ReadFlag(s.storage, PAUSED) then Outcome(s, Aborted)
    else if |args| < 44 then Outcome(s, Failed)
    else
      var p := ChainAndToken(args);
      if p.None? || |p.value.rest| < 36 then Outcome(s, Aborted)
      else
        WidthsAre();
        Outcome(s.(storage := Minted(s.storage, Joined(p.value.chain, p.value.token),
                                     p.value.rest[..20], FromLe(p.value.rest[20..36]))), Done)
  }

  function DoBurn(s: State, c: Call, args: Bytes): Outcome {
    if ReadFlag(s.storage, PAUSED) then Outcome(s, Aborted)
    else if |args| < 28 then Outcome(s, Failed)
    else
      var p := ChainAndToken(args);
      if p.None? || |p.value.rest| < 16 then Outcome(s, Aborted)
      else
        WidthsAre();
        var j, amount := Joined(p.value.chain, p.value.token), FromLe(p.value.rest[..16]);
        if Read128(s.storage, BalanceKey(j, c.caller)) < amount then Outcome(s, Failed)
        else Outcome(s.(storage := Burned(s.storage, j, c.caller, amount)), Done)
  }

  function DoAddValidator(s: State, c: Call, args: Bytes): Outcome {
    if c.caller != Owner(s.storage) then Outcome(s, Aborted)
    else if |args| < 20 then Outcome(s, Failed)
    else
      var m := WriteFlag(s.storage, ValidatorKey(args[..20]), true);
      Outcome(s.(storage := Write64(m, VALIDATOR_COUNT, (Read64(m, VALIDATOR_COUNT) + 1) % U64)), Done)
  }

  function DoRemoveValidator(s: State, c: Call, args: Bytes): Outcome {
    if c.caller != Owner(s.storage) then Outcome(s, Aborted)
    else if |args| < 20 then Outcome(s, Failed)
    else
      var m := WriteFlag(s.storage, ValidatorKey(args[..20]), false);
      var n := Read64(m, VALIDATOR_COUNT);
      Outcome(s.(storage := if n > 0 then Write64(m, VALIDATOR_COUNT, n - 1) else m), Done)
  }

  function DoPause(s: State, c: Call, paused: bool): Outcome {
    if c.caller != Owner(s.storage) then Outcome(s, Aborted)
    else Outcome(s.(storage := WriteFlag(s.storage, PAUSED, paused)), Done)
  }

  function Exec(s: State, c: Call): Outcome {
    match c.entry
    case Init => DoInit(s, c)
    case CreateHtlc(args) => DoCreate(s, c, args)
    case ClaimHtlc(args) => DoClaim(s, c, args)
    case RefundHtlc(args) => DoRefund(s, c, args)
    case BridgeLock(args) => DoLock(s, c, args)
    case BridgeMint(args) => DoMint(s, c, args)
    case BridgeBurn(args) => DoBurn(s, c, args)
    case AddValidator(args) => DoAddValidator(s, c, args)
    case RemoveValidator(args) => DoRemoveValidator(s, c, args)
    case Pause => DoPause(s, c, true)
    case Unpause => DoPause(s, c, false)
  }

  /** The state after the first `k` calls of a run. */
  function After(s: State, calls: seq<Call>, k: nat): State
    requires k <= |calls|
  {
    if k == 0 then s else Exec(After(s, calls, k - 1), calls[k - 1]).state
  }
}
