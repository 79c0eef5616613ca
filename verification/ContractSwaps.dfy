/** Swap records of the bridge contract over every run of calls: each is created once, settled at
    most once and paid out at most once, and only its status byte ever changes. */
module ContractSwaps {
  import opened Core
  import opened Bytes
  import opened Contract
  import opened ContractKeys
  import Sha256

  // ---- Keys and records as bytes ----

  lemma HexDigitInjective(a: nat, b: nat)
    requires a < 16 && b < 16 && HexDigit(a) == HexDigit(b)
    ensures a == b
  {
  }

  lemma HexByteInjective(a: byte, b: byte)
    requires HexDigit(a as nat / 16) == HexDigit(b as nat / 16)
    requires HexDigit(a as nat % 16) == HexDigit(b as nat % 16)
    ensures a == b
  {
    hide HexDigit;
    HexDigitInjective(a as nat / 16, b as nat / 16);
    HexDigitInjective(a as nat % 16, b as nat % 16);
  }

  lemma HexParts(s: Bytes, n: nat)
    requires |s| == n + 1
    ensures Hex(s)[..2 * n] == Hex(s[..n])
    ensures Hex(s)[2 * n] == HexDigit(s[n] as nat / 16) && Hex(s)[2 * n + 1] == HexDigit(s[n] as nat % 16)
  {
    hide HexDigit;
  }

  lemma {:induction false} HexInjective(a: Bytes, b: Bytes)
    requires Hex(a) == Hex(b)
    ensures a == b
  {
    hide *;
    if a != [] {
      var n := |a| - 1;
      HexParts(a, n);
      HexParts(b, n);
      HexInjective(a[..n], b[..n]);
      HexByteInjective(a[n], b[n]);
      assert a == a[..n] + [a[n]] && b == b[..n] + [b[n]];
    }
  }

  /** Different hash locks have different records. */
  lemma KeysBindLocks(a: Bytes, b: Bytes)
    requires HtlcKey(a) == HtlcKey(b)
    ensures a == b
  {
    hide Hex;
    assert HtlcKey(a)[5..] == Hex(a) && HtlcKey(b)[5..] == Hex(b);
    HexInjective(a, b);
  }

  lemma EncodedParts(h: Htlc)
    requires Sized(h)
    ensures var d := Encode(h);
            && |d| == 65 && d[0..20] == h.sender && d[20..40] == h.recipient
            && d[40..56] == ToLe(h.amount, 16) && d[56..64] == ToLe(h.timelock, 8) && d[64] == h.status
  {
    hide ToLe;
  }

  lemma DecodeEncode(h: Htlc)
    requires Sized(h)
    ensures Decode(Encode(h)) == Some(h)
  {
    hide Encode, ToLe, FromLe;
    EncodedParts(h);
    WidthsAre();
    LeRoundTrip(h.amount, 16);
    LeRoundTrip(h.timelock, 8);
  }

  /** A record of exactly 65 bytes re-encodes to itself. */
  lemma EncodeDecode(d: Bytes)
    requires |d| == 65
    ensures Sized(Decode(d).value) && Encode(Decode(d).value) == d
  {
    hide ToLe, FromLe;
    LeRoundTripBack(d[40..56]);
    LeRoundTripBack(d[56..64]);
    assert d == d[0..20] + d[20..40] + d[40..56] + d[56..64] + [d[64]];
  }

  // ---- The invariant ----

  /** A stored record: exact size, an amount that fits 64 bits, a known status. */
  predicate Sound(d: Bytes) {
    |d| == 65 && Decode(d).value.amount < U64 && Decode(d).value.status <= REFUNDED
  }

  /** The payouts attempted for one record. */
  function PayoutsFor(log: seq<Payout>, k: Bytes): seq<Payout> {
    if log == [] then []
    else PayoutsFor(log[..|log| - 1], k) + (if log[|log| - 1].key == k then [log[|log| - 1]] else [])
  }

  lemma PayoutsForAppend(log: seq<Payout>, p: Payout, k: Bytes)
    ensures PayoutsFor(log + [p], k) == PayoutsFor(log, k) + (if p.key == k then [p] else [])
  {
    assert (log + [p])[..|log|] == log;
  }

  /** The one payout a settled record has had, up to whether the balance covered it. */
  predicate PaidAs(ps: seq<Payout>, k: Bytes, h: Htlc) {
    if h.status == ACTIVE then ps == []
    else |ps| == 1 && ps[0].key == k && ps[0].amount == h.amount
         && ps[0].to == if h.status == CLAIMED then h.recipient else h.sender
  }

  predicate SwapOk(s: State, k: Bytes) {
    if k in s.storage then Sound(s.storage[k]) && PaidAs(PayoutsFor(s.log, k), k, Decode(s.storage[k]).value)
    else PayoutsFor(s.log, k) == []
  }

  /** Every record is sound, and paid out exactly once if settled and not at all otherwise. */
  ghost predicate SwapsOk(s: State) { forall k :: IsSwapKey(k) ==> SwapOk(s, k) }

  // ---- One call ----

  /** What a call may do to a record: nothing, create it, claim it or refund it. */
  predicate Created(s: State, c: Call, k: Bytes, d: Bytes) {
    && c.entry.CreateHtlc? && |c.entry.args| >= 60 && k == HtlcKey(c.entry.args[..32]) && k !in s.storage
    && |d| == 65 && var h := Decode(d).value;
    && h.sender == c.caller && h.recipient == c.entry.args[32..52] && h.amount == c.balance > 0
    && h.timelock == FromLe(c.entry.args[52..60]) && h.status == ACTIVE
  }

  predicate ClaimedBy(c: Call, k: Bytes, h: Htlc) {
    && c.entry.ClaimHtlc? && |c.entry.args| >= 1 && k == HtlcKey(Sha256.Digest(c.entry.args))
    && c.caller == h.recipient && c.now < h.timelock && h.status == ACTIVE
  }

  predicate RefundedBy(c: Call, k: Bytes, h: Htlc) {
    && c.entry.RefundHtlc? && |c.entry.args| >= 32 && k == HtlcKey(c.entry.args[..32])
    && c.caller == h.sender && c.now >= h.timelock && h.status == ACTIVE
  }

  /** What happens to the record `k`; the new state is `t`. */
  predicate Moved(s: State, c: Call, t: State, k: Bytes) {
    if k !in s.storage then
      (k !in t.storage || Created(s, c, k, t.storage[k])) && PayoutsFor(t.log, k) == PayoutsFor(s.log, k)
    else
      k in t.storage &&
      ((t.storage[k] == s.storage[k] && PayoutsFor(t.log, k) == PayoutsFor(s.log, k)) ||
       (Decode(s.storage[k]).Some? && var h := Decode(s.storage[k]).value;
        || (ClaimedBy(c, k, h) && t.storage[k] == Encode(h.(status := CLAIMED)) && Paid(s, t, c, k, h, h.recipient))
        || (RefundedBy(c, k, h) && t.storage[k] == Encode(h.(status := REFUNDED)) && Paid(s, t, c, k, h, h.sender))))
  }

  predicate Paid(s: State, t: State, c: Call, k: Bytes, h: Htlc, to: Bytes) {
    PayoutsFor(t.log, k) == PayoutsFor(s.log, k) + [Payout(k, to, h.amount % U64, c.balance >= h.amount % U64)]
  }

  lemma SettleMoves(s: State, c: Call, key: Bytes, h: Htlc, to: Bytes, status: byte, k: Bytes)
    ensures var t := Settle(s, key, h, to, c.balance, status);
            if k == key then k in t.storage && t.storage[k] == Encode(h.(status := status)) && Paid(s, t, c, k, h, to)
            else (k in s.storage <==> k in t.storage) && (k in s.storage ==> t.storage[k] == s.storage[k])
                 && PayoutsFor(t.log, k) == PayoutsFor(s.log, k)
  {
    hide Encode, PayoutsFor;
    var amount := h.amount % U64;
    PayoutsForAppend(s.log, Payout(key, to, amount, c.balance >= amount), k);
  }

  lemma ClaimMoves(s: State, c: Call, args: Bytes, k: Bytes)
    requires c.entry == ClaimHtlc(args)
    ensures Moved(s, c, DoClaim(s, c, args).state, k)
  {
    hide Encode, PayoutsFor, Decode, Settle, HtlcKey, Sha256.Digest;
    var key := HtlcKey(Sha256.Digest(args));
    if DoClaim(s, c, args).reply.Done? {
      var h := Decode(s.storage[key]).value;
      SettleMoves(s, c, key, h, h.recipient, CLAIMED, k);
    }
  }

  lemma RefundMoves(s: State, c: Call, args: Bytes, k: Bytes)
    requires c.entry == RefundHtlc(args)
    ensures Moved(s, c, DoRefund(s, c, args).state, k)
  {
    hide Encode, PayoutsFor, Decode, Settle, HtlcKey;
    if DoRefund(s, c, args).reply.Done? {
      var key := HtlcKey(args[..32]);
      var h := Decode(s.storage[key]).value;
      SettleMoves(s, c, key, h, h.sender, REFUNDED, k);
    }
  }

  lemma CreateMoves(s: State, c: Call, args: Bytes, k: Bytes)
    requires c.entry == CreateHtlc(args) && IsSwapKey(k)
    ensures Moved(s, c, DoCreate(s, c, args).state, k)
  {
    hide Encode, PayoutsFor, Decode, HtlcKey, FromLe, ToLe, IsSwapKey, ReadFlag, Read64,
         IsSetting, IsLockedKey, IsTokenKey, IsValidatorKey;
    SettingsAre();
    KeysApart(HTLC_COUNT);
    if |args| >= 60 {
      EncodedParts(NewHtlc(c, args));
      DecodeEncode(NewHtlc(c, args));
    }
  }

  /** The record `k` and the log are the same in both states. */
  predicate Untouched(s: State, t: State, k: Bytes) {
    t.log == s.log && (k in s.storage <==> k in t.storage) && (k in s.storage ==> t.storage[k] == s.storage[k])
  }

  lemma OtherCallsDoNotMove(s: State, c: Call, k: Bytes)
    requires !c.entry.CreateHtlc? && !c.entry.ClaimHtlc? && !c.entry.RefundHtlc? && IsSwapKey(k)
    ensures Untouched(s, Exec(s, c).state, k)
  {
    hide Exec, IsSetting, IsSwapKey, IsLockedKey, IsTokenKey, IsValidatorKey;
    KeysApart(k);
    SettingsAre();
    ExecFrame(s, c, k);
    LogKept(s, c);
  }

  /** Every call leaves a record alone, creates it, claims it in time with the preimage of its lock,
      or refunds it once it has expired. */
  lemma ExecMoves(s: State, c: Call, k: Bytes)
    requires IsSwapKey(k)
    ensures Moved(s, c, Exec(s, c).state, k)
  {
    hide *;
    ExecIs(s, c);
    match c.entry
    case CreateHtlc(args) => CreateMoves(s, c, args, k);
    case ClaimHtlc(args) => ClaimMoves(s, c, args, k);
    case RefundHtlc(args) => RefundMoves(s, c, args, k);
    case _ => OtherCallsDoNotMove(s, c, k); UntouchedMoves(s, c, k);
  }

  lemma UntouchedMoves(s: State, c: Call, k: Bytes)
    requires Untouched(s, Exec(s, c).state, k)
    ensures Moved(s, c, Exec(s, c).state, k)
  {
    hide Exec, Created, ClaimedBy, RefundedBy, Paid, Decode, Encode, PayoutsFor;
  }

  lemma ExecIs(s: State, c: Call)
    ensures c.entry.CreateHtlc? ==> Exec(s, c) == DoCreate(s, c, c.entry.args)
    ensures c.entry.ClaimHtlc? ==> Exec(s, c) == DoClaim(s, c, c.entry.args)
    ensures c.entry.RefundHtlc? ==> Exec(s, c) == DoRefund(s, c, c.entry.args)
  {
    hide DoCreate, DoClaim, DoRefund;
  }

  /** A freshly encoded record is sound. */
  lemma EncodedSound(h: Htlc)
    requires Sized(h) && h.amount < U64 && h.status <= REFUNDED
    ensures Sound(Encode(h)) && Decode(Encode(h)) == Some(h)
  {
    hide Encode, Decode;
    EncodedParts(h);
    DecodeEncode(h);
  }

  lemma MovedKeepsOk(s: State, c: Call, t: State, k: Bytes)
    requires SwapOk(s, k) && Moved(s, c, t, k)
    ensures SwapOk(t, k)
  {
    hide Encode, Decode, PayoutsFor, FromLe, HtlcKey, Sha256.Digest;
    if k in s.storage && PayoutsFor(t.log, k) != PayoutsFor(s.log, k) {
      var h := Decode(s.storage[k]).value;
      EncodeDecode(s.storage[k]);
      var status := if ClaimedBy(c, k, h) then CLAIMED else REFUNDED;
      EncodedSound(h.(status := status));
    }
  }

  // ---- Runs ----

  lemma {:induction false} RunKeepsSwapsOk(s: State, calls: seq<Call>, k: nat)
    requires k <= |calls| && SwapsOk(s)
    ensures SwapsOk(After(s, calls, k))
  {
    hide Exec, SwapOk, Moved, IsSwapKey;
    if k > 0 {
      RunKeepsSwapsOk(s, calls, k - 1);
      var d := After(s, calls, k - 1);
      forall key | IsSwapKey(key) ensures SwapOk(After(s, calls, k), key) {
        ExecMoves(d, calls[k - 1], key);
        MovedKeepsOk(d, calls[k - 1], Exec(d, calls[k - 1]).state, key);
      }
    }
  }

  lemma FreshIsOk()
    ensures SwapsOk(State(map[], []))
  {
  }

  /** Later states keep every record, its parties, amount and deadline, and its outcome. */
  predicate Kept(a: State, b: State, k: Bytes)
    requires k in a.storage && k in b.storage && Sound(a.storage[k]) && Sound(b.storage[k])
  {
    var g, h := Decode(a.storage[k]).value, Decode(b.storage[k]).value;
    h == g.(status := h.status) && (g.status != ACTIVE ==> h.status == g.status)
  }

  lemma {:induction false} RecordsAreKept(s: State, calls: seq<Call>, i: nat, j: nat, k: Bytes)
    requires i <= j <= |calls| && SwapsOk(s) && IsSwapKey(k) && k in After(s, calls, i).storage
    ensures SwapsOk(After(s, calls, i)) && SwapsOk(After(s, calls, j))
    ensures k in After(s, calls, j).storage && Kept(After(s, calls, i), After(s, calls, j), k)
    decreases j
  {
    hide *;
    RunKeepsSwapsOk(s, calls, i);
    RunKeepsSwapsOk(s, calls, j);
    SoundOf(After(s, calls, i), k);
    if i < j {
      RecordsAreKept(s, calls, i, j - 1, k);
      var d := After(s, calls, j - 1);
      RunKeepsSwapsOk(s, calls, j - 1);
      SoundOf(d, k);
      ExecMoves(d, calls[j - 1], k);
      AfterStep(s, calls, j);
      MovedKeeps(After(s, calls, i), d, calls[j - 1], After(s, calls, j), k);
    } else {
      KeptSelf(After(s, calls, i), k);
    }
  }

  lemma AfterStep(s: State, calls: seq<Call>, j: nat)
    requires 0 < j <= |calls|
    ensures After(s, calls, j) == Exec(After(s, calls, j - 1), calls[j - 1]).state
  {
    hide Exec;
  }

  lemma SoundOf(s: State, k: Bytes)
    requires SwapsOk(s) && IsSwapKey(k)
    ensures k in s.storage ==> Sound(s.storage[k])
  {
    hide Sound, PaidAs, PayoutsFor, IsSwapKey;
    assert SwapOk(s, k);
  }

  lemma KeptSelf(a: State, k: Bytes)
    requires k in a.storage && Sound(a.storage[k])
    ensures Kept(a, a, k)
  {
    hide Decode;
  }

  lemma MovedKeeps(a: State, s: State, c: Call, t: State, k: Bytes)
    requires k in a.storage && k in s.storage && Sound(a.storage[k]) && Sound(s.storage[k]) && Kept(a, s, k)
    requires Moved(s, c, t, k)
    ensures k in t.storage && Sound(t.storage[k]) && Kept(a, t, k)
  {
    hide Encode, Decode, PayoutsFor, HtlcKey, Sha256.Digest;
    if t.storage[k] != s.storage[k] {
      var h := Decode(s.storage[k]).value;
      EncodeDecode(s.storage[k]);
      var status := if ClaimedBy(c, k, h) then CLAIMED else REFUNDED;
      EncodedSound(h.(status := status));
    }
  }

  /** A hash lock is used at most once: after its record exists, every creation with it fails. */
  lemma LockUsedOnce(s: State, calls: seq<Call>, i: nat, j: nat)
    requires i <= j < |calls| && SwapsOk(s) && calls[j].entry.CreateHtlc? && |calls[j].entry.args| >= 60
    requires HtlcKey(calls[j].entry.args[..32]) in After(s, calls, i).storage
    ensures !Exec(After(s, calls, j), calls[j]).reply.Done?
  {
    hide After, SwapsOk, HtlcKey, IsSwapKey, Kept, Encode, ReadFlag, Sound;
    SwapKeysAre(calls[j].entry.args[..32]);
    RecordsAreKept(s, calls, i, j, HtlcKey(calls[j].entry.args[..32]));
  }

  /** From a fresh contract, no record is ever paid out twice. */
  lemma PaidAtMostOnce(calls: seq<Call>, k: nat, lock: Bytes)
    requires k <= |calls|
    ensures |PayoutsFor(After(State(map[], []), calls, k).log, HtlcKey(lock))| <= 1
  {
    hide After, HtlcKey, Sound, PayoutsFor, IsSwapKey;
    FreshIsOk();
    RunKeepsSwapsOk(State(map[], []), calls, k);
    SwapKeysAre(lock);
    assert SwapOk(After(State(map[], []), calls, k), HtlcKey(lock));
  }
}
