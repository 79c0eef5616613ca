/** The off-chain swap manager (crates/bridge/src/htlc.rs): swaps by id with two indexes, the clock
    as an input of every operation. */
module Swaps {
  import opened Core
  import opened Bytes
  import Contract
  import Sha256

  datatype Status = Active | Claimed | Refunded | Expired

  datatype Swap = Swap(
    id: Bytes, lock: Bytes, preimage: Option<Bytes>, sender: Address, recipient: Address, amount: u128,
    timelock: u64, status: Status, createdAt: u64, settledAt: Option<u64>)

  datatype Error =
    | AlreadyExists | InvalidAmount | TimelockInPast | NotFound | AlreadyClaimed | AlreadyRefunded
    | Unauthorized | HtlcExpired | NotExpired | InvalidPreimage

  type Book = map<Bytes, Swap>
  type Index = map<Address, seq<Bytes>>

  datatype Manager = Manager(swaps: Book, bySender: Index, byRecipient: Index, defaultTimelock: u64)

  datatype Op =
    | Create(sender: Address, recipient: Address, amount: u128, lock: Bytes, timelock: Option<u64>)
    | Claim(id: Bytes, preimage: Bytes, claimer: Address)
    | Refund(id: Bytes, refunder: Address)
    | Expire

  datatype Timed = Timed(op: Op, now: u64)

  type Reply = Result<Swap, Error>

  datatype Outcome = Outcome(manager: Manager, reply: Reply)

  /** Appends to the index list of an address. */
  function Push(index: Index, a: Address, id: Bytes): Index {
    index[a := (if a in index then index[a] else []) + [id]]
  }

  function Deadline(m: Manager, now: u64, timelock: Option<u64>): u64 {
    timelock.GetOr((now + m.defaultTimelock) % U64)
  }

  function DoCreate(m: Manager, o: Op, now: u64): Outcome
    requires o.Create?
  {
    var id, deadline := Contract.Hex(o.lock), Deadline(m, now, o.timelock);
    if id in m.swaps then Outcome(m, Err(AlreadyExists))
    else if o.amount == 0 then Outcome(m, Err(InvalidAmount))
    else if deadline <= now then Outcome(m, Err(TimelockInPast))
    else
      var swap := Swap(id, o.lock, None, o.sender, o.recipient, o.amount, deadline, Active, now, None);
      Outcome(m.(swaps := m.swaps[id := swap], bySender := Push(m.bySender, o.sender, id),
                 byRecipient := Push(m.byRecipient, o.recipient, id)), Ok(swap))
  }

  function DoClaim(m: Manager, id: Bytes, preimage: Bytes, claimer: Address, now: u64): Outcome {
    if id !in m.swaps then Outcome(m, Err(NotFound))
    else
      var s := m.swaps[id];
      if s.status.Claimed? then Outcome(m, Err(AlreadyClaimed))
      else if s.status.Refunded? then Outcome(m, Err(AlreadyRefunded))
      else if claimer != s.recipient then Outcome(m, Err(Unauthorized))
      else if now >= s.timelock then Outcome(m.(swaps := m.swaps[id := s.(status := Expired)]), Err(HtlcExpired))
      else if Sha256.Digest(preimage) != s.lock then Outcome(m, Err(InvalidPreimage))
      else
        var t := s.(preimage := Some(preimage), status := Claimed, settledAt := Some(now));
        Outcome(m.(swaps := m.swaps[id := t]), Ok(t))
  }

  function DoRefund(m: Manager, id: Bytes, refunder: Address, now: u64): Outcome {
    if id !in m.swaps then Outcome(m, Err(NotFound))
    else
      var s := m.swaps[id];
      if s.status.Claimed? then Outcome(m, Err(AlreadyClaimed))
      else if s.status.Refunded? then Outcome(m, Err(AlreadyRefunded))
      else if refunder != s.sender then Outcome(m, Err(Unauthorized))
      else if now < s.timelock then Outcome(m, Err(NotExpired))
      else
        var t := s.(status := Refunded, settledAt := Some(now));
        Outcome(m.(swaps := m.swaps[id := t]), Ok(t))
  }

  predicate Stale(s: Swap, now: u64) { s.status.Active? && now >= s.timelock }

  function Aged(s: Swap, now: u64): Swap { if Stale(s, now) then s.(status := Expired) else s }

  function DoExpire(m: Manager, now: u64): Manager {
    m.(swaps := map id | id in m.swaps :: Aged(m.swaps[id], now))
  }

  /** The manager after an operation; the maintenance pass answers nothing that a run looks at. */
  function Next(m: Manager, t: Timed): Manager {
    match t.op
    case Create(_, _, _, _, _) => DoCreate(m, t.op, t.now).manager
    case Claim(id, preimage, claimer) => DoClaim(m, id, preimage, claimer, t.now).manager
    case Refund(id, refunder) => DoRefund(m, id, refunder, t.now).manager
    case Expire => DoExpire(m, t.now)
  }

  function Answer(m: Manager, t: Timed): Reply
    requires !t.op.Expire?
  {
    match t.op
    case Create(_, _, _, _, _) => DoCreate(m, t.op, t.now).reply
    case Claim(id, preimage, claimer) => DoClaim(m, id, preimage, claimer, t.now).reply
    case Refund(id, refunder) => DoRefund(m, id, refunder, t.now).reply
  }

  // ---- The maintenance pass is invisible ----

  /** The answers of a run, maintenance passes left out. */
  function Answers(m: Manager, run: seq<Timed>): seq<Reply>
    decreases |run|
  {
    if run == [] then []
    else (if run[0].op.Expire? then [] else [Answer(m, run[0])]) + Answers(Next(m, run[0]), run[1..])
  }

  function Erase(run: seq<Timed>): seq<Timed> {
    if run == [] then [] else (if run[0].op.Expire? then [] else [run[0]]) + Erase(run[1..])
  }

  /** The same swap, except that one copy may be marked expired while the other is active. */
  predicate SameButExpired(a: Swap, b: Swap) { a == b || (b.status.Active? && a == b.(status := Expired)) }

  ghost predicate Similar(m: Manager, n: Manager) {
    && m.swaps.Keys == n.swaps.Keys
    && (forall id :: id in m.swaps ==> SameButExpired(m.swaps[id], n.swaps[id]))
    && m.bySender == n.bySender && m.byRecipient == n.byRecipient && m.defaultTimelock == n.defaultTimelock
  }

  lemma SimilarAt(m: Manager, n: Manager, id: Bytes)
    requires Similar(m, n)
    ensures id in m.swaps <==> id in n.swaps
    ensures id in m.swaps ==> SameButExpired(m.swaps[id], n.swaps[id])
  {
  }

  lemma PutSimilar(m: Manager, n: Manager, id: Bytes, s: Swap)
    requires Similar(m, n)
    ensures Similar(m.(swaps := m.swaps[id := s]), n.(swaps := n.swaps[id := s]))
  {
  }

  lemma ExpireSimilar(m: Manager, n: Manager, now: u64)
    requires Similar(m, n)
    ensures Similar(DoExpire(m, now), n)
  {
  }

  lemma CreateSimilar(m: Manager, n: Manager, o: Op, now: u64)
    requires o.Create? && Similar(m, n)
    ensures DoCreate(m, o, now).reply == DoCreate(n, o, now).reply
    ensures Similar(DoCreate(m, o, now).manager, DoCreate(n, o, now).manager)
  {
    hide Contract.Hex, Push;
  }

  lemma ClaimSimilar(m: Manager, n: Manager, id: Bytes, preimage: Bytes, claimer: Address, now: u64)
    requires Similar(m, n)
    ensures DoClaim(m, id, preimage, claimer, now).reply == DoClaim(n, id, preimage, claimer, now).reply
    ensures Similar(DoClaim(m, id, preimage, claimer, now).manager, DoClaim(n, id, preimage, claimer, now).manager)
  {
    hide Sha256.Digest, Similar;
    SimilarAt(m, n, id);
    if id in m.swaps {
      var s := m.swaps[id];
      PutSimilar(m, n, id, s.(status := Expired));
      PutSimilar(m, n, id, s.(preimage := Some(preimage), status := Claimed, settledAt := Some(now)));
    }
  }

  lemma RefundSimilar(m: Manager, n: Manager, id: Bytes, refunder: Address, now: u64)
    requires Similar(m, n)
    ensures DoRefund(m, id, refunder, now).reply == DoRefund(n, id, refunder, now).reply
    ensures Similar(DoRefund(m, id, refunder, now).manager, DoRefund(n, id, refunder, now).manager)
  {
    hide Similar;
    SimilarAt(m, n, id);
    if id in m.swaps {
      PutSimilar(m, n, id, m.swaps[id].(status := Refunded, settledAt := Some(now)));
    }
  }

  lemma StepSimilar(m: Manager, n: Manager, t: Timed)
    requires Similar(m, n)
    ensures t.op.Expire? ==> Similar(Next(m, t), n)
    ensures !t.op.Expire? ==> Answer(m, t) == Answer(n, t) && Similar(Next(m, t), Next(n, t))
  {
    hide Similar, DoCreate, DoClaim, DoRefund, DoExpire;
    match t.op
    case Create(_, _, _, _, _) => CreateSimilar(m, n, t.op, t.now);
    case Claim(id, preimage, claimer) => ClaimSimilar(m, n, id, preimage, claimer, t.now);
    case Refund(id, refunder) => RefundSimilar(m, n, id, refunder, t.now);
    case Expire => ExpireSimilar(m, n, t.now);
  }

  lemma {:induction false} SimilarAnswers(m: Manager, n: Manager, run: seq<Timed>)
    requires Similar(m, n)
    ensures Answers(m, run) == Answers(n, Erase(run))
    decreases |run|
  {
    hide Similar, Next, Answer;
    if run != [] {
      var t := run[0];
      StepSimilar(m, n, t);
      if t.op.Expire? {
        SimilarAnswers(Next(m, t), n, run[1..]);
        assert Erase(run) == Erase(run[1..]);
      } else {
        SimilarAnswers(Next(m, t), Next(n, t), run[1..]);
        assert Erase(run)[0] == t && Erase(run)[1..] == Erase(run[1..]);
      }
    }
  }

  /** No answer of any run depends on its maintenance passes, whatever the clock does. */
  lemma ExpireIsInvisible(m: Manager, run: seq<Timed>)
    ensures Answers(m, run) == Answers(m, Erase(run))
  {
    SimilarAnswers(m, m, run);
  }

  // ---- A swap settles at most once ----

  function After(m: Manager, run: seq<Timed>, k: nat): Manager
    requires k <= |run|
  {
    if k == 0 then m else Next(After(m, run, k - 1), run[k - 1])
  }

  predicate Settled(m: Manager, id: Bytes) {
    id in m.swaps && (m.swaps[id].status.Claimed? || m.swaps[id].status.Refunded?)
  }

  /** The operation settles swap `id`: a claim or refund of it that succeeds. */
  predicate Settles(m: Manager, t: Timed, id: Bytes) {
    (t.op.Claim? || t.op.Refund?) && t.op.id == id && Answer(m, t).Ok?
  }

  function Settlements(m: Manager, run: seq<Timed>, k: nat, id: Bytes): nat
    requires k <= |run|
  {
    if k == 0 then 0
    else Settlements(m, run, k - 1, id) + (if Settles(After(m, run, k - 1), run[k - 1], id) then 1 else 0)
  }

  /** The new swap is the one asked for, over a positive amount and with a deadline to come. */
  predicate Opened(o: Op, now: u64, s: Swap)
    requires o.Create?
  {
    && s.id == Contract.Hex(o.lock) && s.lock == o.lock && s.preimage == None && s.status == Active
    && s.sender == o.sender && s.recipient == o.recipient && s.amount == o.amount > 0
    && s.timelock > now && (o.timelock.Some? ==> s.timelock == o.timelock.value)
    && s.createdAt == now && s.settledAt == None
  }

  /** A swap is opened exactly for an unused lock, a positive amount and a deadline to come, by default the
      configured time from now. */
  lemma CreateOpens(m: Manager, o: Op, now: u64)
    requires o.Create?
    ensures var (r, n) := (Answer(m, Timed(o, now)), Next(m, Timed(o, now)));
            var deadline := if o.timelock.Some? then o.timelock.value else (now + m.defaultTimelock) % U64;
            && (r.Ok? <==> Contract.Hex(o.lock) !in m.swaps && o.amount > 0 && deadline > now)
            && (r.Ok? ==> Opened(o, now, r.value) && r.value.timelock == deadline &&
                          n.swaps == m.swaps[Contract.Hex(o.lock) := r.value])
            && (r.Err? ==> n == m)
            && (r == Err(AlreadyExists) <==> Contract.Hex(o.lock) in m.swaps)
            && (r == Err(InvalidAmount) <==> Contract.Hex(o.lock) !in m.swaps && o.amount == 0)
  {
    hide Contract.Hex, Push;
  }

  /** A claim succeeds exactly by the recipient, in time and with the preimage, of a swap not settled; then the
      swap tells the preimage. A late claim by the recipient marks it expired; nothing else changes. */
  lemma ClaimSettles(m: Manager, id: Bytes, preimage: Bytes, claimer: Address, now: u64)
    requires id in m.swaps
    ensures var s, t := m.swaps[id], Timed(Claim(id, preimage, claimer), now); var (r, n) := (Answer(m, t), Next(m, t));
            && (r.Ok? <==> !Settled(m, id) && claimer == s.recipient && now < s.timelock &&
                           Sha256.Digest(preimage) == s.lock)
            && (r.Ok? ==> n == m.(swaps := m.swaps[id := r.value]) &&
                          r.value == s.(preimage := Some(preimage), status := Claimed, settledAt := Some(now)))
            && (r == Err(HtlcExpired) <==> !Settled(m, id) && claimer == s.recipient && now >= s.timelock)
            && (r == Err(HtlcExpired) ==> n == m.(swaps := m.swaps[id := s.(status := Expired)]))
            && (r.Err? && r != Err(HtlcExpired) ==> n == m)
            && (r == Err(AlreadyClaimed) <==> s.status == Claimed)
            && (r == Err(AlreadyRefunded) <==> s.status == Refunded)
            && (r == Err(Unauthorized) <==> !Settled(m, id) && claimer != s.recipient)
  {
    hide Sha256.Digest;
  }

  /** A refund succeeds exactly by the sender, from the deadline on, of a swap not settled. */
  lemma RefundSettles(m: Manager, id: Bytes, refunder: Address, now: u64)
    requires id in m.swaps
    ensures var s, t := m.swaps[id], Timed(Refund(id, refunder), now); var (r, n) := (Answer(m, t), Next(m, t));
            && (r.Ok? <==> !Settled(m, id) && refunder == s.sender && now >= s.timelock)
            && (r.Ok? ==> n == m.(swaps := m.swaps[id := r.value]) &&
                          r.value == s.(status := Refunded, settledAt := Some(now)))
            && (r.Err? ==> n == m)
            && (r == Err(AlreadyClaimed) <==> s.status == Claimed)
            && (r == Err(AlreadyRefunded) <==> s.status == Refunded)
            && (r == Err(Unauthorized) <==> !Settled(m, id) && refunder != s.sender)
            && (r == Err(NotExpired) <==> !Settled(m, id) && refunder == s.sender && now < s.timelock)
  {
  }

  /** Without the swap there is nothing to settle. */
  lemma UnknownIsRefused(m: Manager, t: Timed)
    requires (t.op.Claim? || t.op.Refund?) && t.op.id !in m.swaps
    ensures Answer(m, t) == Err(NotFound) && Next(m, t) == m
  {
    hide Sha256.Digest;
  }

  /** A maintenance pass marks exactly the active swaps past their deadline, and changes nothing else. */
  lemma ExpireMarks(m: Manager, now: u64, id: Bytes)
    requires id in m.swaps
    ensures var n, s := Next(m, Timed(Expire, now)), m.swaps[id];
            && n.swaps.Keys == m.swaps.Keys && n.bySender == m.bySender && n.byRecipient == m.byRecipient
            && n.swaps[id] == if s.status == Active && s.timelock <= now then s.(status := Expired) else s
  {
  }

  /** What one operation does to one swap. */
  predicate Moved(m: Manager, t: Timed, n: Manager, id: Bytes) {
    if id !in m.swaps then
      id !in n.swaps || (t.op.Create? && Contract.Hex(t.op.lock) == id && Opened(t.op, t.now, n.swaps[id]))
    else
      id in n.swaps && var a, b := m.swaps[id], n.swaps[id];
      || b == a
      || (Stale(a, t.now) && b == a.(status := Expired))
      || (Settles(m, t, id) && t.op.Claim? && !Settled(m, id) && t.op.claimer == a.recipient && t.now < a.timelock
          && Sha256.Digest(t.op.preimage) == a.lock
          && b == a.(preimage := Some(t.op.preimage), status := Claimed, settledAt := Some(t.now)))
      || (Settles(m, t, id) && t.op.Refund? && !Settled(m, id) && t.op.refunder == a.sender && t.now >= a.timelock
          && b == a.(status := Refunded, settledAt := Some(t.now)))
  }

  /** A claim is in time and with the preimage, a refund is after the deadline; nothing else settles. */
  lemma NextMoves(m: Manager, t: Timed, id: Bytes)
    ensures Moved(m, t, Next(m, t), id)
    ensures Settles(m, t, id) <==> !Settled(m, id) && Settled(Next(m, t), id)
    ensures Settled(m, id) ==> Next(m, t).swaps[id] == m.swaps[id]
  {
    hide Sha256.Digest, Contract.Hex, Push;
  }

  lemma {:induction false} SettlesOnce(m: Manager, run: seq<Timed>, k: nat, id: Bytes)
    requires k <= |run| && !Settled(m, id)
    ensures Settlements(m, run, k, id) == if Settled(After(m, run, k), id) then 1 else 0
  {
    hide Next, Answer, Settled, Settles, Moved;
    if k > 0 {
      SettlesOnce(m, run, k - 1, id);
      var d := After(m, run, k - 1);
      NextMoves(d, run[k - 1], id);
      if Settled(d, id) { SettledStays(d, run[k - 1], id); }
    }
  }

  lemma SettledStays(m: Manager, t: Timed, id: Bytes)
    requires Settled(m, id)
    ensures Settled(Next(m, t), id)
  {
    hide Sha256.Digest, Contract.Hex, Push;
    NextMoves(m, t, id);
  }

  // ---- The indexes ----

  function Listed(index: Index, a: Address): seq<Bytes> { if a in index then index[a] else [] }

  predicate NoRepeats(ids: seq<Bytes>) { forall i, j :: 0 <= i < j < |ids| ==> ids[i] != ids[j] }

  /** Each list holds exactly the ids of the swaps of its address, once each. */
  ghost predicate Indexed(m: Manager) {
    forall a, id :: Lists(m.swaps, m.bySender, true, a, id) && Lists(m.swaps, m.byRecipient, false, a, id)
  }

  predicate Lists(swaps: Book, index: Index, sent: bool, a: Address, id: Bytes) {
    && NoRepeats(Listed(index, a))
    && (id in Listed(index, a) <==> id in swaps && (if sent then swaps[id].sender else swaps[id].recipient) == a)
  }

  lemma PushLists(swaps: Book, index: Index, sent: bool, s: Swap, a: Address, id: Bytes)
    requires s.id !in swaps && Lists(swaps, index, sent, a, id)
    requires forall i :: Lists(swaps, index, sent, a, i)
    ensures Lists(swaps[s.id := s], Push(index, if sent then s.sender else s.recipient, s.id), sent, a, id)
  {
    var ids := Listed(index, a);
    assert Lists(swaps, index, sent, a, s.id);
    assert forall i :: i in ids + [s.id] <==> i in ids || i == s.id;
  }

  /** Parties and ids of swaps never change, and only a creation adds one. */
  lemma StepIndexed(m: Manager, t: Timed)
    requires Indexed(m)
    ensures Indexed(Next(m, t))
  {
    forall a, id ensures Lists(Next(m, t).swaps, Next(m, t).bySender, true, a, id)
                      && Lists(Next(m, t).swaps, Next(m, t).byRecipient, false, a, id) {
      StepLists(m, t, a, id);
    }
  }

  lemma StepLists(m: Manager, t: Timed, a: Address, id: Bytes)
    requires Indexed(m)
    ensures Lists(Next(m, t).swaps, Next(m, t).bySender, true, a, id)
    ensures Lists(Next(m, t).swaps, Next(m, t).byRecipient, false, a, id)
  {
    hide Sha256.Digest, Contract.Hex, Push, Listed, NoRepeats;
    assert Lists(m.swaps, m.bySender, true, a, id) && Lists(m.swaps, m.byRecipient, false, a, id);
    if t.op.Create? && DoCreate(m, t.op, t.now).reply.Ok? {
      var s := DoCreate(m, t.op, t.now).reply.value;
      forall i ensures Lists(m.swaps, m.bySender, true, a, i) && Lists(m.swaps, m.byRecipient, false, a, i) {}
      PushLists(m.swaps, m.bySender, true, s, a, id);
      PushLists(m.swaps, m.byRecipient, false, s, a, id);
    }
  }

  lemma {:induction false} RunIndexed(m: Manager, run: seq<Timed>, k: nat)
    requires k <= |run| && Indexed(m)
    ensures Indexed(After(m, run, k))
  {
    hide Indexed, Next;
    if k > 0 {
      RunIndexed(m, run, k - 1);
      StepIndexed(After(m, run, k - 1), run[k - 1]);
    }
  }

  // ---- The manager object ----

  class HtlcManager {
    var swaps: Book
    var bySender: Index
    var byRecipient: Index
    const defaultTimelock: u64

    ghost function View(): Manager
      reads this
    {
      Manager(swaps, bySender, byRecipient, defaultTimelock)
    }

    constructor (timelock: u64)
      ensures View() == Manager(map[], map[], map[], timelock) && Indexed(View())
    {
      swaps, bySender, byRecipient, defaultTimelock := map[], map[], map[], timelock;
    }

    method CreateSwap(o: Op, now: u64) returns (r: Reply)
      requires o.Create?
      modifies this
      ensures Outcome(View(), r) == DoCreate(old(View()), o, now)
    {
      hide Contract.Hex;
      var id := Contract.Hex(o.lock);
      if id in swaps { return Err(AlreadyExists); }
      if o.amount == 0 { return Err(InvalidAmount); }
      var deadline := o.timelock.GetOr((now + defaultTimelock) % U64);
      if deadline <= now { return Err(TimelockInPast); }
      var swap := Swap(id, o.lock, None, o.sender, o.recipient, o.amount, deadline, Active, now, None);
      swaps := swaps[id := swap];
      bySender := Push(bySender, o.sender, id);
      byRecipient := Push(byRecipient, o.recipient, id);
      return Ok(swap);
    }

    method ClaimSwap(id: Bytes, preimage: Bytes, claimer: Address, now: u64) returns (r: Reply)
      modifies this`swaps
      ensures Outcome(View(), r) == DoClaim(old(View()), id, preimage, claimer, now)
    {
      hide Sha256.Digest;
      if id !in swaps { return Err(NotFound); }
      var swap := swaps[id];
      if swap.status.Claimed? { return Err(AlreadyClaimed); }
      if swap.status.Refunded? { return Err(AlreadyRefunded); }
      if claimer != swap.recipient { return Err(Unauthorized); }
      if now >= swap.timelock {
        swaps := swaps[id := swap.(status := Expired)];
        return Err(HtlcExpired);
      }
      var hash := Sha256.SimpleSha256(preimage);
      if hash != swap.lock { return Err(InvalidPreimage); }
      swap := swap.(preimage := Some(preimage));
      swap := swap.(status := Claimed, settledAt := Some(now));
      swaps := swaps[id := swap];
      return Ok(swap);
    }

    method RefundSwap(id: Bytes, refunder: Address, now: u64) returns (r: Reply)
      modifies this`swaps
      ensures Outcome(View(), r) == DoRefund(old(View()), id, refunder, now)
    {
      if id !in swaps { return Err(NotFound); }
      var swap := swaps[id];
      if swap.status.Claimed? { return Err(AlreadyClaimed); }
      if swap.status.Refunded? { return Err(AlreadyRefunded); }
      if refunder != swap.sender { return Err(Unauthorized); }
      if now < swap.timelock { return Err(NotExpired); }
      swap := swap.(status := Refunded, settledAt := Some(now));
      swaps := swaps[id := swap];
      return Ok(swap);
    }

    /** Visits the swaps in any order; the count is the number that were stale. */
    method ExpireStaleSwaps(now: u64) returns (expired: nat)
      modifies this`swaps
      ensures View() == DoExpire(old(View()), now)
      ensures expired == |StaleIds(old(swaps), old(swaps).Keys, now)|
    {
      hide StaleIds, PartlyAged;
      expired := 0;
      ghost var before, done: set<Bytes> := swaps, {};
      var rest := swaps.Keys;
      NothingAged(before, now);
      while rest != {}
        invariant rest <= before.Keys && done == before.Keys - rest
        invariant swaps == PartlyAged(before, done, now) && swaps.Keys == before.Keys
        invariant expired == |StaleIds(before, done, now)|
        decreases rest
      {
        var id :| id in rest;
        AgeOne(before, done, id, now);
        if swaps[id].status.Active? && now >= swaps[id].timelock {
          swaps := swaps[id := swaps[id].(status := Expired)];
          expired := expired + 1;
        }
        rest, done := rest - {id}, done + {id};
      }
      AllAged(View(), before, now);
      assert done == before.Keys;
    }
  }

  function StaleIds(swaps: Book, ids: set<Bytes>, now: u64): set<Bytes> {
    set id | id in ids && id in swaps && Stale(swaps[id], now)
  }

  /** The swaps after the pass has visited `done`. */
  function PartlyAged(swaps: Book, done: set<Bytes>, now: u64): Book {
    map id | id in swaps :: if id in done then Aged(swaps[id], now) else swaps[id]
  }

  lemma NothingAged(swaps: Book, now: u64)
    ensures PartlyAged(swaps, {}, now) == swaps && StaleIds(swaps, {}, now) == {}
  {
  }

  lemma AllAged(m: Manager, swaps: Book, now: u64)
    ensures DoExpire(m.(swaps := swaps), now) == m.(swaps := PartlyAged(swaps, swaps.Keys, now))
  {
  }

  lemma AgeOne(swaps: Book, done: set<Bytes>, id: Bytes, now: u64)
    requires id in swaps && id !in done
    ensures var part := PartlyAged(swaps, done, now);
            && part.Keys == swaps.Keys && part[id] == swaps[id]
            && PartlyAged(swaps, done + {id}, now) == part[id := Aged(swaps[id], now)]
            && PartlyAged(swaps, done + {id}, now).Keys == swaps.Keys
            && (Aged(swaps[id], now) == swaps[id] ==> PartlyAged(swaps, done + {id}, now) == part)
    ensures |StaleIds(swaps, done + {id}, now)| == |StaleIds(swaps, done, now)| + if Stale(swaps[id], now) then 1 else 0
  {
    var counted := StaleIds(swaps, done, now);
    assert StaleIds(swaps, done + {id}, now) == if Stale(swaps[id], now) then counted + {id} else counted;
    var part := PartlyAged(swaps, done, now);
    assert part[id := swaps[id]] == part;
  }
}
