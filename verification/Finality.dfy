/** The finality engine (crates/consensus/src/finality.rs): votes by height, a running quorum check,
    clean-up at finalization, and what holds over whole runs. */
module Finality {
  import opened Core
  import opened Ledger
  import opened Quorum
  import Epochs

  /** A vote: the validator it names, the owner of the key it carries, and whether that key signed it. */
  datatype Vote = Vote(number: nat, hash: Hash, validator: Address, signer: Address, signed: bool)

  type Store = map<nat, seq<Vote>>

  datatype Engine = Engine(votes: Store, finalized: nat, vs: seq<Validator>)

  datatype Status = Pending(voted: nat, needed: nat) | Finalized

  datatype Error = InvalidSignature | UnknownVoter

  type Reply = Result<Status, Error>

  predicate IsVoter(vs: seq<Validator>, a: Address) { exists i :: 0 <= i < |vs| && Voting(vs[i]) && vs[i].address == a }

  /** The stakes behind a list of votes, added up as they came in. */
  function Tally(vs: seq<Validator>, votes: seq<Vote>): nat {
    if votes == [] then 0 else Tally(vs, votes[..|votes| - 1]) + StakeAt(vs, votes[|votes| - 1].validator)
  }

  function VotesAt(votes: Store, n: nat): seq<Vote> { if n in votes then votes[n] else [] }

  predicate Reached(vs: seq<Validator>, votes: seq<Vote>) { Tally(vs, votes) % U128 >= Threshold(vs) }

  function Above(votes: Store, n: nat): Store { map h | h in votes && h > n :: votes[h] }

  /** The quorum check after a vote was stored for height `n`. */
  function Checked(e: Engine, n: nat): (Engine, Status) {
    if Reached(e.vs, VotesAt(e.votes, n)) then
      (e.(votes := Above(e.votes, n), finalized := if n > e.finalized then n else e.finalized), Finalized)
    else (e, Pending(Tally(e.vs, VotesAt(e.votes, n)) % U128, Threshold(e.vs)))
  }

  function Stored(e: Engine, v: Vote): Engine {
    e.(votes := e.votes[v.number := VotesAt(e.votes, v.number) + [v]])
  }

  predicate Admitted(e: Engine, v: Vote) { v.signed && IsVoter(e.vs, v.validator) && v.number > e.finalized }

  function Voted(e: Engine, v: Vote): (Engine, Reply) {
    if !v.signed then (e, Err(InvalidSignature))
    else if !IsVoter(e.vs, v.validator) then (e, Err(UnknownVoter))
    else if v.number <= e.finalized then (e, Ok(Finalized))
    else var (d, s) := Checked(Stored(e, v), v.number); (d, Ok(s))
  }

  /** The owner of the key is not compared with the validator that the vote names: any owner gets the same answer. */
  lemma SignerIsNotCompared(e: Engine, v: Vote, other: Address)
    ensures Voted(e, v.(signer := other)).1 == Voted(e, v).1
  {
    hide Threshold, IsVoter, Tally;
    SameTally(e.vs, VotesAt(e.votes, v.number), v, v.(signer := other));
  }

  lemma SameTally(vs: seq<Validator>, list: seq<Vote>, v: Vote, w: Vote)
    requires v.validator == w.validator
    ensures Tally(vs, list + [w]) == Tally(vs, list + [v])
  {
    hide StakeAt;
    assert (list + [v])[..|list|] == list && (list + [w])[..|list|] == list;
  }

  // ---- The engine object ----

  class FinalityEngine {
    var votes: Store
    var finalizedHeight: nat
    var validators: seq<Validator>

    ghost function View(): Engine
      reads this
    {
      Engine(votes, finalizedHeight, validators)
    }

    constructor (vs: seq<Validator>)
      ensures View() == Engine(map[], 0, vs)
    {
      votes, finalizedHeight, validators := map[], 0, vs;
    }

    method AddVote(vote: Vote) returns (r: Reply)
      modifies this
      ensures (View(), r) == Voted(old(View()), vote)
    {
      hide Checked;
      if !vote.signed { return Err(InvalidSignature); }
      var known := IsValidator(vote.validator);
      if !known { return Err(UnknownVoter); }
      if vote.number <= finalizedHeight { return Ok(Finalized); }
      votes := votes[vote.number := VotesAt(votes, vote.number) + [vote]];
      var status := CheckQuorum(vote.number);
      return Ok(status);
    }

    method IsValidator(a: Address) returns (known: bool)
      ensures known <==> IsVoter(validators, a)
    {
      known := false;
      for i := 0 to |validators|
        invariant known <==> exists j :: 0 <= j < i && Voting(validators[j]) && validators[j].address == a
      {
        if Voting(validators[i]) && validators[i].address == a { known := true; }
      }
    }

    method CheckQuorum(n: nat) returns (status: Status)
      modifies this
      ensures (View(), status) == Checked(old(View()), n)
    {
      hide Threshold, StakeAt;
      var list := VotesAt(votes, n);
      var voted := 0;
      for i := 0 to |list|
        invariant voted == Tally(validators, list[..i])
      {
        assert list[..i + 1][..i] == list[..i];
        voted := voted + StakeAt(validators, list[i].validator);
      }
      assert list[..|list|] == list;
      voted := voted % U128;
      if voted < Threshold(validators) { return Pending(voted, Threshold(validators)); }
      if n > finalizedHeight { finalizedHeight := n; }
      RemoveThrough(n);
      return Finalized;
    }

    /** Removes the entries up to `n`, in any order. */
    method RemoveThrough(n: nat)
      modifies this`votes
      ensures votes == Above(old(votes), n)
    {
      ghost var before := votes;
      var stale := set h | h in votes && h <= n;
      while stale != {}
        invariant forall h :: h in votes <==> h in before && (h > n || h in stale)
        invariant forall h :: h in votes ==> votes[h] == before[h]
        decreases stale
      {
        var h :| h in stale;
        votes := votes - {h};
        stale := stale - {h};
      }
    }

    method UpdateValidatorSet(vs: seq<Validator>)
      modifies this`validators
      ensures View() == old(View()).(vs := vs)
    {
      validators := vs;
    }
  }

  // ---- Runs ----

  datatype Event = AddVote(vote: Vote) | SetValidators(vs: seq<Validator>)

  function Next(e: Engine, x: Event): Engine {
    match x
    case AddVote(v) => Voted(e, v).0
    case SetValidators(vs) => e.(vs := vs)
  }

  function After(e: Engine, run: seq<Event>, k: nat): Engine
    requires k <= |run|
  {
    if k == 0 then e else Next(After(e, run, k - 1), run[k - 1])
  }

  /** Stored lists are non-empty, filed under their height, and above the finalized height. */
  ghost predicate Filed(e: Engine) {
    && (forall n :: n in e.votes ==> n > e.finalized && e.votes[n] != [])
    && (forall n, i :: n in e.votes && 0 <= i < |e.votes[n]| ==> e.votes[n][i].number == n)
  }

  /** Every open height is below the quorum of the current set. */
  ghost predicate Open(e: Engine) { forall n :: n in e.votes ==> !Reached(e.vs, e.votes[n]) }

  lemma NextFiled(e: Engine, x: Event)
    requires Filed(e)
    ensures Filed(Next(e, x)) && Next(e, x).finalized >= e.finalized
  {
    hide Reached, IsVoter;
  }

  /** The finalized height never falls and no vote is kept at or below it. */
  lemma {:induction false} RunFiled(e: Engine, run: seq<Event>, i: nat, j: nat)
    requires i <= j <= |run| && Filed(e)
    ensures Filed(After(e, run, j)) && After(e, run, i).finalized <= After(e, run, j).finalized
    decreases j
  {
    hide Next, Filed;
    if i < j {
      RunFiled(e, run, i, j - 1);
      NextFiled(After(e, run, j - 1), run[j - 1]);
    } else if j > 0 {
      RunFiled(e, run, j - 1, j - 1);
      NextFiled(After(e, run, j - 1), run[j - 1]);
    }
  }

  /** What a vote does, height by height: refused, or stored for its height; at the quorum its height becomes
      the finalized one, the votes up to it go and those above it stay. */
  lemma VoteIs(e: Engine, v: Vote, n: nat)
    ensures var (t, r) := Voted(e, v); var list := VotesAt(e.votes, v.number) + [v];
            && t.vs == e.vs
            && (!v.signed ==> r == Err(InvalidSignature))
            && (v.signed && !IsVoter(e.vs, v.validator) ==> r == Err(UnknownVoter))
            && (v.signed && IsVoter(e.vs, v.validator) && v.number <= e.finalized ==> r == Ok(Finalized))
            && (!Admitted(e, v) ==> t == e)
            && (Admitted(e, v) && r == Ok(Finalized) ==>
                  t.finalized == v.number && VotesAt(t.votes, n) == (if n > v.number then VotesAt(e.votes, n) else []))
            && (Admitted(e, v) && r != Ok(Finalized) ==>
                  && t.finalized == e.finalized
                  && VotesAt(t.votes, n) == (if n == v.number then list else VotesAt(e.votes, n))
                  && Tally(e.vs, list) % U128 < Threshold(e.vs)
                  && r == Ok(Pending(Tally(e.vs, list) % U128, Threshold(e.vs))))
  {
    hide IsVoter, Tally, Threshold;
    assert VotesAt(Stored(e, v).votes, v.number) == VotesAt(e.votes, v.number) + [v];
  }

  /** With unique addresses, the engine takes a validator's votes exactly while it is active and not in jail. */
  lemma JailedIsRefused(e: Engine, v: Vote, i: nat)
    requires Epochs.Unique(e.vs) && i < |e.vs| && e.vs[i].address == v.validator && v.signed
    ensures Voted(e, v).1 == Err(UnknownVoter) <==> !e.vs[i].isActive || e.vs[i].jailedUntil.Some?
  {
    hide Checked;
    if e.vs[i].isActive && e.vs[i].jailedUntil.None? { assert Voting(e.vs[i]); }
  }

  /** The finalized height changes only by an admitted vote that is answered so, to that vote's height. */
  lemma FinalizedStep(e: Engine, x: Event)
    ensures Next(e, x).finalized ==
            if x.AddVote? && Admitted(e, x.vote) && Voted(e, x.vote).1 == Ok(Finalized) then x.vote.number
            else e.finalized
  {
    hide Voted, Admitted;
    if x.AddVote? { VoteIs(e, x.vote, 0); }
  }

  /** The admitted votes for height `n` among the first `k` events, in order. */
  function CastFor(e: Engine, run: seq<Event>, k: nat, n: nat): seq<Vote>
    requires k <= |run|
  {
    if k == 0 then []
    else
      var x := run[k - 1];
      CastFor(e, run, k - 1, n)
      + (if x.AddVote? && x.vote.number == n && Admitted(After(e, run, k - 1), x.vote) then [x.vote] else [])
  }

  /** Over every run, with any changes of the set: for each height above the finalized one the engine holds
      exactly the votes it started with and those admitted since, in order. */
  lemma {:induction false} RunKeepsVotes(e: Engine, run: seq<Event>, k: nat, n: nat)
    requires k <= |run| && n > After(e, run, k).finalized
    ensures VotesAt(After(e, run, k).votes, n) == VotesAt(e.votes, n) + CastFor(e, run, k, n)
  {
    hide Voted, VotesAt, Tally, Threshold, IsVoter;
    if k > 0 {
      var d, x := After(e, run, k - 1), run[k - 1];
      FinalizedStep(d, x);
      RunKeepsVotes(e, run, k - 1, n);
      if x.AddVote? { VoteIs(d, x.vote, n); }
    }
  }

  /** Height `n` got an admitted vote among the first `k` events, after the last change of the set. */
  predicate Touched(e: Engine, run: seq<Event>, k: nat, n: nat)
    requires k <= |run|
  {
    k > 0 &&
    match run[k - 1]
    case SetValidators(_) => false
    case AddVote(v) => (v.number == n && Admitted(After(e, run, k - 1), v)) || Touched(e, run, k - 1, n)
  }

  /** A vote leaves its own height below the quorum and the other heights as they were, or removes them. */
  lemma VoteOpens(e: Engine, v: Vote, n: nat)
    ensures var t := Voted(e, v).0;
            && t.vs == e.vs
            && (n in t.votes && v.number == n && Admitted(e, v) ==> !Reached(t.vs, t.votes[n]))
            && (n in t.votes && !(v.number == n && Admitted(e, v)) ==> n in e.votes && t.votes[n] == e.votes[n])
  {
    hide Reached, IsVoter, Tally, Threshold;
  }

  /** Over every run, whatever the engine and the changes of the set: a stored height that got a vote
      since the last change is below the quorum. */
  lemma {:induction false} RunOpen(e: Engine, run: seq<Event>, k: nat, n: nat)
    requires k <= |run| && Touched(e, run, k, n) && n in After(e, run, k).votes
    ensures !Reached(After(e, run, k).vs, After(e, run, k).votes[n])
  {
    hide Voted, Admitted, Reached;
    var d, v := After(e, run, k - 1), run[k - 1].vote;
    VoteOpens(d, v, n);
    if !(v.number == n && Admitted(d, v)) { RunOpen(e, run, k - 1, n); }
  }

  /** Without a change of the set every stored height has got such a vote. */
  lemma {:induction false} FixedSetTouched(vs: seq<Validator>, run: seq<Event>, k: nat, n: nat)
    requires k <= |run| && forall i :: 0 <= i < k ==> run[i].AddVote?
    requires n in After(Engine(map[], 0, vs), run, k).votes
    ensures Touched(Engine(map[], 0, vs), run, k, n)
  {
    hide Voted, Admitted, Reached;
    if k > 0 {
      var d, v := After(Engine(map[], 0, vs), run, k - 1), run[k - 1].vote;
      VoteOpens(d, v, n);
      if !(v.number == n && Admitted(d, v)) { FixedSetTouched(vs, run, k - 1, n); }
    }
  }

  /** So from a fresh engine and with a fixed set no open height has a quorum. */
  lemma FixedSetOpen(vs: seq<Validator>, run: seq<Event>, k: nat)
    requires k <= |run| && forall i :: 0 <= i < k ==> run[i].AddVote?
    ensures Open(After(Engine(map[], 0, vs), run, k))
  {
    hide After, Reached, Touched;
    var e := Engine(map[], 0, vs);
    forall n | n in After(e, run, k).votes ensures !Reached(After(e, run, k).vs, After(e, run, k).votes[n]) {
      FixedSetTouched(vs, run, k, n);
      RunOpen(e, run, k, n);
    }
  }

  lemma OneAndTwo(a: Address, b: Address)
    requires a != b
    ensures var va, vb := Validator(a, 0, 100, true, None), Validator(b, 0, 200, true, None);
            && Threshold([va]) == 67 && Threshold([va, vb]) == 200 && IsVoter([va, vb], a)
            && StakeAt([va], a) == 100 && StakeAt([va, vb], a) == 100
  {
    var va, vb := Validator(a, 0, 100, true, None), Validator(b, 0, 200, true, None);
    var none: seq<Validator> := [];
    assert [va] == none + [va] && [va, vb] == [va] + [vb];
    StakeAppend(none, va, a);
    StakeAppend([va], vb, a);
    assert Voting([va, vb][0]);
  }

  lemma OneHeight(vs: seq<Validator>, v: Vote)
    ensures Open(Engine(map[1 := [v]], 0, vs)) <==> StakeAt(vs, v.validator) % U128 < Threshold(vs)
  {
    hide StakeAt, Threshold, Tally;
    OneVote(vs, v);
    var votes := map[1 := [v]];
    assert 1 in votes && votes[1] == [v];
  }

  /** A change of the set can leave an untouched height at its quorum: stored votes are not checked again. */
  lemma SetChangeReachesQuorum(a: Address, b: Address, h: Hash)
    requires a != b
    ensures var v := Vote(1, h, a, a, true);
            var one, two := [Validator(a, 0, 100, true, None)],
                            [Validator(a, 0, 100, true, None), Validator(b, 0, 200, true, None)];
            var e, run := Engine(map[], 0, two), [AddVote(v), SetValidators(one)];
            && After(e, run, 1) == Engine(map[1 := [v]], 0, two) && Open(After(e, run, 1))
            && After(e, run, 2) == Engine(map[1 := [v]], 0, one) && !Open(After(e, run, 2))
  {
    var v := Vote(1, h, a, a, true);
    var one, two := [Validator(a, 0, 100, true, None)],
                    [Validator(a, 0, 100, true, None), Validator(b, 0, 200, true, None)];
    var e, run := Engine(map[], 0, two), [AddVote(v), SetValidators(one)];
    hide StakeAt, Threshold, IsVoter, Voted, Open, Tally;
    OneAndTwo(a, b);
    OneHeight(one, v);
    OneHeight(two, v);
    OneVote(two, v);
    SmallVote(two, v);
    assert After(e, run, 1) == Voted(e, v).0;
    assert After(e, run, 2) == Next(After(e, run, 1), run[1]);
  }

  lemma SmallVote(vs: seq<Validator>, x: Vote)
    requires x.number == 1 && x.signed && IsVoter(vs, x.validator) && !Reached(vs, [x])
    ensures Voted(Engine(map[], 0, vs), x).0 == Engine(map[1 := [x]], 0, vs)
  {
    hide IsVoter, Reached;
    var e := Stored(Engine(map[], 0, vs), x);
    assert VotesAt(map[], 1) + [x] == [x];
    assert e.votes == map[1 := [x]] && VotesAt(e.votes, 1) == [x];
  }

  // ---- What a finalization means ----

  function Voters(votes: seq<Vote>): set<Address> { set v | v in votes :: v.validator }

  /** At most one vote of each validator in the list. */
  predicate Once(votes: seq<Vote>) {
    forall i, j :: 0 <= i < j < |votes| ==> votes[i].validator != votes[j].validator
  }

  ghost predicate ByVoters(vs: seq<Validator>, votes: seq<Vote>) {
    forall i :: 0 <= i < |votes| ==> IsVoter(vs, votes[i].validator)
  }

  /** With unique addresses a voter's stake counts once. */
  lemma {:induction false} StakeOfOne(vs: seq<Validator>, who: set<Address>, a: Address)
    requires Epochs.Unique(vs) && a !in who
    ensures StakeOf(vs, who + {a}) == StakeOf(vs, who) + (if IsVoter(vs, a) then StakeAt(vs, a) else 0)
  {
    if vs != [] {
      var n := |vs| - 1;
      StakeOfOne(vs[..n], who, a);
      LastVoter(vs, a);
    }
  }

  lemma LastVoter(vs: seq<Validator>, a: Address)
    requires Epochs.Unique(vs) && vs != []
    ensures var n := |vs| - 1;
            if vs[n].address == a
            then (IsVoter(vs, a) <==> Voting(vs[n])) && StakeAt(vs, a) == vs[n].stake && !IsVoter(vs[..n], a)
            else (IsVoter(vs, a) <==> IsVoter(vs[..n], a)) && (IsVoter(vs, a) ==> StakeAt(vs, a) == StakeAt(vs[..n], a))
  {
    var n := |vs| - 1;
    var i := IndexOf(vs, a);
    if vs[n].address == a {
      assert i == n;
    } else if IsVoter(vs, a) {
      var j :| 0 <= j < |vs| && Voting(vs[j]) && vs[j].address == a;
      assert Voting(vs[..n][j]) && vs[..n][j].address == a;
      assert IndexOf(vs[..n], a) == i;
    }
  }

  /** Stake behind the votes whose validator voted before in the list. */
  function Repeated(vs: seq<Validator>, votes: seq<Vote>): nat {
    if votes == [] then 0
    else
      var before, a := votes[..|votes| - 1], votes[|votes| - 1].validator;
      Repeated(vs, before) + (if a in Voters(before) then StakeAt(vs, a) else 0)
  }

  /** The tally is the stake of the distinct voters plus that of the repeated votes. */
  lemma {:induction false} TallySplits(vs: seq<Validator>, votes: seq<Vote>)
    requires Epochs.Unique(vs) && ByVoters(vs, votes)
    ensures Tally(vs, votes) == StakeOf(vs, Voters(votes)) + Repeated(vs, votes)
  {
    hide StakeAt, IsVoter;
    if votes == [] {
      NoStake(vs);
      assert Voters(votes) == {};
    } else {
      var n := |votes| - 1;
      TallySplits(vs, votes[..n]);
      var who, a := Voters(votes[..n]), votes[n].validator;
      assert votes == votes[..n] + [votes[n]];
      assert Voters(votes) == who + {a};
      if a in who { assert who + {a} == who; } else { StakeOfOne(vs, who, a); }
    }
  }

  /** No validator with stake appears twice in the list. */
  ghost predicate NoStakeTwice(vs: seq<Validator>, votes: seq<Vote>) {
    forall i, j :: 0 <= i < j < |votes| && votes[i].validator == votes[j].validator ==>
      StakeAt(vs, votes[j].validator) == 0
  }

  lemma VotedBefore(votes: seq<Vote>, a: Address)
    ensures a in Voters(votes) <==> exists i :: 0 <= i < |votes| && votes[i].validator == a
  {
    if i :| 0 <= i < |votes| && votes[i].validator == a { assert votes[i] in votes; }
  }

  lemma LastVoteTwice(vs: seq<Validator>, before: seq<Vote>, v: Vote)
    ensures NoStakeTwice(vs, before + [v]) <==>
            NoStakeTwice(vs, before) && (v.validator in Voters(before) ==> StakeAt(vs, v.validator) == 0)
  {
    hide StakeAt, Voters;
    VotedBefore(before, v.validator);
    var list, n := before + [v], |before|;
    assert list[n] == v && forall i :: 0 <= i < n ==> list[i] == before[i];
    if NoStakeTwice(vs, list) {
      forall i, j | 0 <= i < j < n && before[i].validator == before[j].validator
        ensures StakeAt(vs, before[j].validator) == 0
      {
        assert list[i].validator == list[j].validator;
      }
    }
  }

  lemma {:induction false} NothingRepeatedIff(vs: seq<Validator>, votes: seq<Vote>)
    ensures Repeated(vs, votes) == 0 <==> NoStakeTwice(vs, votes)
  {
    if votes != [] {
      hide StakeAt, Voters, NoStakeTwice;
      var n := |votes| - 1;
      NothingRepeatedIff(vs, votes[..n]);
      assert votes == votes[..n] + [votes[n]];
      LastVoteTwice(vs, votes[..n], votes[n]);
    }
  }

  /** The tally counts distinct voters exactly when no validator with stake voted twice. */
  lemma TallyIsStakeIff(vs: seq<Validator>, votes: seq<Vote>)
    requires Epochs.Unique(vs) && ByVoters(vs, votes)
    ensures Tally(vs, votes) == StakeOf(vs, Voters(votes)) <==> NoStakeTwice(vs, votes)
  {
    hide Tally, StakeOf, Voters, NoStakeTwice, Repeated, ByVoters;
    TallySplits(vs, votes);
    NothingRepeatedIff(vs, votes);
  }

  lemma {:induction false} NoStake(vs: seq<Validator>)
    ensures StakeOf(vs, {}) == 0
  {
    if vs != [] { NoStake(vs[..|vs| - 1]); }
  }

  /** Finalization by quorum: distinct active voters hold two thirds of the active stake. */
  lemma FinalizedByTwoThirds(e: Engine, v: Vote)
    requires Epochs.Unique(e.vs) && ActiveStake(e.vs) < U127 && Admitted(e, v)
    requires Once(VotesAt(e.votes, v.number) + [v]) && ByVoters(e.vs, VotesAt(e.votes, v.number))
    ensures var list := VotesAt(e.votes, v.number) + [v];
            Voted(e, v).1 == Ok(Finalized) <==> 3 * StakeOf(e.vs, Voters(list)) >= 2 * ActiveStake(e.vs)
  {
    hide StakeOf, ActiveStake, Tally, Voters, IsVoter, Reached;
    var list := VotesAt(e.votes, v.number) + [v];
    ReachedIff(e.vs, list);
    assert VotesAt(Stored(e, v).votes, v.number) == list;
  }

  lemma ReachedIff(vs: seq<Validator>, list: seq<Vote>)
    requires Epochs.Unique(vs) && ActiveStake(vs) < U127 && Once(list) && ByVoters(vs, list)
    ensures Reached(vs, list) <==> 3 * StakeOf(vs, Voters(list)) >= 2 * ActiveStake(vs)
  {
    hide StakeOf, ActiveStake, Tally, Voters, ByVoters, Epochs.Unique, Threshold;
    TallyIsStakeIff(vs, list);
    ThresholdIsTwoThirdsIff(vs);
    StakeOfUnion(vs, Voters(list), {});
    TwoThirdsOf(Tally(vs, list), ActiveStake(vs));
  }

  lemma TwoThirdsOf(voted: nat, total: nat)
    requires voted <= total < U127
    ensures voted % U128 >= (2 * total + 2) / 3 <==> 3 * voted >= 2 * total
  {
  }

  // ---- Over a whole run with a fixed set ----

  /** Event `i` is a vote that the engine stores. */
  predicate Admits(vs: seq<Validator>, run: seq<Event>, i: nat)
    requires i < |run|
  {
    run[i].AddVote? && Admitted(After(Engine(map[], 0, vs), run, i), run[i].vote)
  }

  /** Only votes, and no validator gets two admitted for one height; refused votes do not matter. */
  predicate OnePerHeight(vs: seq<Validator>, run: seq<Event>) {
    && (forall i :: 0 <= i < |run| ==> run[i].AddVote?)
    && (forall i, j :: 0 <= i < j < |run| && Admits(vs, run, i) && Admits(vs, run, j) ==>
          !(run[i].vote.number == run[j].vote.number && run[i].vote.validator == run[j].vote.validator))
  }

  predicate Cast(vs: seq<Validator>, run: seq<Event>, k: nat, v: Vote)
    requires k <= |run|
  {
    exists i :: 0 <= i < k && run[i] == AddVote(v) && Admits(vs, run, i)
  }

  /** The stored votes are distinct admitted votes of the run, by voters. */
  ghost predicate Genuine(e: Engine, run: seq<Event>, k: nat)
    requires k <= |run|
  {
    forall n :: n in e.votes ==>
      && Once(e.votes[n]) && ByVoters(e.vs, e.votes[n])
      && (forall v :: v in e.votes[n] ==> Cast(e.vs, run, k, v) && v.number == n)
  }

  lemma VoteIsNew(e: Engine, run: seq<Event>, k: nat)
    requires k < |run| && OnePerHeight(e.vs, run) && Genuine(e, run, k) && Admits(e.vs, run, k)
    requires Admitted(e, run[k].vote)
    ensures var v := run[k].vote;
            Once(VotesAt(e.votes, v.number) + [v]) && ByVoters(e.vs, VotesAt(e.votes, v.number) + [v])
  {
    hide IsVoter, After, Admits;
    var v := run[k].vote;
    var list := VotesAt(e.votes, v.number);
    forall i | 0 <= i < |list| ensures list[i].validator != v.validator {
      assert list[i] in e.votes[v.number];
      assert Cast(e.vs, run, k, list[i]);
    }
  }

  lemma CastGrows(vs: seq<Validator>, run: seq<Event>, k: nat, v: Vote)
    requires k < |run|
    ensures Cast(vs, run, k, v) ==> Cast(vs, run, k + 1, v)
    ensures run[k] == AddVote(v) && Admits(vs, run, k) ==> Cast(vs, run, k + 1, v)
  {
    hide Admits;
  }

  lemma StoredGenuine(e: Engine, run: seq<Event>, k: nat)
    requires k < |run| && OnePerHeight(e.vs, run) && Genuine(e, run, k) && Admits(e.vs, run, k)
    requires Admitted(e, run[k].vote)
    ensures Genuine(Stored(e, run[k].vote), run, k + 1)
  {
    hide IsVoter, Cast, Once, ByVoters, Admits, OnePerHeight;
    assert run[k].AddVote? by { OnlyVotes(e.vs, run, k); }
    var v := run[k].vote;
    VoteIsNew(e, run, k);
    forall w { CastGrows(e.vs, run, k, w); }
  }

  lemma OnlyVotes(vs: seq<Validator>, run: seq<Event>, k: nat)
    requires k < |run| && OnePerHeight(vs, run)
    ensures run[k].AddVote?
  {
  }

  lemma VotedGenuine(e: Engine, run: seq<Event>, k: nat)
    requires k < |run| && OnePerHeight(e.vs, run) && Genuine(e, run, k)
    requires e == After(Engine(map[], 0, e.vs), run, k)
    ensures Genuine(Voted(e, run[k].vote).0, run, k + 1) && Voted(e, run[k].vote).0.vs == e.vs
  {
    hide IsVoter, Cast, Once, ByVoters, Reached, After, OnePerHeight;
    OnlyVotes(e.vs, run, k);
    if Admitted(e, run[k].vote) {
      StoredGenuine(e, run, k);
    } else {
      forall n, v | n in e.votes && v in e.votes[n] ensures Cast(e.vs, run, k + 1, v) { CastGrows(e.vs, run, k, v); }
    }
  }

  lemma FreshGenuine(vs: seq<Validator>, run: seq<Event>)
    ensures Genuine(Engine(map[], 0, vs), run, 0)
  {
  }

  lemma {:induction false} RunGenuine(vs: seq<Validator>, run: seq<Event>, k: nat)
    requires k <= |run| && OnePerHeight(vs, run)
    ensures Genuine(After(Engine(map[], 0, vs), run, k), run, k) && After(Engine(map[], 0, vs), run, k).vs == vs
  {
    hide Voted, Genuine, OnePerHeight;
    if k == 0 {
      FreshGenuine(vs, run);
    } else {
      RunGenuine(vs, run, k - 1);
      OnlyVotes(vs, run, k - 1);
      VotedGenuine(After(Engine(map[], 0, vs), run, k - 1), run, k - 1);
    }
  }

  /** All votes admitted for the height of vote `k`, up to it. */
  function Ballot(vs: seq<Validator>, run: seq<Event>, k: nat): seq<Vote>
    requires k < |run| && run[k].AddVote?
  {
    CastFor(Engine(map[], 0, vs), run, k + 1, run[k].vote.number)
  }

  lemma BallotIs(vs: seq<Validator>, run: seq<Event>, k: nat)
    requires k < |run| && Admits(vs, run, k)
    ensures var e, v := After(Engine(map[], 0, vs), run, k), run[k].vote;
            Ballot(vs, run, k) == VotesAt(e.votes, v.number) + [v]
  {
    hide After, IsVoter;
    RunKeepsVotes(Engine(map[], 0, vs), run, k, run[k].vote.number);
  }

  /** In every run with one vote per validator and height, a vote finalizes its height exactly when
      the distinct voters admitted for it hold two thirds of the active stake. */
  lemma RunFinalizesByTwoThirds(vs: seq<Validator>, run: seq<Event>, k: nat)
    requires k < |run| && OnePerHeight(vs, run) && Epochs.Unique(vs) && ActiveStake(vs) < U127 && Admits(vs, run, k)
    ensures var e, v := After(Engine(map[], 0, vs), run, k), run[k].vote;
            Voted(e, v).1 == Ok(Finalized) <==>
            3 * StakeOf(vs, Voters(Ballot(vs, run, k))) >= 2 * ActiveStake(vs)
  {
    BallotIs(vs, run, k);
    hide Ballot, After, Genuine, StakeOf, ActiveStake, Voters, VotesAt, Voted, ByVoters;
    var e, v := After(Engine(map[], 0, vs), run, k), run[k].vote;
    RunGenuine(vs, run, k);
    VoteIsNew(e, run, k);
    ByVotersPrefix(vs, VotesAt(e.votes, v.number), v);
    FinalizedByTwoThirds(e, v);
  }

  function VotersFor(votes: seq<Vote>, h: Hash): set<Address> { set v | v in votes && v.hash == h :: v.validator }

  /** If besides all votes for the height name one block, that block has the two thirds. */
  lemma FinalizedBlockHasTwoThirds(vs: seq<Validator>, run: seq<Event>, k: nat)
    requires k < |run| && OnePerHeight(vs, run) && Epochs.Unique(vs) && ActiveStake(vs) < U127 && Admits(vs, run, k)
    requires OneBlock(vs, run, k)
    ensures var e, v := After(Engine(map[], 0, vs), run, k), run[k].vote;
            Voted(e, v).1 == Ok(Finalized) <==>
            3 * StakeOf(vs, VotersFor(Ballot(vs, run, k), v.hash)) >= 2 * ActiveStake(vs)
  {
    hide After, StakeOf, ActiveStake, Ballot, Voted, Admitted;
    RunFinalizesByTwoThirds(vs, run, k);
    assert VotersFor(Ballot(vs, run, k), run[k].vote.hash) == Voters(Ballot(vs, run, k));
  }

  function VotersElsewhere(votes: seq<Vote>, h: Hash): set<Address> { set v | v in votes && v.hash != h :: v.validator }

  /** In general the voters for the block and those for other blocks count together. */
  lemma FinalizedWithSplitVotes(vs: seq<Validator>, run: seq<Event>, k: nat)
    requires k < |run| && OnePerHeight(vs, run) && Epochs.Unique(vs) && ActiveStake(vs) < U127 && Admits(vs, run, k)
    ensures var e, v := After(Engine(map[], 0, vs), run, k), run[k].vote;
            var list := Ballot(vs, run, k);
            Voted(e, v).1 == Ok(Finalized) <==>
            2 * ActiveStake(vs) <=
            3 * (StakeOf(vs, VotersFor(list, v.hash)) + StakeOf(vs, VotersElsewhere(list, v.hash)))
  {
    BallotIs(vs, run, k);
    hide After, Ballot, StakeOf, ActiveStake, VotesAt, Voted, Voters, VotersFor, VotersElsewhere, Genuine, ByVoters,
         Once;
    var e, v := After(Engine(map[], 0, vs), run, k), run[k].vote;
    RunFinalizesByTwoThirds(vs, run, k);
    RunGenuine(vs, run, k);
    VoteIsNew(e, run, k);
    VotersSplit(vs, VotesAt(e.votes, v.number) + [v], v.hash);
  }

  lemma VotersSplit(vs: seq<Validator>, list: seq<Vote>, h: Hash)
    requires Once(list)
    ensures StakeOf(vs, Voters(list)) == StakeOf(vs, VotersFor(list, h)) + StakeOf(vs, VotersElsewhere(list, h))
  {
    hide StakeOf;
    var a, b := VotersFor(list, h), VotersElsewhere(list, h);
    assert a * b == {} && a + b == Voters(list);
    StakeOfUnion(vs, a, b);
    NoStake(vs);
  }

  /** The vote `w` names the same height and block as `v`, and the validator `a`. */
  predicate Backs(w: Vote, v: Vote, a: Address) { w.number == v.number && w.hash == v.hash && w.validator == a }

  /** What a finalization of one block rests on: votes cast for it by a quorum. */
  lemma FinalizedQuorum(vs: seq<Validator>, run: seq<Event>, k: nat)
    requires k < |run| && OnePerHeight(vs, run) && Epochs.Unique(vs) && ActiveStake(vs) < U127 && Admits(vs, run, k)
    requires OneBlock(vs, run, k) && Voted(After(Engine(map[], 0, vs), run, k), run[k].vote).1 == Ok(Finalized)
    ensures var e, v := After(Engine(map[], 0, vs), run, k), run[k].vote;
            var who := VotersFor(Ballot(vs, run, k), v.hash);
            && StakeOf(vs, who) >= Threshold(vs)
            && forall a :: a in who ==> exists w :: Cast(vs, run, k + 1, w) && Backs(w, v, a)
  {
    hide StakeOf, ActiveStake, After, Voted, Cast, OnePerHeight, ByVoters, Once, Threshold, Epochs.Unique, Admitted,
         Ballot;
    var e, v := After(Engine(map[], 0, vs), run, k), run[k].vote;
    FinalizedBlockHasTwoThirds(vs, run, k);
    ThresholdIsTwoThirdsIff(vs);
    RunGenuine(vs, run, k);
    BallotIs(vs, run, k);
    var list := VotesAt(e.votes, v.number) + [v];
    forall a | a in VotersFor(list, v.hash)
      ensures exists w :: Cast(vs, run, k + 1, w) && Backs(w, v, a)
    {
      var w :| w in list && w.hash == v.hash && w.validator == a;
      CastGrows(vs, run, k, w);
      assert Cast(vs, run, k + 1, w) && Backs(w, v, a);
    }
  }

  /** All votes admitted for the height of event `k` up to it name its block. */
  predicate OneBlock(vs: seq<Validator>, run: seq<Event>, k: nat)
    requires k < |run| && run[k].AddVote?
  {
    forall x :: x in Ballot(vs, run, k) ==> x.hash == run[k].vote.hash
  }

  /** The validators outside `faulty` never have votes for two blocks at one height admitted on the two nodes. */
  ghost predicate Consistent(vs: seq<Validator>, run: seq<Event>, other: seq<Event>, faulty: set<Address>) {
    forall v, w :: Cast(vs, run, |run|, v) && Cast(vs, other, |other|, w) && v.validator !in faulty ==>
      !Conflicting(v, w)
  }

  predicate Conflicting(v: Vote, w: Vote) {
    v.number == w.number && v.validator == w.validator && v.hash != w.hash
  }

  lemma {:induction false} CastStays(vs: seq<Validator>, run: seq<Event>, k: nat, n: nat, v: Vote)
    requires k <= n <= |run| && Cast(vs, run, k, v)
    ensures Cast(vs, run, n, v)
  {
    hide Admits;
  }

  /** Agreement: two nodes with one validator set, less than a third of the stake voting for two blocks,
      and each node's votes for the height naming one block, never finalize different blocks there. */
  lemma NodesAgree(vs: seq<Validator>, run: seq<Event>, k: nat, other: seq<Event>, j: nat, faulty: set<Address>)
    requires Epochs.Unique(vs) && ActiveStake(vs) < U127 && 3 * StakeOf(vs, faulty) < ActiveStake(vs)
    requires k < |run| && OnePerHeight(vs, run) && Admits(vs, run, k) && OneBlock(vs, run, k)
    requires j < |other| && OnePerHeight(vs, other) && Admits(vs, other, j) && OneBlock(vs, other, j)
    requires Consistent(vs, run, other, faulty)
    requires Voted(After(Engine(map[], 0, vs), run, k), run[k].vote).1 == Ok(Finalized)
    requires Voted(After(Engine(map[], 0, vs), other, j), other[j].vote).1 == Ok(Finalized)
    requires run[k].vote.number == other[j].vote.number
    ensures run[k].vote.hash == other[j].vote.hash
  {
    hide StakeOf, ActiveStake, After, Voted, Cast, OnePerHeight, Admits, OneBlock, VotersFor, Ballot,
         Threshold, Epochs.Unique;
    OnlyVotes(vs, run, k);
    OnlyVotes(vs, other, j);
    FinalizedQuorum(vs, run, k);
    FinalizedQuorum(vs, other, j);
    var v, w := run[k].vote, other[j].vote;
    var a, b := VotersFor(Ballot(vs, run, k), v.hash), VotersFor(Ballot(vs, other, j), w.hash);
    HonestVoterInBoth(vs, a, b, faulty);
    var i :| 0 <= i < |vs| && Voting(vs[i]) && vs[i].address in (a * b) - faulty;
    var x :| Cast(vs, run, k + 1, x) && Backs(x, v, vs[i].address);
    var y :| Cast(vs, other, j + 1, y) && Backs(y, w, vs[i].address);
    CastStays(vs, run, k + 1, |run|, x);
    CastStays(vs, other, j + 1, |other|, y);
  }

  lemma ByVotersPrefix(vs: seq<Validator>, list: seq<Vote>, v: Vote)
    requires ByVoters(vs, list + [v])
    ensures ByVoters(vs, list)
  {
    hide IsVoter;
    assert forall i :: 0 <= i < |list| ==> (list + [v])[i] == list[i];
  }

  function Hundred(a: Address): Validator { Validator(a, 0, 100, true, None) }

  /** Without that, one validator of three can finalize alone by voting twice, ... */
  lemma RepeatedVotesFinalize(a: Address, b: Address, c: Address, h: Hash)
    requires a != b && b != c && a != c
    ensures var vs := [Hundred(a), Hundred(b), Hundred(c)];
            var e := Voted(Engine(map[], 0, vs), Vote(1, h, a, a, true)).0;
            Voted(e, Vote(1, h, a, a, true)).1 == Ok(Finalized) && 3 * StakeOf(vs, {a}) < 2 * ActiveStake(vs)
  {
    TwoVotes(a, b, c, Vote(1, h, a, a, true), Vote(1, h, a, a, true));
  }

  /** ... and two votes for different blocks finalize a height that no block has two thirds for. */
  lemma SplitVotesFinalize(a: Address, b: Address, c: Address, g: Hash, h: Hash)
    requires a != b && b != c && a != c && g != h
    ensures var vs := [Hundred(a), Hundred(b), Hundred(c)];
            var e := Voted(Engine(map[], 0, vs), Vote(1, g, a, a, true)).0;
            Voted(e, Vote(1, h, b, b, true)).1 == Ok(Finalized)
            && 3 * StakeOf(vs, {a}) < 2 * ActiveStake(vs) && 3 * StakeOf(vs, {b}) < 2 * ActiveStake(vs)
  {
    TwoVotes(a, b, c, Vote(1, g, a, a, true), Vote(1, h, b, b, true));
  }

  lemma TwoVotes(a: Address, b: Address, c: Address, x: Vote, y: Vote)
    requires a != b && b != c && a != c && x.number == y.number == 1 && x.signed && y.signed
    requires x.validator in {a, b} && y.validator in {a, b}
    ensures var vs := [Hundred(a), Hundred(b), Hundred(c)];
            var e := Voted(Engine(map[], 0, vs), x).0;
            && Voted(e, y).1 == Ok(Finalized) && ActiveStake(vs) == 300
            && StakeOf(vs, {a}) == 100 && StakeOf(vs, {b}) == 100
  {
    var vs := [Hundred(a), Hundred(b), Hundred(c)];
    ThreeStakes(a, b, c);
    assert Threshold(vs) == 200;
    assert IsVoter(vs, a) by { assert Voting(vs[0]); }
    assert IsVoter(vs, b) by { assert Voting(vs[1]); }
    hide *;
    FirstVote(vs, x);
    SecondVote(vs, x, y);
  }

  lemma FirstVote(vs: seq<Validator>, x: Vote)
    requires x.number == 1 && x.signed && IsVoter(vs, x.validator)
    requires Threshold(vs) == 200 && StakeAt(vs, x.validator) == 100
    ensures Voted(Engine(map[], 0, vs), x).0 == Engine(map[1 := [x]], 0, vs)
  {
    hide IsVoter, StakeAt, Threshold, Tally, Voted;
    OneVote(vs, x);
    SmallVote(vs, x);
  }

  lemma SecondVote(vs: seq<Validator>, x: Vote, y: Vote)
    requires y.number == 1 && y.signed && IsVoter(vs, y.validator)
    requires Threshold(vs) == 200 && StakeAt(vs, x.validator) == 100 && StakeAt(vs, y.validator) == 100
    ensures Voted(Engine(map[1 := [x]], 0, vs), y).1 == Ok(Finalized)
  {
    hide IsVoter, StakeAt, Threshold, Tally;
    TwoTally(vs, x, y);
    assert VotesAt(Stored(Engine(map[1 := [x]], 0, vs), y).votes, 1) == [x, y];
  }

  lemma OneVote(vs: seq<Validator>, x: Vote)
    ensures Tally(vs, [x]) == StakeAt(vs, x.validator)
  {
    assert [x][..0] == [];
  }

  lemma TwoTally(vs: seq<Validator>, x: Vote, y: Vote)
    ensures Tally(vs, [x, y]) == StakeAt(vs, x.validator) + StakeAt(vs, y.validator)
  {
    assert [x, y][..1] == [x];
    OneVote(vs, x);
  }

  lemma StakeAppend(vs: seq<Validator>, v: Validator, a: Address)
    ensures ActiveStake(vs + [v]) == ActiveStake(vs) + (if Voting(v) then v.stake else 0)
    ensures StakeOf(vs + [v], {a}) == StakeOf(vs, {a}) + (if Voting(v) && v.address == a then v.stake else 0)
  {
    assert (vs + [v])[..|vs|] == vs;
  }

  lemma ThreeStakes(a: Address, b: Address, c: Address)
    requires a != b && b != c && a != c
    ensures var vs := [Hundred(a), Hundred(b), Hundred(c)];
            && ActiveStake(vs) == 300 && StakeOf(vs, {a}) == 100 && StakeOf(vs, {b}) == 100
            && StakeAt(vs, a) == 100 && StakeAt(vs, b) == 100
  {
    var va, vb, vc := Hundred(a), Hundred(b), Hundred(c);
    var none: seq<Validator> := [];
    assert [va, vb, vc] == none + [va] + [vb] + [vc];
    StakeAppend(none, va, a);
    StakeAppend(none + [va], vb, a);
    StakeAppend(none + [va] + [vb], vc, a);
    StakeAppend(none, va, b);
    StakeAppend(none + [va], vb, b);
    StakeAppend(none + [va] + [vb], vc, b);
    assert [va, vb, vc][1..] == [vb, vc];
  }
}
