/** Values of the bet-escrow contract `BetList`: accounts, the stored bet
    record, the three log events, the failure kinds, and the functions that
    say what the contract's derived state (the list of open bets, the value
    held in escrow) must be for a given store of bets. */
module Bets {

  /** An account address. Address 0 is the zero address: the value of a
      record field that was never set. */
  type Addr = nat

  const NoAddress: Addr := 0

  /** The stored bet, in the field order of the public getter `bets(id)`.
      `accepter` stays the zero address until the bet is accepted. */
  datatype Bet = Bet(id: nat, challenger: Addr, accepter: Addr, name: string, conditions: string, price: nat)

  /** What the getter `bets(id)` yields for an id that was never published:
      every field at its zero value. */
  const EmptyBet: Bet := Bet(0, NoAddress, NoAddress, "", "", 0)

  /** Why an operation was rejected; a rejected operation changes nothing. */
  datatype BetError =
    | ValueMismatch
    | UnknownBet
    | AlreadyAccepted
    | SelfAcceptance
    | NotYetAccepted
    | AlreadyResolved
    | Unauthorized

  /** The single log entry a successful operation emits. */
  datatype Event =
    | LogPublishBet(id: nat, challenger: Addr, name: string, price: nat)
    | LogAcceptBet(id: nat, challenger: Addr, accepter: Addr, name: string, price: nat)
    | LogResolveBet(id: nat, challenger: Addr, accepter: Addr, name: string, payout: nat)

  /** Outcome of a state-changing operation: its event, or why it failed. */
  datatype Outcome = Ok(event: Event) | Fail(error: BetError)

  predicate Increasing(s: seq<nat>)
  {
    forall i, j :: 0 <= i < j < |s| ==> s[i] < s[j]
  }

  /** Bet `id` is published and nobody has accepted it yet. */
  predicate IsOpen(bets: map<nat, Bet>, id: nat)
  {
    id in bets && bets[id].accepter == NoAddress
  }

  /** The ids among 1..n that are open, in publish (id) order: what
      `getAvailableBets` must return when n bets have been published. */
  function OpenIds(bets: map<nat, Bet>, n: nat): seq<nat>
  {
    if n == 0 then [] else OpenIds(bets, n - 1) + (if IsOpen(bets, n) then [n] else [])
  }

  /** `s` with every occurrence of `k` taken out, the rest in their order. */
  function Without(s: seq<nat>, k: nat): seq<nat>
  {
    if s == [] then [] else Without(s[..|s| - 1], k) + (if s[|s| - 1] == k then [] else [s[|s| - 1]])
  }

  /** The open-id list holds exactly the open ids among 1..n, each once and
      in increasing order. */
  lemma {:induction false} OpenIdsMembers(bets: map<nat, Bet>, n: nat)
    ensures forall id :: id in OpenIds(bets, n) <==> 1 <= id <= n && IsOpen(bets, id)
    ensures Increasing(OpenIds(bets, n))
  {
    if n > 0 {
      var prev := OpenIds(bets, n - 1);
      OpenIdsMembers(bets, n - 1);
      assert forall i :: 0 <= i < |prev| ==> prev[i] in prev;
    }
  }

  /** Removing `k` keeps exactly the other elements, and keeps an increasing
      list increasing. */
  lemma {:induction false} WithoutMembers(s: seq<nat>, k: nat)
    ensures forall x :: x in Without(s, k) <==> x in s && x != k
    ensures Increasing(s) ==> Increasing(Without(s, k))
  {
    if s != [] {
      var init, last := s[..|s| - 1], s[|s| - 1];
      var rest := Without(init, k);
      WithoutMembers(init, k);
      assert s == init + [last];
      assert forall i :: 0 <= i < |rest| ==> rest[i] in init;
      assert forall i :: 0 <= i < |init| ==> init[i] == s[i];
    }
  }

  /** The value the contract holds for bet `id`: the challenger's stake while
      the bet is open, both stakes once it is accepted, nothing once it is
      resolved (or if it was never published). */
  function HeldAt(bets: map<nat, Bet>, resolved: set<nat>, id: nat): nat
  {
    if id !in bets || id in resolved then 0
    else if bets[id].accepter == NoAddress then bets[id].price
    else 2 * bets[id].price
  }

  /** Total value held for bets 1..n. */
  function Escrowed(bets: map<nat, Bet>, resolved: set<nat>, n: nat): nat
  {
    if n == 0 then 0 else Escrowed(bets, resolved, n - 1) + HeldAt(bets, resolved, n)
  }

  /** Appending one element and then removing `k` is removing `k` first. */
  lemma WithoutSnoc(s: seq<nat>, x: nat, k: nat)
    ensures Without(s + [x], k) == Without(s, k) + (if x == k then [] else [x])
  {
    assert (s + [x])[..|s|] == s;
  }

  /** Removing `k` from a prefix one element longer: the longer prefix
      ends in `s[i]`, which survives unless it is `k`. */
  lemma WithoutPrefix(s: seq<nat>, i: nat, k: nat)
    requires i < |s|
    ensures Without(s[..i + 1], k) == Without(s[..i], k) + (if s[i] == k then [] else [s[i]])
  {
    assert s[..i + 1] == s[..i] + [s[i]];
    WithoutSnoc(s[..i], s[i], k);
  }

  /** The open-id list depends only on which of the ids 1..n are open. */
  lemma {:induction false} OpenIdsAgree(b1: map<nat, Bet>, b2: map<nat, Bet>, n: nat)
    requires forall i :: 1 <= i <= n ==> IsOpen(b1, i) == IsOpen(b2, i)
    ensures OpenIds(b1, n) == OpenIds(b2, n)
  {
    if n > 0 {
      OpenIdsAgree(b1, b2, n - 1);
    }
  }

  /** Publishing bet n + 1 open appends exactly n + 1 to the open-id list. */
  lemma OpenIdsPublish(bets: map<nat, Bet>, n: nat, b: Bet)
    requires b.accepter == NoAddress
    ensures OpenIds(bets[n + 1 := b], n + 1) == OpenIds(bets, n) + [n + 1]
  {
    OpenIdsAgree(bets, bets[n + 1 := b], n);
  }

  /** Closing bet k (and changing no other bet's openness) removes exactly k
      from the open-id list and keeps the order of the others. */
  lemma {:induction false} OpenIdsClose(b1: map<nat, Bet>, b2: map<nat, Bet>, n: nat, k: nat)
    requires forall i :: 1 <= i <= n && i != k ==> IsOpen(b1, i) == IsOpen(b2, i)
    requires !IsOpen(b2, k)
    ensures OpenIds(b2, n) == Without(OpenIds(b1, n), k)
  {
    if n > 0 {
      OpenIdsClose(b1, b2, n - 1, k);
      var s1 := OpenIds(b1, n - 1);
      if IsOpen(b1, n) {
        assert OpenIds(b1, n) == s1 + [n];
        WithoutSnoc(s1, n, k);
      } else {
        assert OpenIds(b1, n) == s1 + [];
        assert s1 + [] == s1;
      }
    }
  }

  /** Changing what is held for bet k alone changes the escrow total by
      exactly that difference when k is among 1..n, and not at all otherwise. */
  lemma {:induction false} EscrowedChange(b1: map<nat, Bet>, r1: set<nat>, b2: map<nat, Bet>, r2: set<nat>, n: nat, k: nat)
    requires forall i :: 1 <= i <= n && i != k ==> HeldAt(b1, r1, i) == HeldAt(b2, r2, i)
    ensures 1 <= k <= n ==> Escrowed(b2, r2, n) + HeldAt(b1, r1, k) == Escrowed(b1, r1, n) + HeldAt(b2, r2, k)
    ensures !(1 <= k <= n) ==> Escrowed(b2, r2, n) == Escrowed(b1, r1, n)
  {
    if n > 0 {
      EscrowedChange(b1, r1, b2, r2, n - 1, k);
    }
  }

  /** Each bet's held value is part of the total, so paying it out never
      takes more than the escrow holds. */
  lemma {:induction false} HeldWithinEscrowed(bets: map<nat, Bet>, resolved: set<nat>, n: nat, k: nat)
    requires 1 <= k <= n
    ensures HeldAt(bets, resolved, k) <= Escrowed(bets, resolved, n)
  {
    if k < n {
      HeldWithinEscrowed(bets, resolved, n - 1, k);
    }
  }
}
