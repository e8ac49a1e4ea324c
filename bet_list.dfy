/** The deployed `BetList` contract: one mutable store (id counter, bets by
    id, list of open ids) plus the value it holds in escrow and the wallets it
    pays into. The transaction context (sender and attached value) is passed
    explicitly to every operation. Each operation either commits all of its
    effects and returns its single event, or fails and changes nothing. */
module BetListContract {
  import opened Bets
  import opened StoreInvariant

  /** Takes `k` out of the stored list of open ids, keeping the others in
      their order. */
  method RemoveId(ids: seq<nat>, k: nat) returns (r: seq<nat>)
    ensures r == Without(ids, k)
  {
    r := [];
    var i := 0;
    while i < |ids|
      invariant 0 <= i <= |ids|
      invariant r == Without(ids[..i], k)
    {
      WithoutPrefix(ids, i, k);
      if ids[i] != k {
        r := r + [ids[i]];
      }
      i := i + 1;
    }
    assert ids[..|ids|] == ids;
  }

  class BetList {
    /** The deploying account: the only one allowed to resolve bets. */
    const referee: Addr
    /** Number of bets ever published; also the id of the latest one. */
    var betCount: nat
    var bets: map<nat, Bet>
    /** Ids of the bets nobody has accepted yet, in publish order. */
    var available: seq<nat>
    /** Ids of the bets already paid out. */
    var resolved: set<nat>
    /** Net change of each account's wallet caused by this contract (an
        absent account has had no change). */
    var balances: map<Addr, int>
    /** Value the contract holds. */
    var escrow: nat

    /** The store's invariant (see `Consistent`), with a real referee. */
    ghost predicate Valid()
      reads this
    {
      referee != NoAddress && Consistent(betCount, bets, available, resolved, escrow)
    }

    function Balance(a: Addr): int
      reads this
    {
      if a in balances then balances[a] else 0
    }

    /** Deployment by `referee`: no bets, nothing held. */
    constructor (referee: Addr)
      requires referee != NoAddress
      ensures Valid()
      ensures this.referee == referee
      ensures betCount == 0 && bets == map[] && available == [] && resolved == {}
      ensures balances == map[] && escrow == 0
    {
      this.referee := referee;
      betCount := 0;
      bets := map[];
      available := [];
      resolved := {};
      balances := map[];
      escrow := 0;
    }

    /** `publishBet(name, conditions, price)` sent by `caller` with `value`
        attached: the stake must equal the price. */
    method PublishBet(caller: Addr, value: nat, name: string, conditions: string, price: nat) returns (r: Outcome)
      requires Valid() && caller != NoAddress
      modifies this
      ensures Valid()
      ensures r.Ok? <==> value == price
      ensures r.Fail? ==> r.error == ValueMismatch && unchanged(this)
      ensures r.Ok? ==>
        var id := old(betCount) + 1;
        && id !in old(bets)
        && r.event == LogPublishBet(id, caller, name, price)
        && betCount == id
        && bets == old(bets)[id := Bet(id, caller, NoAddress, name, conditions, price)]
        && available == old(available) + [id]
        && resolved == old(resolved)
        && escrow == old(escrow) + price
        && balances == old(balances)[caller := old(Balance(caller)) - price]
    {
      if value != price {
        return Fail(ValueMismatch);
      }
      var id := betCount + 1;
      var b := Bet(id, caller, NoAddress, name, conditions, price);
      PublishKeepsConsistent(betCount, bets, available, resolved, escrow, b);
      betCount := id;
      bets := bets[id := b];
      available := available + [id];
      escrow := escrow + price;
      balances := balances[caller := Balance(caller) - price];
      r := Ok(LogPublishBet(id, caller, name, price));
    }

    /** `acceptBet(id)` sent by `caller` with `value` attached. The checks
        run in order: the bet exists, it is still open, the caller is not its
        challenger, and the stake equals its price. */
    method AcceptBet(caller: Addr, value: nat, id: nat) returns (r: Outcome)
      requires Valid() && caller != NoAddress
      modifies this
      ensures Valid()
      ensures id !in old(bets) ==> r == Fail(UnknownBet)
      ensures id in old(bets) ==>
        var b := old(bets[id]);
        && (b.accepter != NoAddress ==> r == Fail(AlreadyAccepted))
        && (b.accepter == NoAddress && caller == b.challenger ==> r == Fail(SelfAcceptance))
        && (b.accepter == NoAddress && caller != b.challenger && value != b.price ==> r == Fail(ValueMismatch))
        && (b.accepter == NoAddress && caller != b.challenger && value == b.price ==> r.Ok?)
      ensures r.Fail? ==> unchanged(this)
      ensures r.Ok? ==>
        var b := old(bets[id]);
        && r.event == LogAcceptBet(id, b.challenger, caller, b.name, b.price)
        && bets == old(bets)[id := b.(accepter := caller)]
        && available == Without(old(available), id)
        && betCount == old(betCount)
        && resolved == old(resolved)
        && escrow == old(escrow) + b.price
        && balances == old(balances)[caller := old(Balance(caller)) - b.price]
    {
      if id !in bets {
        return Fail(UnknownBet);
      }
      var b := bets[id];
      if b.accepter != NoAddress {
        return Fail(AlreadyAccepted);
      }
      if caller == b.challenger {
        return Fail(SelfAcceptance);
      }
      if value != b.price {
        return Fail(ValueMismatch);
      }
      AcceptKeepsConsistent(betCount, bets, available, resolved, escrow, id, caller);
      bets := bets[id := b.(accepter := caller)];
      available := RemoveId(available, id);
      escrow := escrow + b.price;
      balances := balances[caller := Balance(caller) - b.price];
      r := Ok(LogAcceptBet(id, b.challenger, caller, b.name, b.price));
    }

    /** `resolveBet(id, challengerWins)` sent by `caller`: only the referee
        may resolve, and only a bet that is accepted and not yet resolved.
        The bet is marked resolved before the payout of twice its price is
        credited to the declared winner. */
    method ResolveBet(caller: Addr, id: nat, challengerWins: bool) returns (r: Outcome)
      requires Valid()
      modifies this
      ensures Valid()
      ensures caller != referee ==> r == Fail(Unauthorized)
      ensures caller == referee && id !in old(bets) ==> r == Fail(UnknownBet)
      ensures caller == referee && id in old(bets) ==>
        var b := old(bets[id]);
        && (b.accepter == NoAddress ==> r == Fail(NotYetAccepted))
        && (b.accepter != NoAddress && id in old(resolved) ==> r == Fail(AlreadyResolved))
        && (b.accepter != NoAddress && id !in old(resolved) ==> r.Ok?)
      ensures r.Fail? ==> unchanged(this)
      ensures r.Ok? ==>
        var b := old(bets[id]);
        var winner := if challengerWins then b.challenger else b.accepter;
        && r.event == LogResolveBet(id, b.challenger, b.accepter, b.name, 2 * b.price)
        && resolved == old(resolved) + {id}
        && bets == old(bets)
        && available == old(available)
        && betCount == old(betCount)
        && escrow == old(escrow) - 2 * b.price
        && balances == old(balances)[winner := old(Balance(winner)) + 2 * b.price]
    {
      if caller != referee {
        return Fail(Unauthorized);
      }
      if id !in bets {
        return Fail(UnknownBet);
      }
      var b := bets[id];
      if b.accepter == NoAddress {
        return Fail(NotYetAccepted);
      }
      if id in resolved {
        return Fail(AlreadyResolved);
      }
      var payout := 2 * b.price;
      ResolveKeepsConsistent(betCount, bets, available, resolved, escrow, id);
      // First record the resolution, then move the value out.
      resolved := resolved + {id};
      escrow := escrow - payout;
      var winner := if challengerWins then b.challenger else b.accepter;
      balances := balances[winner := Balance(winner) + payout];
      r := Ok(LogResolveBet(id, b.challenger, b.accepter, b.name, payout));
    }

    /** `getNumberOfBets()`: how many bets were ever published; the ids in
        use are exactly 1 up to that number. */
    method GetNumberOfBets() returns (n: nat)
      requires Valid()
      ensures n == betCount
      ensures forall id :: id in bets <==> 1 <= id <= n
    {
      n := betCount;
    }

    /** `getAvailableBets()`: the ids of the bets nobody has accepted yet, in
        publish order. */
    method GetAvailableBets() returns (ids: seq<nat>)
      requires Valid()
      ensures ids == available
      ensures forall id :: id in ids <==> IsOpen(bets, id)
      ensures Increasing(ids)
    {
      ids := available;
      OpenIdsMembers(bets, betCount);
    }

    /** The public getter `bets(id)`: the stored record, or the all-zero
        record for an id never published. */
    method GetBet(id: nat) returns (b: Bet)
      requires Valid()
      ensures id in bets ==> b == bets[id] && b.id == id && b.challenger != NoAddress
      ensures id !in bets ==> b == EmptyBet
    {
      b := if id in bets then bets[id] else EmptyBet;
    }
  }
}
