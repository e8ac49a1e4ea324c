/** The invariant of the contract's store, stated over its values, and the
    proof that each of the three state-changing operations keeps it. */
module StoreInvariant {
  import opened Bets

  /** Ids are exactly 1..betCount, each record sits under its own id and has a
      real challenger, nobody is the accepter of their own bet, only accepted
      bets are resolved, the stored open-id list is the derived one, and the
      escrow holds exactly what the live bets staked. */
  ghost predicate Consistent(betCount: nat, bets: map<nat, Bet>, available: seq<nat>, resolved: set<nat>, escrow: nat)
  {
    && (forall id :: id in bets <==> 1 <= id <= betCount)
    && (forall id :: id in bets ==>
          bets[id].id == id && bets[id].challenger != NoAddress && bets[id].accepter != bets[id].challenger)
    && (forall id :: id in resolved ==> id in bets && bets[id].accepter != NoAddress)
    && available == OpenIds(bets, betCount)
    && escrow == Escrowed(bets, resolved, betCount)
  }

  /** Publishing bet betCount + 1, open, with the challenger's stake of
      `price` added to the escrow, keeps the store consistent. */
  lemma PublishKeepsConsistent(
    betCount: nat, bets: map<nat, Bet>, available: seq<nat>, resolved: set<nat>, escrow: nat,
    b: Bet)
    requires Consistent(betCount, bets, available, resolved, escrow)
    requires b.id == betCount + 1 && b.challenger != NoAddress && b.accepter == NoAddress
    ensures betCount + 1 !in bets
    ensures Consistent(betCount + 1, bets[betCount + 1 := b], available + [betCount + 1], resolved, escrow + b.price)
  {
    var id := betCount + 1;
    var bets' := bets[id := b];
    OpenIdsPublish(bets, betCount, b);
    EscrowedChange(bets, resolved, bets', resolved, betCount, id);
    assert id !in resolved;
  }

  /** Accepting the open bet `id` by someone other than its challenger, with
      the accepter's stake added to the escrow, keeps the store consistent,
      and the open-id list loses exactly `id`. */
  lemma AcceptKeepsConsistent(
    betCount: nat, bets: map<nat, Bet>, available: seq<nat>, resolved: set<nat>, escrow: nat,
    id: nat, accepter: Addr)
    requires Consistent(betCount, bets, available, resolved, escrow)
    requires IsOpen(bets, id) && accepter != NoAddress && accepter != bets[id].challenger
    ensures
      var bets' := bets[id := bets[id].(accepter := accepter)];
      Consistent(betCount, bets', Without(available, id), resolved, escrow + bets[id].price)
  {
    var bets' := bets[id := bets[id].(accepter := accepter)];
    OpenIdsClose(bets, bets', betCount, id);
    assert id !in resolved;
    EscrowedChange(bets, resolved, bets', resolved, betCount, id);
  }

  /** Resolving the accepted, unresolved bet `id` finds both stakes in the
      escrow, and taking them out keeps the store consistent. */
  lemma ResolveKeepsConsistent(
    betCount: nat, bets: map<nat, Bet>, available: seq<nat>, resolved: set<nat>, escrow: nat,
    id: nat)
    requires Consistent(betCount, bets, available, resolved, escrow)
    requires id in bets && bets[id].accepter != NoAddress && id !in resolved
    ensures 2 * bets[id].price <= escrow
    ensures Consistent(betCount, bets, available, resolved + {id}, escrow - 2 * bets[id].price)
  {
    HeldWithinEscrowed(bets, resolved, betCount, id);
    EscrowedChange(bets, resolved, bets, resolved + {id}, betCount, id);
  }
}
