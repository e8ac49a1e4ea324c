/** The two test suites of the contract replayed against the model: each
    suite deploys one fresh `BetList` and drives it step by step, and every
    step's assertions are checked here from the operations' contracts alone. */
module Scenarios {
  import opened Bets
  import opened BetListContract

  /** The suites' three accounts: real addresses, pairwise distinct. */
  predicate Parties(referee: Addr, challenger: Addr, accepter: Addr)
  {
    && referee != NoAddress && challenger != NoAddress && accepter != NoAddress
    && referee != challenger && referee != accepter && challenger != accepter
  }

  /** The first and second bets of the normal flow, as published by `c`. */
  function FirstBet(c: Addr): Bet
  {
    Bet(1, c, NoAddress, "Bet 1", "Conditions for bet 1", 1)
  }

  function SecondBet(c: Addr): Bet
  {
    Bet(2, c, NoAddress, "Bet 2", "Conditions for bet 2", 2)
  }

  /** The shared instance as the normal flow sees it between two steps. */
  ghost predicate At(
    list: BetList, referee: Addr, challenger: Addr, accepter: Addr,
    count: nat, bets: map<nat, Bet>, available: seq<nat>, resolved: set<nat>,
    escrow: nat, challengerGain: int, accepterGain: int)
    reads list
  {
    && list.Valid() && list.referee == referee
    && list.betCount == count && list.bets == bets && list.available == available && list.resolved == resolved
    && list.escrow == escrow
    && list.Balance(challenger) == challengerGain && list.Balance(accepter) == accepterGain
  }

  /** Publishing the first bet: event id 1, one bet, [1] available, stored
      with an empty accepter. */
  method PublishFirst(list: BetList, referee: Addr, challenger: Addr, accepter: Addr) returns (r: Outcome)
    requires Parties(referee, challenger, accepter)
    requires At(list, referee, challenger, accepter, 0, map[], [], {}, 0, 0, 0)
    modifies list
    ensures r == Ok(LogPublishBet(1, challenger, "Bet 1", 1))
    ensures At(list, referee, challenger, accepter, 1, map[1 := FirstBet(challenger)], [1], {}, 1, -1, 0)
  {
    r := list.PublishBet(challenger, 1, "Bet 1", "Conditions for bet 1", 1);
  }

  /** Publishing the second bet: event id 2, two bets, 2 appended after 1. */
  method PublishSecond(list: BetList, referee: Addr, challenger: Addr, accepter: Addr) returns (r: Outcome)
    requires Parties(referee, challenger, accepter)
    requires At(list, referee, challenger, accepter, 1, map[1 := FirstBet(challenger)], [1], {}, 1, -1, 0)
    modifies list
    ensures r == Ok(LogPublishBet(2, challenger, "Bet 2", 2))
    ensures At(list, referee, challenger, accepter, 2,
               map[1 := FirstBet(challenger), 2 := SecondBet(challenger)], [1, 2], {}, 3, -3, 0)
  {
    r := list.PublishBet(challenger, 2, "Bet 2", "Conditions for bet 2", 2);
  }

  /** Accepting bet 1: only bet 2 stays available, still two bets. */
  method AcceptFirst(list: BetList, referee: Addr, challenger: Addr, accepter: Addr) returns (r: Outcome)
    requires Parties(referee, challenger, accepter)
    requires At(list, referee, challenger, accepter, 2,
                map[1 := FirstBet(challenger), 2 := SecondBet(challenger)], [1, 2], {}, 3, -3, 0)
    modifies list
    ensures r == Ok(LogAcceptBet(1, challenger, accepter, "Bet 1", 1))
    ensures At(list, referee, challenger, accepter, 2,
               map[1 := FirstBet(challenger).(accepter := accepter), 2 := SecondBet(challenger)], [2], {}, 4, -3, -1)
  {
    r := list.AcceptBet(accepter, 1, 1);
    assert list.bets == old(list.bets)[1 := FirstBet(challenger).(accepter := accepter)];
  }

  /** Accepting bet 2: nothing stays available, still two bets. */
  method AcceptSecond(list: BetList, referee: Addr, challenger: Addr, accepter: Addr) returns (r: Outcome)
    requires Parties(referee, challenger, accepter)
    requires At(list, referee, challenger, accepter, 2,
                map[1 := FirstBet(challenger).(accepter := accepter), 2 := SecondBet(challenger)], [2], {}, 4, -3, -1)
    modifies list
    ensures r == Ok(LogAcceptBet(2, challenger, accepter, "Bet 2", 2))
    ensures At(list, referee, challenger, accepter, 2,
               map[1 := FirstBet(challenger).(accepter := accepter), 2 := SecondBet(challenger).(accepter := accepter)],
               [], {}, 6, -3, -3)
  {
    r := list.AcceptBet(accepter, 2, 2);
  }

  /** Resolving bet 1 for the challenger: payout 2 to the challenger; count
      and available list unchanged. */
  method ResolveFirst(list: BetList, referee: Addr, challenger: Addr, accepter: Addr) returns (r: Outcome)
    requires Parties(referee, challenger, accepter)
    requires At(list, referee, challenger, accepter, 2,
                map[1 := FirstBet(challenger).(accepter := accepter), 2 := SecondBet(challenger).(accepter := accepter)],
                [], {}, 6, -3, -3)
    modifies list
    ensures r == Ok(LogResolveBet(1, challenger, accepter, "Bet 1", 2))
    ensures At(list, referee, challenger, accepter, 2,
               map[1 := FirstBet(challenger).(accepter := accepter), 2 := SecondBet(challenger).(accepter := accepter)],
               [], {1}, 4, -1, -3)
  {
    r := list.ResolveBet(referee, 1, true);
    assert {} + {1} == {1};
  }

  /** Resolving bet 2 for the accepter: payout 4 to the accepter; count and
      available list unchanged, nothing left in escrow. */
  method ResolveSecond(list: BetList, referee: Addr, challenger: Addr, accepter: Addr) returns (r: Outcome)
    requires Parties(referee, challenger, accepter)
    requires At(list, referee, challenger, accepter, 2,
                map[1 := FirstBet(challenger).(accepter := accepter), 2 := SecondBet(challenger).(accepter := accepter)],
                [], {1}, 4, -1, -3)
    modifies list
    ensures r == Ok(LogResolveBet(2, challenger, accepter, "Bet 2", 4))
    ensures At(list, referee, challenger, accepter, 2,
               map[1 := FirstBet(challenger).(accepter := accepter), 2 := SecondBet(challenger).(accepter := accepter)],
               [], {1, 2}, 0, -1, 1)
  {
    r := list.ResolveBet(referee, 2, false);
    assert {1} + {2} == {1, 2};
  }

  /** The normal flow end to end: one challenger publishes bets of price 1
      and 2, one accepter takes both, the referee resolves the first for the
      challenger and the second for the accepter. Returns the final count, the
      final open list, and each party's net gain. */
  method NormalFlow(referee: Addr, challenger: Addr, accepter: Addr)
      returns (count: nat, open: seq<nat>, challengerGain: int, accepterGain: int)
    requires Parties(referee, challenger, accepter)
    ensures count == 2 && open == []
    ensures challengerGain == 2 - (1 + 2) && accepterGain == 4 - (1 + 2)
  {
    var list := new BetList(referee);
    var n := list.GetNumberOfBets();
    var ids := list.GetAvailableBets();
    assert n == 0 && ids == [];

    var r := PublishFirst(list, referee, challenger, accepter);
    n := list.GetNumberOfBets();
    ids := list.GetAvailableBets();
    var b := list.GetBet(ids[0]);
    assert n == 1 && ids == [1] && b == FirstBet(challenger);

    r := PublishSecond(list, referee, challenger, accepter);
    n := list.GetNumberOfBets();
    ids := list.GetAvailableBets();
    b := list.GetBet(ids[1]);
    assert n == 2 && ids == [1, 2] && b == SecondBet(challenger);

    r := AcceptFirst(list, referee, challenger, accepter);
    n := list.GetNumberOfBets();
    ids := list.GetAvailableBets();
    assert n == 2 && ids == [2];

    r := AcceptSecond(list, referee, challenger, accepter);
    n := list.GetNumberOfBets();
    ids := list.GetAvailableBets();
    assert n == 2 && ids == [];

    r := ResolveFirst(list, referee, challenger, accepter);
    n := list.GetNumberOfBets();
    ids := list.GetAvailableBets();
    assert n == 2 && ids == [];

    r := ResolveSecond(list, referee, challenger, accepter);
    count := list.GetNumberOfBets();
    open := list.GetAvailableBets();
    challengerGain, accepterGain := list.Balance(challenger), list.Balance(accepter);
  }

  /** The failure paths: each rejected call leaves bet 1 exactly as it was.
      The referee is also the account that tries the second acceptance.
      Returns the final count and the final record of bet 1. */
  method FailureFlow(referee: Addr, challenger: Addr, accepter: Addr)
      returns (count: nat, last: Bet)
    requires Parties(referee, challenger, accepter)
    ensures count == 1
    ensures last == Bet(1, challenger, accepter, "Bet 1", "Conditions for bet 1", 1)
  {
    var list := new BetList(referee);
    var published := FirstBet(challenger);

    // Accepting before anything is published fails; the count stays 0.
    var r := list.AcceptBet(accepter, 1, 1);
    var n := list.GetNumberOfBets();
    assert r == Fail(UnknownBet) && n == 0;

    // Accepting an id that does not exist fails; bet 1 is untouched.
    r := list.PublishBet(challenger, 1, "Bet 1", "Conditions for bet 1", 1);
    assert r.Ok?;
    r := list.AcceptBet(challenger, 1, 2);
    var b := list.GetBet(1);
    assert r == Fail(UnknownBet) && b == published;

    // The challenger accepting their own bet fails; bet 1 is untouched. The
    // suite's own test for this case never reaches this call: it throws on
    // an undefined variable first, so the call here is the one it intended.
    r := list.AcceptBet(challenger, 1, 1);
    b := list.GetBet(1);
    assert r == Fail(SelfAcceptance) && b == published;

    // Accepting with a stake of price + 1 fails; bet 1 is untouched.
    r := list.AcceptBet(accepter, 2, 1);
    b := list.GetBet(1);
    assert r == Fail(ValueMismatch) && b == published;

    // After a successful acceptance a second one fails; the first accepter stays.
    r := list.AcceptBet(accepter, 1, 1);
    assert r.Ok?;
    r := list.AcceptBet(referee, 1, 1);
    b := list.GetBet(1);
    assert r == Fail(AlreadyAccepted) && b == published.(accepter := accepter);

    // Resolution by the challenger instead of the referee fails; bet 1 is untouched.
    r := list.ResolveBet(challenger, 1, true);
    assert r == Fail(Unauthorized);

    count := list.GetNumberOfBets();
    last := list.GetBet(1);
  }

  /** Exactly-once resolution, after the first three steps of the normal
      flow: once bet 1 is paid out, resolving it again fails and changes
      nothing; resolving bet 2, which nobody accepted, fails too. Returns the
      outcomes of the two rejected calls and what the escrow still holds
      (bet 2's stake). */
  method ResolveOnceFlow(referee: Addr, challenger: Addr, accepter: Addr)
      returns (again: Outcome, unaccepted: Outcome, held: nat)
    requires Parties(referee, challenger, accepter)
    ensures again == Fail(AlreadyResolved) && unaccepted == Fail(NotYetAccepted)
    ensures held == 2
  {
    var list := new BetList(referee);
    var r := PublishFirst(list, referee, challenger, accepter);
    r := PublishSecond(list, referee, challenger, accepter);
    r := AcceptFirst(list, referee, challenger, accepter);
    r := list.ResolveBet(referee, 1, true);
    assert r.Ok? && list.escrow == 2;
    again := list.ResolveBet(referee, 1, true);
    unaccepted := list.ResolveBet(referee, 2, false);
    held := list.escrow;
  }
}
