# BetList: a verified model of the bet-escrow contract

`BetList` is an escrow for peer-to-peer bets. A challenger publishes a bet
(name, conditions, price) and stakes the price. An accepter matches the stake.
The referee, who is the account that deployed the contract, then declares the
outcome, and the contract pays twice the price to the winner. The contract's
Solidity source is not part of this model. Its behaviour is reconstructed from
the two test suites that drive it:

- `test/BetListSuccess.js` covers the normal flow.
- `test/BetListExceptions.js` covers the failure paths.

Each suite deploys one instance and mutates it step by step, so the model is
imperative.

- `bets.dfy` (module `Bets`) holds the values:
  - an address (`Addr`, where 0 is the zero address);
  - the six-field record returned by the getter `bets(id)`;
  - the three log events and the failure kinds;
  - the functions that define the derived state. `OpenIds` is the list
    `getAvailableBets` must return. `Escrowed` is the value the contract must
    hold. `Without` removes an id from the open list.
  - lemmas about those functions.
- `store_invariant.dfy` (module `StoreInvariant`) holds the invariant of the
  store (`Consistent`) and one lemma per operation proving that the operation
  keeps the invariant.
- `bet_list.dfy` (module `BetListContract`) holds the class `BetList`.
  - Fields: the referee, the id counter `betCount`, the map `bets`, the
    ordered list `available`, the set `resolved`, the value in `escrow`, and a
    wallet ledger `balances`.
  - The three state-changing operations (`PublishBet`, `AcceptBet`,
    `ResolveBet`) and the three queries.
  - The sender and the attached value are explicit parameters.
  - Each operation either returns `Ok(event)` with its single event and all
    its effects, or returns `Fail(error)` and leaves every field unchanged.
- `scenarios.dfy` (module `Scenarios`) replays both suites against the class.
  Each state-changing step of the success suite has a method of its own. The
  first step, which reads the fresh deployment, is written inline in
  `NormalFlow`. Every assertion of the suites is proved from the operations'
  contracts.

A zero `accepter` means the bet is open, as the suites read it back
(test/BetListSuccess.js:70, test/BetListExceptions.js:49). Neither suite shows
how a payout is recorded, so the `resolved` set of paid-out ids is this model's
own choice. Any other published bet is accepted.

Each failure test of test/BetListExceptions.js chains `.then(assert.fail)`
into a handler that catches every error, including the one `assert.fail`
throws (lines 23-26, 41-44, 62-65, 83-86, 106-109, 127-130). So no test
requires its call to fail. Only the state read back afterwards can show a
rejection, and it does so for two guards: the stake must equal the price
(lines 79-95, the accepter stays empty) and a bet cannot be accepted twice
(lines 100-119, the first accepter stays). The following guards are part of
the model, but the suites give no evidence for them:

- An unknown bet cannot be accepted (`UnknownBet`). At lines 16-30 and 35-53 a
  successful `acceptBet` would leave the count and bet 1 as the tests read
  them.
- Only the referee may resolve (`Unauthorized`). At lines 123-139 a successful
  resolution by someone else would leave `bets(1)` as the test reads it.
- A challenger cannot accept their own bet. The test for this case at lines
  58-75 refers to an undefined variable at line 60. The resulting error is
  swallowed by the catch handler, so `acceptBet` is never called there.
- A bet that was not accepted cannot be resolved.
- A bet cannot be resolved twice.

## Model

| member | source | states |
|---|---|---|
| Bets.OpenIdsMembers | test/BetListSuccess.js:62-65 | the available list holds exactly the published ids whose accepter is empty, each once, in increasing (publish) order |
| Bets.WithoutMembers | test/BetListSuccess.js:144-147 | removing an id from the available list keeps exactly the other ids, and keeps an increasing list increasing |
| Bets.WithoutSnoc | test/BetListSuccess.js:144-147 | removing an id from a list that has one element appended is the same as removing it first and then appending, unless the appended element is that id |
| Bets.OpenIdsAgree | test/BetListSuccess.js:104-108 | the available list depends only on which published ids are open |
| Bets.OpenIdsPublish | test/BetListSuccess.js:104-108 | publishing bet n + 1 appends exactly n + 1 to the end of the available list |
| Bets.OpenIdsClose | test/BetListSuccess.js:144-150 | accepting bet k removes exactly k from the available list, and the other ids keep their order |
| Bets.EscrowedChange | test/BetListSuccess.js:140-142 | when only bet k's held value changes, the escrow total changes by exactly that difference |
| Bets.HeldWithinEscrowed | test/BetListSuccess.js:206-208 | the value held for any one bet is covered by the escrow total, so paying it out never draws on another bet's stake |
| StoreInvariant.PublishKeepsConsistent | test/BetListSuccess.js:36-75 | a publish with a fresh id (the count + 1), an open record and the stake added to the escrow keeps the store invariant |
| StoreInvariant.AcceptKeepsConsistent | test/BetListSuccess.js:122-152 | accepting an open bet by someone other than its challenger, with the second stake added to the escrow, keeps the invariant; the available list loses exactly that id |
| StoreInvariant.ResolveKeepsConsistent | test/BetListSuccess.js:189-217 | for an accepted, unresolved bet the escrow holds at least 2 × price; marking it resolved and taking 2 × price out keeps the invariant |
| BetListContract.RemoveId | test/BetListSuccess.js:144-147 | the loop that removes an accepted id from the stored list returns exactly `Without(ids, k)` |
| BetListContract.BetList.constructor | test/BetListSuccess.js:22-31 | a fresh deployment by the referee has no bets, an empty available list and nothing in escrow |
| BetListContract.BetList.PublishBet | test/BetListSuccess.js:36-75 | succeeds iff the stake equals the price, with id count + 1 (never used before); stores the record with an empty accepter, appends the id, adds the stake to the escrow, debits the caller, emits `LogPublishBet(id, challenger, name, price)`; on failure nothing changes |
| BetListContract.BetList.AcceptBet | test/BetListExceptions.js:16-119 | fails with `UnknownBet`, `AlreadyAccepted`, `SelfAcceptance` or `ValueMismatch`, in that order of checks, and then changes nothing; otherwise sets the accepter, removes only that id from the available list, keeps the count, adds the stake to the escrow, and emits `LogAcceptBet` |
| BetListContract.BetList.ResolveBet | test/BetListSuccess.js:189-249 | only the referee may resolve (`Unauthorized`), and only an existing (`UnknownBet`), accepted (`NotYetAccepted`), unresolved (`AlreadyResolved`) bet; on success pays 2 × price to the challenger if `challengerWins` and to the accepter otherwise; the records, the count and the available list are unchanged; emits `LogResolveBet` with payout 2 × price |
| BetListContract.BetList.GetNumberOfBets | test/BetListSuccess.js:59-61 | returns the count of bets ever published; the ids in use are exactly 1 up to the count |
| BetListContract.BetList.GetAvailableBets | test/BetListSuccess.js:62-65 | returns the stored list, which holds exactly the published bets with an empty accepter, in increasing id order |
| BetListContract.BetList.GetBet | test/BetListSuccess.js:66-73 | returns the stored record (under its own id, with a non-zero challenger), or the all-zero record for an id never published |
| Scenarios.PublishFirst | test/BetListSuccess.js:36-75 | first publish: event id 1, count 1, available [1], record stored with an empty accepter, escrow 1 |
| Scenarios.PublishSecond | test/BetListSuccess.js:79-118 | second publish: event id 2, count 2, available [1, 2], escrow 3 |
| Scenarios.AcceptFirst | test/BetListSuccess.js:122-152 | accepting bet 1: `LogAcceptBet` with both parties, available [2], count still 2 |
| Scenarios.AcceptSecond | test/BetListSuccess.js:156-185 | accepting bet 2: available empty, count still 2, escrow 6 |
| Scenarios.ResolveFirst | test/BetListSuccess.js:189-217 | resolving bet 1 for the challenger: payout 2 to the challenger, count and available list unchanged |
| Scenarios.ResolveSecond | test/BetListSuccess.js:221-249 | resolving bet 2 for the accepter: payout 4 to the accepter, count and available list unchanged, escrow 0 |
| Scenarios.NormalFlow | test/BetListSuccess.js:5-251 | the whole success suite: the final count is 2, nothing is available, the challenger nets 2 − 3 and the accepter nets 4 − 3 |
| Scenarios.FailureFlow | test/BetListExceptions.js:5-142 | the whole exception suite: every rejected call leaves bet 1 field-for-field unchanged, and the first accepter stays after a second accept attempt |
| Scenarios.ResolveOnceFlow | test/BetListSuccess.js:189-217 | after the first three steps of the normal flow, bet 1 is paid out as in the cited step; then the two guards with no evidence in the suites are exercised: resolving bet 1 again fails with `AlreadyResolved`, and resolving bet 2, which here nobody accepted, fails with `NotYetAccepted`; bet 2's stake of 2 stays in escrow |

## Left out

- Deployment, transport and test plumbing (`artifacts.require`, `deployed()`, promise chains, receipts, log transport). Each operation returns its event directly.
- Wallet balances are not measured through `web3.fromWei(...)` and gas is not modelled. Instead, the `balances` field records each account's exact net gain or loss caused by the contract.
- An account's funds are not checked against the stake it attaches. In the real system the node refuses such a transaction before the contract runs.
- Wei/ether conversion. `price` is a natural number in a single unit.
- Solidity's 256-bit unsigned values (the counter `betCount`, `price`, the payout `2 × price`, the escrow) are unbounded `nat`, so wrap-around is not modelled. It cannot arise in practice: every amount is bounded by the ether actually attached to a transaction.
- The outbound transfer of the payout is a ledger credit, not an external call, so reentrancy and failing transfers are not modelled. `ResolveBet` still records the resolution before it credits the winner.
- The contents of `name` and `conditions`. They are stored and echoed unchanged.
- Zero-price bets are accepted. No failure kind exists for a zero price, and the tests never publish one.
- Attaching value to `resolveBet` is not modelled. The operation takes no value parameter.
- BetListContract.BetList.PublishBet: requires a non-zero caller address. No transaction is ever sent from the zero address.
- BetListContract.BetList.AcceptBet: requires a non-zero caller address, for the same reason. The zero address marks an empty accepter.
- BetListContract.BetList.constructor: requires a non-zero referee address, for the same reason.
