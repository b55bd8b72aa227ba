# BetWise wallet and bet placement, modelled in Dafny

This project models the money-handling core of the BetWise sports-betting
backend: user registration, wallet top-up, game creation and bet placement.
It also models the `BW-<yy><count>` user identifier minted when a user
document is first saved. Each HTTP handler becomes a pure transition over an
in-memory `Store`. The store holds users and games keyed by document id, the
bets in insertion order, the named counters, and the next fresh document id.
A handler returns a `Response`, which pairs the new store with either the
created or updated document or an `Error`. A failed request always hands
back the store it was given.

Modules, one per concern:

- `Results` (`results.dfy`): `Option` and `Result`.
- `Schema` (`schema.dfy`): the documents of `userModel.js`, `gameModel.js`
  and `betModel.js`, plus the odds lookup `game.odds[key]`.
- `UserIds` (`user_ids.dfy`): `String(n)`, `padStart(3, "0")`,
  `slice(-2)`, the per-year counter and the pre-save hook.
- `Ledger` (`ledger.dfy`): the `Store`, its invariant `Valid`, and the
  money totals (sum of wallet balances, sum of stakes).
- `Api` (`api.dfy`): the four handlers of `index.js`, with their guards in
  source order.
- `Properties` (`properties.dfy`): request sequences, invariant
  preservation, money conservation, the guard consequences and the worked
  scenarios.

Three behaviours of the code worth knowing:

- Placement has no positive-stake guard. `NegativeStakeCreditsWallet` shows
  what follows: a negative stake that passes the other guards is accepted
  and raises the balance.
- There is no settlement. Games carry no status or result, and no handler
  changes a bet's status, so every stored bet stays `Pending`.
- An odds value of 0 is accepted when a game is created, and rejected only
  at placement.

## Model

| member | source | states |
|---|---|---|
| Schema.OddsFor | gameModel.js:10-17 | the lookup yields a multiplier exactly for the six keys home, away, draw, GG, NG, correctScore (each its own field) and nothing for any other string |
| UserIds.DecimalString | userModel.js:56 | `String(n)` of a count is a non-empty run of decimal digits |
| UserIds.ParseDecimalString | userModel.js:56 | reading the decimal rendering of n gives n back |
| UserIds.Pad3Shape | userModel.js:56 | the padded count is all digits, at least 3 long, exactly 3 long iff the count is below 1000, left unpadded (the plain decimal rendering) from 1000 on, and reads back as the count |
| UserIds.YearSuffixDigits | userModel.js:47-48 | from year 10 on, the suffix is the tens digit then the units digit, and years a century apart share it |
| UserIds.Increment | userModel.js:50-54 | the named counter ends at its old value plus 1 (1 if it did not exist), the returned count is that value, and every other counter is untouched |
| UserIds.PreSave | userModel.js:45-60 | a new document gets userID "BW-" ++ yy ++ pad3(count) with the counter `user-<yy>` advanced by one; saving an existing document changes neither the document nor any counter |
| UserIds.FormatUserIdInjective | userModel.js:50-57 | for a fixed year, equal identifiers imply equal counts |
| UserIds.ParseFormatUserId | userModel.js:57 | an identifier minted in a year of two or more digits parses back to its year suffix and its count |
| Api.Register | index.js:27-65 | missing email or password, then an email already stored, then a password under 6 characters, first failure wins; success adds exactly one user under the fresh id with balance 0, role user, the hashed password, profile defaults " " and the next identifier of the year |
| Api.TopUp | index.js:93-113 | an unknown user fails with UserNotFound whatever the amount; then amount <= 0 fails; success raises only that user's balance by exactly the amount and changes nothing else |
| Api.AddGame | index.js:141-184 | the game is stored iff all five text fields are non-empty and all six odds keys are non-null (0 passes); the stored game carries the request's values under a fresh id |
| Api.PlaceBet | index.js:202-243 | guards in order user, game, truthy odds, balance < stake, first failure decides the error and leaves the store as given; success debits exactly the stake from that user only and appends exactly one pending bet with the request's user, game, outcome, stake and potentialWin = stake * odds |
| Properties.RegisterPreservesValid | index.js:50-59 | registration keeps the store invariant |
| Properties.TopUpPreservesValid | index.js:102-106 | a top-up keeps the store invariant, non-negative balances included |
| Properties.AddGamePreservesValid | index.js:165-174 | game creation keeps the store invariant |
| Properties.PlaceBetPreservesValid | index.js:212-232 | placement keeps the store invariant: each bet references a stored user and game, is pending, and carries stake * odds of a non-zero line |
| Properties.RunPreservesValid | index.js:27-243 | every sequence of requests keeps the store invariant |
| Properties.BalancesNeverNegative | index.js:215-219 | from an empty database no request sequence leaves a wallet negative, and every bet stays pending on a known user and game |
| Properties.TopUpConservesMoney | index.js:105 | a successful top-up raises the sum of all balances by exactly the amount |
| Properties.PlaceBetConservesMoney | index.js:219-232 | a successful placement lowers the sum of balances by exactly the stake, and balances plus stakes stay equal whether it succeeds or fails |
| Properties.RegisterConservesMoney | userModel.js:34 | a new user starts with an empty wallet, so the money held does not change |
| Properties.RunConservesMoney | index.js:93-243 | over any request sequence, balances plus stakes grow by exactly the sum of the successful top-ups |
| Properties.PlacementNeverOverdraws | index.js:215-219 | a successful placement leaves the wallet non-negative, whatever the sign of the stake |
| Properties.StakeOfWholeBalance | index.js:215-219 | a stake equal to the balance is accepted and leaves 0 |
| Properties.NegativeStakeCreditsWallet | index.js:215-219 | a negative stake that passes the other guards is accepted and increases the balance |
| Properties.UnknownOutcomeRejected | index.js:212-213 | an outcome outside the six odds keys fails with InvalidOutcome and leaves the store unchanged |
| Properties.ZeroOddsStoredButNotBettable | index.js:146-213 | a game whose home odds are 0 is created, yet a bet on "home" for it fails with InvalidOutcome |
| Properties.RegisteredIdentifier | userModel.js:50-57 | a registered user's identifier parses back to the year suffix and the counter value the registration reached |
| Properties.SuccessiveRegistrationsDistinctIds | userModel.js:50-57 | two successive registrations in the same year get different identifiers |
| Properties.SavingKeepsIdentifier | userModel.js:46 | saving an existing user in a top-up or a placement keeps its identifier and all counters |
| Properties.ScenarioPlaceBet | index.js:215-232 | balance 100, stake 40 on "home" at 2.5 gives balance 60 and one pending bet with potentialWin 100 |
| Properties.ScenarioInsufficient | index.js:215-216 | stake 500 against balance 60 fails with InsufficientBalance and changes nothing |
| Properties.ScenarioUnicorn | index.js:212-213 | outcome "unicorn" fails with InvalidOutcome before the balance is examined |

## Left out

- HTTP and Express: routing, JSON bodies, status codes and message texts. Each rejection is an `Error` variant instead.
- Persistence: MongoDB, `findById`, `save`, timestamps, `createdAt`. Each handler is one atomic step, so the window between saving the user and saving the bet (index.js:220 and 232) is not modelled.
- Listing and lookup routes (index.js:68-90, 187-194) and the login route (index.js:119-137). They change no state.
- Password hashing: bcrypt is passed in as an opaque function `hash`. The real hasher draws a fresh random salt on every call, so equal passwords need not give equal stored hashes; the model's single function over a whole request sequence does give them, and no property here depends on that.
- Clock: the full year read by the pre-save hook is a parameter. It is a `nat`, so negative years are not modelled.
- counter.js: the counter store is an abstract map from name to count. An absent counter is created holding 1, which assumes the schema's `default: 10` is not applied to a path that `$inc` creates under upsert.
- The uniqueness index on `userID` is not modelled. `SuccessiveRegistrationsDistinctIds` covers successive registrations in one year.
- Object ids: document ids are naturals handed out from `nextId`. Malformed id strings, which make the source throw a cast error, are not modelled.
- Numbers: amounts, stakes and odds are exact reals, not IEEE-754 doubles. `String(n)` is modelled for non-negative integers below the range where JavaScript switches to exponent notation.
- JavaScript dynamic typing: non-numeric `amount` or `stake`, non-string passwords, and prototype keys such as `"toString"` looked up in the odds object. Password length counts characters, not UTF-16 code units.
- Request fields that are present but null: `None` stands for a missing field. `null` and `undefined` fail the same guards; only the schema's `" "` defaults tell them apart.
- Date casting of `startTime`: the start time is kept as the text the request sent.
- Settlement, game status and game result: the code has none of them, so they are not modelled.
- Concurrency: lost updates on `walletBalance` between concurrent requests are not modelled.
