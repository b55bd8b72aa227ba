/**
 * Properties that relate several requests: the store invariant, money
 * conservation, and consequences of the placement guards.
 */
module Properties {
  import opened Results
  import opened Schema
  import opened UserIds
  import opened Ledger
  import opened Api

  /** One request to the backend; the clock's year travels with a registration. */
  datatype Request =
    | CreateUser(registration: Registration, year: nat)
    | AddMoney(userId: Id, amount: real)
    | CreateGame(input: GameInput)
    | Wager(bet: BetRequest)

  /** The store after handling one request. */
  function Step(st: Store, req: Request, hash: string -> string): Store {
    match req
    case CreateUser(reg, year) => Register(st, reg, year, hash).store
    case AddMoney(id, amount) => TopUp(st, id, amount).store
    case CreateGame(input) => AddGame(st, input).store
    case Wager(b) => PlaceBet(st, b).store
  }

  /** The store after handling the requests in order. */
  function Run(st: Store, reqs: seq<Request>, hash: string -> string): Store
    decreases |reqs|
  {
    if |reqs| == 0 then st else Run(Step(st, reqs[0], hash), reqs[1..], hash)
  }

  /** The money a request brings in from outside: the amount of a successful top-up. */
  function Deposit(st: Store, req: Request): real {
    match req
    case AddMoney(id, amount) => if TopUp(st, id, amount).result.Ok? then amount else 0.0
    case _ => 0.0
  }

  /** All money brought in by the requests, in order. */
  function Deposits(st: Store, reqs: seq<Request>, hash: string -> string): real
    decreases |reqs|
  {
    if |reqs| == 0 then 0.0 else Deposit(st, reqs[0]) + Deposits(Step(st, reqs[0], hash), reqs[1..], hash)
  }

  // ---------------------------------------------------------------------
  // The invariant is preserved
  // ---------------------------------------------------------------------

  lemma RegisterPreservesValid(st: Store, req: Registration, year: nat, hash: string -> string)
    requires Valid(st)
    ensures Valid(Register(st, req, year, hash).store)
  {
  }

  lemma TopUpPreservesValid(st: Store, userId: Id, amount: real)
    requires Valid(st)
    ensures Valid(TopUp(st, userId, amount).store)
  {
  }

  lemma AddGamePreservesValid(st: Store, input: GameInput)
    requires Valid(st)
    ensures Valid(AddGame(st, input).store)
  {
  }

  lemma PlaceBetPreservesValid(st: Store, req: BetRequest)
    requires Valid(st)
    ensures Valid(PlaceBet(st, req).store)
  {
    var r := PlaceBet(st, req);
    if r.result.Ok? {
      var st' := r.store;
      forall i | 0 <= i < |st'.bets|
        ensures st'.bets[i].user in st'.users && st'.bets[i].game in st'.games
        ensures BetMatchesGame(st'.bets[i], st'.games[st'.bets[i].game])
      {
        if i < |st.bets| {
          assert st'.bets[i] == st.bets[i];
        } else {
          var b := r.result.value;
          assert st'.bets[i] == b;
          assert b.stake * OddsFor(st'.games[b.game].odds, b.selectedOutcome).value
              == req.stake * OddsFor(st.games[req.gameId].odds, req.selectedOutcome).value;
          assert b.potentialWin == Some(b.stake * OddsFor(st'.games[b.game].odds, b.selectedOutcome).value);
          assert BetMatchesGame(b, st'.games[b.game]);
        }
      }
    }
  }

  lemma StepPreservesValid(st: Store, req: Request, hash: string -> string)
    requires Valid(st)
    ensures Valid(Step(st, req, hash))
  {
    match req
    case CreateUser(reg, year) => RegisterPreservesValid(st, reg, year, hash);
    case AddMoney(id, amount) => TopUpPreservesValid(st, id, amount);
    case CreateGame(input) => AddGamePreservesValid(st, input);
    case Wager(b) => PlaceBetPreservesValid(st, b);
  }

  /** Any sequence of requests keeps the store valid. */
  lemma {:induction false} RunPreservesValid(st: Store, reqs: seq<Request>, hash: string -> string)
    requires Valid(st)
    ensures Valid(Run(st, reqs, hash))
    decreases |reqs|
  {
    if |reqs| > 0 {
      StepPreservesValid(st, reqs[0], hash);
      RunPreservesValid(Step(st, reqs[0], hash), reqs[1..], hash);
    }
  }

  /**
   * Starting from an empty database, no request sequence ever leaves a
   * wallet negative, and every bet stays pending on a known user and game.
   */
  lemma BalancesNeverNegative(reqs: seq<Request>, hash: string -> string)
    ensures var st := Run(Empty, reqs, hash);
            && (forall id :: id in st.users ==> st.users[id].walletBalance >= 0.0)
            && (forall i :: 0 <= i < |st.bets| ==>
                  st.bets[i].user in st.users && st.bets[i].game in st.games && st.bets[i].status == Pending)
  {
    RunPreservesValid(Empty, reqs, hash);
  }

  // ---------------------------------------------------------------------
  // Money conservation
  // ---------------------------------------------------------------------

  /** Wallets plus stakes: every unit of money the system holds. */
  ghost function Holdings(st: Store): real {
    TotalBalance(st.users) + StakeSum(st.bets)
  }

  /** A top-up brings exactly its amount into the wallets. */
  lemma TopUpConservesMoney(st: Store, userId: Id, amount: real)
    ensures var r := TopUp(st, userId, amount);
            r.result.Ok? ==> TotalBalance(r.store.users) == TotalBalance(st.users) + amount
  {
    var r := TopUp(st, userId, amount);
    if r.result.Ok? {
      TotalAfterUpdate(st.users, userId, r.result.value);
    }
  }

  /** A placement moves exactly the stake out of the wallets and into the bets. */
  lemma PlaceBetConservesMoney(st: Store, req: BetRequest)
    ensures var r := PlaceBet(st, req);
            && (r.result.Ok? ==> TotalBalance(r.store.users) == TotalBalance(st.users) - req.stake)
            && Holdings(r.store) == Holdings(st)
  {
    var r := PlaceBet(st, req);
    if r.result.Ok? {
      TotalAfterUpdate(st.users, req.userId, r.store.users[req.userId]);
      StakeSumAppend(st.bets, r.result.value);
    }
  }

  /** A registration adds a user with an empty wallet, so the holdings stay put. */
  lemma RegisterConservesMoney(st: Store, req: Registration, year: nat, hash: string -> string)
    requires st.nextId !in st.users
    ensures Holdings(Register(st, req, year, hash).store) == Holdings(st)
  {
    var r := Register(st, req, year, hash);
    if r.result.Ok? {
      TotalAfterInsert(st.users, st.nextId, r.result.value);
    }
  }

  lemma StepConservesMoney(st: Store, req: Request, hash: string -> string)
    requires Valid(st)
    ensures Holdings(Step(st, req, hash)) == Holdings(st) + Deposit(st, req)
  {
    match req
    case CreateUser(reg, year) =>
      RegisterConservesMoney(st, reg, year, hash);
    case AddMoney(id, amount) =>
      TopUpConservesMoney(st, id, amount);
    case CreateGame(input) =>
    case Wager(b) =>
      PlaceBetConservesMoney(st, b);
  }

  /**
   * Over any request sequence, the money in wallets and stakes grows by
   * exactly the successful top-ups: nothing is created or lost elsewhere.
   */
  lemma {:induction false} RunConservesMoney(st: Store, reqs: seq<Request>, hash: string -> string)
    requires Valid(st)
    ensures Holdings(Run(st, reqs, hash)) == Holdings(st) + Deposits(st, reqs, hash)
    decreases |reqs|
  {
    if |reqs| > 0 {
      StepConservesMoney(st, reqs[0], hash);
      StepPreservesValid(st, reqs[0], hash);
      RunConservesMoney(Step(st, reqs[0], hash), reqs[1..], hash);
    }
  }

  // ---------------------------------------------------------------------
  // Placement guards
  // ---------------------------------------------------------------------

  /** Whatever the sign of the stake, a successful placement leaves the wallet non-negative. */
  lemma PlacementNeverOverdraws(st: Store, req: BetRequest)
    ensures var r := PlaceBet(st, req);
            r.result.Ok? ==> r.store.users[req.userId].walletBalance >= 0.0
  {
  }

  /** Staking the whole balance is accepted and empties the wallet. */
  lemma StakeOfWholeBalance(st: Store, req: BetRequest)
    requires req.userId in st.users && req.gameId in st.games
    requires Bettable(st.games[req.gameId].odds, req.selectedOutcome)
    requires req.stake == st.users[req.userId].walletBalance
    ensures var r := PlaceBet(st, req);
            r.result.Ok? && r.store.users[req.userId].walletBalance == 0.0
  {
  }

  /**
   * The stake's sign is never checked: a negative stake that passes the
   * other guards is accepted and credits the wallet.
   */
  lemma NegativeStakeCreditsWallet(st: Store, req: BetRequest)
    requires req.userId in st.users && req.gameId in st.games
    requires Bettable(st.games[req.gameId].odds, req.selectedOutcome)
    requires st.users[req.userId].walletBalance >= 0.0 && req.stake < 0.0
    ensures var r := PlaceBet(st, req);
            && r.result.Ok?
            && r.store.users[req.userId].walletBalance > st.users[req.userId].walletBalance
  {
  }

  /** An outcome outside the six odds keys is rejected before the balance is looked at. */
  lemma UnknownOutcomeRejected(st: Store, req: BetRequest)
    requires req.userId in st.users && req.gameId in st.games
    requires req.selectedOutcome !in OutcomeKeys
    ensures PlaceBet(st, req) == Response(st, Err(InvalidOutcome))
  {
  }

  /**
   * Odds of zero pass game creation (the guard only tests for null), but
   * no bet can then be placed on that line.
   */
  lemma ZeroOddsStoredButNotBettable(st: Store, input: GameInput, userId: Id, stake: real)
    requires GameComplete(input)
    requires input.odds.value.home == Some(0.0)
    requires userId in st.users
    ensures var added := AddGame(st, input);
            && added.result.Ok?
            && added.result.value.odds.home == 0.0
            && PlaceBet(added.store, BetRequest(userId, st.nextId, "home", stake)).result == Err(InvalidOutcome)
  {
    var added := AddGame(st, input);
    assert added.store.games[st.nextId] == added.result.value;
  }

  // ---------------------------------------------------------------------
  // Registration and identifiers
  // ---------------------------------------------------------------------

  /** A registered user's identifier carries the counter value the registration reached. */
  lemma RegisteredIdentifier(st: Store, req: Registration, year: nat, hash: string -> string)
    requires 10 <= year
    ensures var r := Register(st, req, year, hash);
            r.result.Ok? ==>
              && r.result.value.userID.Some?
              && ParseUserId(r.result.value.userID.value)
                 == Some((YearSuffix(year), r.store.counters[CounterName(year)]))
  {
    var r := Register(st, req, year, hash);
    if r.result.Ok? {
      ParseFormatUserId(year, r.store.counters[CounterName(year)]);
    }
  }

  /** Two successive registrations in the same year receive different identifiers. */
  lemma SuccessiveRegistrationsDistinctIds(st: Store, a: Registration, b: Registration, year: nat, hash: string -> string)
    ensures var r1 := Register(st, a, year, hash);
            var r2 := Register(r1.store, b, year, hash);
            r1.result.Ok? && r2.result.Ok? ==> r1.result.value.userID != r2.result.value.userID
  {
    var r1 := Register(st, a, year, hash);
    var r2 := Register(r1.store, b, year, hash);
    if r1.result.Ok? && r2.result.Ok? {
      var name := CounterName(year);
      assert r2.store.counters[name] == r1.store.counters[name] + 1;
      if r1.result.value.userID == r2.result.value.userID {
        FormatUserIdInjective(year, r1.store.counters[name], r2.store.counters[name]);
      }
    }
  }

  /** Saving an existing user (a top-up or a placement) never changes its identifier. */
  lemma SavingKeepsIdentifier(st: Store, userId: Id, amount: real, req: BetRequest)
    requires userId in st.users && req.userId in st.users
    ensures var r := TopUp(st, userId, amount);
            r.store.users[userId].userID == st.users[userId].userID && r.store.counters == st.counters
    ensures var r := PlaceBet(st, req);
            r.store.users[req.userId].userID == st.users[req.userId].userID && r.store.counters == st.counters
  {
  }

  // ---------------------------------------------------------------------
  // Worked scenarios
  // ---------------------------------------------------------------------

  /** A store with one user holding `balance` (id 0) and one game with the given odds (id 1). */
  function Fixture(balance: real, odds: Odds): Store {
    var u := User(Some("BW-25001"), "a@b.c", "h", " ", " ", " ", " ", balance, UserRole);
    var g := Game("A", "B", "L", "football", "2025-01-01", odds);
    Store(map[0 := u], map[1 := g], [], map["user-25" := 1], 2)
  }

  /** Balance 100, stake 40 on "home" at 2.5: balance 60, a pending bet paying 100. */
  lemma ScenarioPlaceBet()
    ensures var st := Fixture(100.0, Odds(2.5, 3.0, 3.2, 1.8, 1.9, 9.0));
            var r := PlaceBet(st, BetRequest(0, 1, "home", 40.0));
            && r.result.Ok?
            && r.store.users[0].walletBalance == 60.0
            && r.result.value.potentialWin == Some(100.0)
            && r.result.value.status == Pending
            && r.store.bets == [r.result.value]
  {
  }

  /** Stake 500 against a balance of 60 is refused and nothing changes. */
  lemma ScenarioInsufficient()
    ensures var st := Fixture(60.0, Odds(2.5, 3.0, 3.2, 1.8, 1.9, 9.0));
            PlaceBet(st, BetRequest(0, 1, "home", 500.0)) == Response(st, Err(InsufficientBalance))
  {
  }

  /** "unicorn" is refused as an invalid outcome, even with an unaffordable stake. */
  lemma ScenarioUnicorn()
    ensures var st := Fixture(60.0, Odds(2.5, 3.0, 3.2, 1.8, 1.9, 9.0));
            PlaceBet(st, BetRequest(0, 1, "unicorn", 500.0)) == Response(st, Err(InvalidOutcome))
  {
  }
}
