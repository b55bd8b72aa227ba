/**
 * The request handlers of the backend as pure transitions over a `Store`.
 * Each handler runs its guards in the source's order, the first failing
 * guard decides the error, and a failed request hands back the store it
 * was given.
 */
module Api {
  import opened Results
  import opened Schema
  import opened UserIds
  import opened Ledger

  /** The rejections the handlers can answer with. */
  datatype Error =
    | MissingCredentials   // the email or the password is absent or empty
    | UserAlreadyExists    // a stored user already has the email
    | PasswordTooShort     // the password has fewer than six characters
    | UserNotFound         // no user has the given id
    | AmountNotPositive    // a top-up amount of zero or less
    | MissingGameFields    // a game field or one of the six odds is missing
    | GameNotFound         // no game has the given id
    | InvalidOutcome       // the selected outcome has no non-zero odds
    | InsufficientBalance  // the wallet holds less than the stake

  /** The store after a request, and what the request answered. */
  datatype Response<+T> = Response(store: Store, result: Result<T, Error>)

  /** JavaScript truthiness of an optional string field: present and non-empty. */
  predicate Truthy(field: Option<string>) {
    field.Some? && field.value != ""
  }

  /** Whether some stored user already has this email. */
  predicate EmailTaken(users: map<Id, User>, email: string) {
    exists id :: id in users && users[id].email == email
  }

  // ---------------------------------------------------------------------
  // Registration
  // ---------------------------------------------------------------------

  /** The body of a registration request; `None` is a field the body left out. */
  datatype Registration = Registration(
    email: Option<string>,
    password: Option<string>,
    name: Option<string>,
    phone: Option<string>,
    state: Option<string>,
    country: Option<string>)

  /** The request passes every registration guard. */
  predicate CanRegister(users: map<Id, User>, req: Registration) {
    && Truthy(req.email)
    && Truthy(req.password)
    && !EmailTaken(users, req.email.value)
    && |req.password.value| >= 6
  }

  /**
   * Creates a user. `hash` stands for the password hasher and `year` for the
   * clock's full year when the new document is saved.
   */
  function Register(st: Store, req: Registration, year: nat, hash: string -> string): (r: Response<User>)
    ensures !Truthy(req.email) || !Truthy(req.password) ==> r.result == Err(MissingCredentials)
    ensures Truthy(req.email) && Truthy(req.password) && EmailTaken(st.users, req.email.value) ==>
              r.result == Err(UserAlreadyExists)
    ensures (Truthy(req.email) && Truthy(req.password) && !EmailTaken(st.users, req.email.value)
             && |req.password.value| < 6) ==> r.result == Err(PasswordTooShort)
    ensures r.result.Ok? <==> CanRegister(st.users, req)
    ensures r.result.Err? ==> r.store == st
    ensures r.result.Ok? ==>
              var u := r.result.value;
              && r.store.users == st.users[st.nextId := u]
              && r.store.games == st.games
              && r.store.bets == st.bets
              && r.store.nextId == st.nextId + 1
              && u.email == req.email.value
              && u.password == hash(req.password.value)
              && u.name == req.name.GetOr(" ")
              && u.phone == req.phone.GetOr(" ")
              && u.state == req.state.GetOr(" ")
              && u.country == req.country.GetOr(" ")
              && u.walletBalance == 0.0
              && u.role == UserRole
              && CounterName(year) in r.store.counters
              && u.userID == Some(FormatUserId(year, r.store.counters[CounterName(year)]))
              && r.store.counters[CounterName(year)]
                 == (if CounterName(year) in st.counters then st.counters[CounterName(year)] else 0) + 1
              && r.store.counters.Keys == st.counters.Keys + {CounterName(year)}
              && (forall n :: n in st.counters && n != CounterName(year) ==> r.store.counters[n] == st.counters[n])
  {
    if !Truthy(req.email) || !Truthy(req.password) then
      Response(st, Err(MissingCredentials))
    else if EmailTaken(st.users, req.email.value) then
      Response(st, Err(UserAlreadyExists))
    else if |req.password.value| < 6 then
      Response(st, Err(PasswordTooShort))
    else
      var newUser := User(None, req.email.value, hash(req.password.value),
                        req.name.GetOr(" "), req.phone.GetOr(" "),
                        req.state.GetOr(" "), req.country.GetOr(" "),
                        0.0, UserRole);
      var (saved, counters') := PreSave(newUser, true, st.counters, year);
      Response(st.(users := st.users[st.nextId := saved], counters := counters', nextId := st.nextId + 1),
               Ok(saved))
  }

  // ---------------------------------------------------------------------
  // Wallet top-up
  // ---------------------------------------------------------------------

  /** Adds `amount` to a user's wallet. */
  function TopUp(st: Store, userId: Id, amount: real): (r: Response<User>)
    ensures userId !in st.users ==> r.result == Err(UserNotFound)
    ensures userId in st.users && amount <= 0.0 ==> r.result == Err(AmountNotPositive)
    ensures r.result.Ok? <==> userId in st.users && amount > 0.0
    ensures r.result.Err? ==> r.store == st
    ensures r.result.Ok? ==>
              && r.store == st.(users := st.users[userId := r.result.value])
              && r.result.value.walletBalance == st.users[userId].walletBalance + amount
              && r.result.value == st.users[userId].(walletBalance := r.result.value.walletBalance)
  {
    if userId !in st.users then
      Response(st, Err(UserNotFound))
    else if amount <= 0.0 then
      Response(st, Err(AmountNotPositive))
    else
      var u := st.users[userId];
      var (saved, counters') := PreSave(u.(walletBalance := u.walletBalance + amount), false, st.counters, 0);
      Response(st.(users := st.users[userId := saved], counters := counters'), Ok(saved))
  }

  // ---------------------------------------------------------------------
  // Game creation
  // ---------------------------------------------------------------------

  /** The odds object of a request; `None` is a key that is null or missing. */
  datatype OddsInput = OddsInput(
    home: Option<real>,
    away: Option<real>,
    draw: Option<real>,
    GG: Option<real>,
    NG: Option<real>,
    correctScore: Option<real>)

  /** The body of a game-creation request. */
  datatype GameInput = GameInput(
    homeTeam: Option<string>,
    awayTeam: Option<string>,
    league: Option<string>,
    sportType: Option<string>,
    startTime: Option<string>,
    odds: Option<OddsInput>)

  /** Every odds key is present (compared with `== null`, so 0 passes). */
  predicate OddsComplete(o: OddsInput) {
    o.home.Some? && o.away.Some? && o.draw.Some? && o.GG.Some? && o.NG.Some? && o.correctScore.Some?
  }

  /** Every field the game-creation guard demands is there. */
  predicate GameComplete(g: GameInput) {
    && Truthy(g.homeTeam)
    && Truthy(g.awayTeam)
    && Truthy(g.league)
    && Truthy(g.sportType)
    && Truthy(g.startTime)
    && g.odds.Some?
    && OddsComplete(g.odds.value)
  }

  /** Stores a new game under a fresh id. */
  function AddGame(st: Store, input: GameInput): (r: Response<Game>)
    ensures r.result.Ok? <==> GameComplete(input)
    ensures !GameComplete(input) ==> r.result == Err(MissingGameFields)
    ensures r.result.Err? ==> r.store == st
    ensures r.result.Ok? ==>
              var g := r.result.value;
              && r.store == st.(games := st.games[st.nextId := g], nextId := st.nextId + 1)
              && g.homeTeam == input.homeTeam.value
              && g.awayTeam == input.awayTeam.value
              && g.league == input.league.value
              && g.sportType == input.sportType.value
              && g.startTime == input.startTime.value
              && g.odds.home == input.odds.value.home.value
              && g.odds.away == input.odds.value.away.value
              && g.odds.draw == input.odds.value.draw.value
              && g.odds.GG == input.odds.value.GG.value
              && g.odds.NG == input.odds.value.NG.value
              && g.odds.correctScore == input.odds.value.correctScore.value
  {
    if !GameComplete(input) then
      Response(st, Err(MissingGameFields))
    else
      var o := input.odds.value;
      var g := Game(input.homeTeam.value, input.awayTeam.value, input.league.value,
                    input.sportType.value, input.startTime.value,
                    Odds(o.home.value, o.away.value, o.draw.value, o.GG.value, o.NG.value, o.correctScore.value));
      Response(st.(games := st.games[st.nextId := g], nextId := st.nextId + 1), Ok(g))
  }

  // ---------------------------------------------------------------------
  // Bet placement
  // ---------------------------------------------------------------------

  /** The body of a bet-placement request. The stake is not checked for sign. */
  datatype BetRequest = BetRequest(userId: Id, gameId: Id, selectedOutcome: string, stake: real)

  /** The request passes every placement guard. */
  predicate CanPlace(st: Store, req: BetRequest) {
    && req.userId in st.users
    && req.gameId in st.games
    && Bettable(st.games[req.gameId].odds, req.selectedOutcome)
    && st.users[req.userId].walletBalance >= req.stake
  }

  /** Debits the stake and records a pending bet carrying its potential win. */
  function PlaceBet(st: Store, req: BetRequest): (r: Response<Bet>)
    ensures req.userId !in st.users ==> r.result == Err(UserNotFound)
    ensures req.userId in st.users && req.gameId !in st.games ==> r.result == Err(GameNotFound)
    ensures (req.userId in st.users && req.gameId in st.games
             && !Bettable(st.games[req.gameId].odds, req.selectedOutcome)) ==> r.result == Err(InvalidOutcome)
    ensures (req.userId in st.users && req.gameId in st.games
             && Bettable(st.games[req.gameId].odds, req.selectedOutcome)
             && st.users[req.userId].walletBalance < req.stake) ==> r.result == Err(InsufficientBalance)
    ensures r.result.Ok? <==> CanPlace(st, req)
    ensures r.result.Err? ==> r.store == st
    ensures r.result.Ok? ==>
              var u := st.users[req.userId];
              var b := r.result.value;
              && r.store.bets == st.bets + [b]
              && r.store.users == st.users[req.userId := u.(walletBalance := u.walletBalance - req.stake)]
              && r.store.games == st.games
              && r.store.counters == st.counters
              && r.store.nextId == st.nextId
              && b.user == req.userId
              && b.game == req.gameId
              && b.selectedOutcome == req.selectedOutcome
              && b.stake == req.stake
              && b.status == Pending
              && b.potentialWin == Some(req.stake * OddsFor(st.games[req.gameId].odds, req.selectedOutcome).value)
  {
    if req.userId !in st.users then
      Response(st, Err(UserNotFound))
    else if req.gameId !in st.games then
      Response(st, Err(GameNotFound))
    else
      var odds := OddsFor(st.games[req.gameId].odds, req.selectedOutcome);
      if odds.None? || odds.value == 0.0 then
        Response(st, Err(InvalidOutcome))
      else
        var u := st.users[req.userId];
        if u.walletBalance < req.stake then
          Response(st, Err(InsufficientBalance))
        else
          var (saved, counters') := PreSave(u.(walletBalance := u.walletBalance - req.stake), false, st.counters, 0);
          var bet := Bet(req.userId, req.gameId, req.selectedOutcome, req.stake, Some(req.stake * odds.value), Pending);
          assert req.stake * odds.value == req.stake * OddsFor(st.games[req.gameId].odds, req.selectedOutcome).value;
          Response(st.(users := st.users[req.userId := saved], bets := st.bets + [bet], counters := counters'),
                   Ok(bet))
  }
}
