/**
 * The persistent documents of the betting backend: users, games with their
 * six-line odds table, and bets. Ids stand for MongoDB ObjectIds and amounts
 * are exact reals.
 */
module Schema {
  import opened Results

  /** A document id (an ObjectId). */
  type Id = nat

  /** The two values the `role` enum admits. */
  datatype Role = UserRole | AdminRole

  /**
   * A user document. `userID` is the human-readable "BW-..." identifier,
   * absent until the document's first save.
   */
  datatype User = User(
    userID: Option<string>,
    email: string,
    password: string,
    name: string,
    phone: string,
    state: string,
    country: string,
    walletBalance: real,
    role: Role)

  /** The odds sub-document: one multiplier per outcome line. */
  datatype Odds = Odds(home: real, away: real, draw: real, GG: real, NG: real, correctScore: real)

  /** A game document. The start time is kept as the text the request sent. */
  datatype Game = Game(
    homeTeam: string,
    awayTeam: string,
    league: string,
    sportType: string,
    startTime: string,
    odds: Odds)

  /** The three values the bet `status` enum admits. */
  datatype BetStatus = Pending | Won | Lost

  /** A bet document; `potentialWin` is optional in the schema. */
  datatype Bet = Bet(
    user: Id,
    game: Id,
    selectedOutcome: string,
    stake: real,
    potentialWin: Option<real>,
    status: BetStatus)

  /** The outcome keys the odds sub-document defines. */
  const OutcomeKeys: set<string> := {"home", "away", "draw", "GG", "NG", "correctScore"}

  /** Looks `key` up in the odds table, as `game.odds[key]` does. */
  function OddsFor(odds: Odds, key: string): (r: Option<real>)
    ensures r.Some? <==> key in OutcomeKeys
    ensures key == "home" ==> r == Some(odds.home)
    ensures key == "away" ==> r == Some(odds.away)
    ensures key == "draw" ==> r == Some(odds.draw)
    ensures key == "GG" ==> r == Some(odds.GG)
    ensures key == "NG" ==> r == Some(odds.NG)
    ensures key == "correctScore" ==> r == Some(odds.correctScore)
  {
    if key == "home" then Some(odds.home)
    else if key == "away" then Some(odds.away)
    else if key == "draw" then Some(odds.draw)
    else if key == "GG" then Some(odds.GG)
    else if key == "NG" then Some(odds.NG)
    else if key == "correctScore" then Some(odds.correctScore)
    else None
  }

  /**
   * An outcome can be bet on when its odds value is truthy: present and
   * not zero. Negative odds are truthy and pass.
   */
  predicate Bettable(odds: Odds, key: string) {
    OddsFor(odds, key).Some? && OddsFor(odds, key).value != 0.0
  }
}
