/**
 * The in-memory state the handlers act on, the money totals over it, and
 * the invariant every handler preserves.
 */
module Ledger {
  import opened Results
  import opened Schema

  /**
   * All collections at once: users and games keyed by document id, bets in
   * insertion order, the named counters, and the next fresh document id.
   */
  datatype Store = Store(
    users: map<Id, User>,
    games: map<Id, Game>,
    bets: seq<Bet>,
    counters: map<string, nat>,
    nextId: Id)

  const Empty: Store := Store(map[], map[], [], map[], 0)

  /** A stored bet agrees with its game: a bettable outcome, the frozen payout, still pending. */
  predicate BetMatchesGame(b: Bet, g: Game) {
    && Bettable(g.odds, b.selectedOutcome)
    && b.potentialWin == Some(b.stake * OddsFor(g.odds, b.selectedOutcome).value)
    && b.status == Pending
  }

  /** The invariant of a reachable store. */
  predicate Valid(st: Store) {
    && (forall id :: id in st.users ==> id < st.nextId)
    && (forall id :: id in st.games ==> id < st.nextId)
    && (forall id :: id in st.users ==> st.users[id].walletBalance >= 0.0)
    && (forall i :: 0 <= i < |st.bets| ==> st.bets[i].user in st.users && st.bets[i].game in st.games)
    && (forall i :: 0 <= i < |st.bets| ==> BetMatchesGame(st.bets[i], st.games[st.bets[i].game]))
  }

  // ---------------------------------------------------------------------
  // Money totals
  // ---------------------------------------------------------------------

  /** The sum of the wallet balances of the users whose ids are in `ks`. */
  ghost function BalanceSum(ks: set<Id>, users: map<Id, User>): real
    requires ks <= users.Keys
    decreases ks
  {
    if ks == {} then 0.0
    else
      var k :| k in ks;
      users[k].walletBalance + BalanceSum(ks - {k}, users)
  }

  /** All money held in wallets. */
  ghost function TotalBalance(users: map<Id, User>): real {
    BalanceSum(users.Keys, users)
  }

  /** All money staked on bets. */
  function StakeSum(bets: seq<Bet>): real {
    if |bets| == 0 then 0.0 else StakeSum(bets[..|bets| - 1]) + bets[|bets| - 1].stake
  }

  /** The sum does not depend on which key is taken out first. */
  lemma {:induction false} BalanceSumPick(ks: set<Id>, users: map<Id, User>, k: Id)
    requires ks <= users.Keys && k in ks
    ensures BalanceSum(ks, users) == users[k].walletBalance + BalanceSum(ks - {k}, users)
    decreases ks
  {
    var j :| j in ks && BalanceSum(ks, users) == users[j].walletBalance + BalanceSum(ks - {j}, users);
    if j != k {
      BalanceSumPick(ks - {j}, users, k);
      BalanceSumPick(ks - {k}, users, j);
      assert ks - {j} - {k} == ks - {k} - {j};
    }
  }

  /** The sum only reads the balances of the keys summed over. */
  lemma {:induction false} BalanceSumFrame(ks: set<Id>, a: map<Id, User>, b: map<Id, User>)
    requires ks <= a.Keys && ks <= b.Keys
    requires forall k :: k in ks ==> a[k].walletBalance == b[k].walletBalance
    ensures BalanceSum(ks, a) == BalanceSum(ks, b)
    decreases ks
  {
    if ks != {} {
      var k :| k in ks;
      BalanceSumPick(ks, a, k);
      BalanceSumPick(ks, b, k);
      BalanceSumFrame(ks - {k}, a, b);
    }
  }

  /** Replacing one user moves the total by exactly the change in that user's balance. */
  lemma TotalAfterUpdate(users: map<Id, User>, id: Id, u: User)
    requires id in users
    ensures TotalBalance(users[id := u]) == TotalBalance(users) - users[id].walletBalance + u.walletBalance
  {
    var users' := users[id := u];
    assert users'.Keys == users.Keys;
    BalanceSumPick(users.Keys, users, id);
    BalanceSumPick(users'.Keys, users', id);
    BalanceSumFrame(users.Keys - {id}, users, users');
  }

  /** Adding a user under a fresh id adds exactly that user's balance. */
  lemma TotalAfterInsert(users: map<Id, User>, id: Id, u: User)
    requires id !in users
    ensures TotalBalance(users[id := u]) == TotalBalance(users) + u.walletBalance
  {
    var users' := users[id := u];
    assert users'.Keys - {id} == users.Keys;
    BalanceSumPick(users'.Keys, users', id);
    BalanceSumFrame(users.Keys, users, users');
  }

  /** Appending a bet adds exactly its stake. */
  lemma StakeSumAppend(bets: seq<Bet>, b: Bet)
    ensures StakeSum(bets + [b]) == StakeSum(bets) + b.stake
  {
    assert (bets + [b])[..|bets|] == bets;
  }
}
