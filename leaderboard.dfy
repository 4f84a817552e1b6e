/** The leaderboard: every user is valued at cost (wallet plus the sum of
    quantity times average price over the portfolio), given a return on the
    fixed starting balance, and the entries are ranked by that return,
    highest first, ties in input order. */
module Leaderboard {
  import opened Seqs
  import opened Holdings

  /** Every user starts with 1,00,000 (rupees). */
  const InitialBalance: real := 100000.0

  /** The fields the query selects from a user document. */
  datatype UserSnapshot = UserSnapshot(name: string, walletBalance: real, portfolio: seq<Position>)

  datatype Entry = Entry(name: string, walletBalance: real, portfolio: seq<Position>,
                         totalValue: real, roi: real)

  /** The cost of one position. */
  function Worth(p: Position): real {
    p.quantity * p.averagePrice
  }

  /** The portfolio's worth as the source accumulates it: a left fold starting from 0. */
  function HoldingsValue(ps: seq<Position>): (v: real)
    ensures (forall j :: 0 <= j < |ps| ==> ps[j].quantity >= 0.0 && ps[j].averagePrice >= 0.0) ==> v >= 0.0
  {
    if |ps| == 0 then 0.0
    else
      assert forall j :: 0 <= j < |ps| - 1 ==> ps[..|ps| - 1][j] == ps[j];
      HoldingsValue(ps[..|ps| - 1]) + Worth(ps[|ps| - 1])
  }

  /** The sum of the positions' worth, first position first: the reference
      definition the fold is compared with. */
  function SumWorth(ps: seq<Position>): real {
    if |ps| == 0 then 0.0 else Worth(ps[0]) + SumWorth(ps[1..])
  }

  /** The return in percent on the starting balance. */
  function Roi(totalValue: real): (r: real)
    ensures r * 1000.0 == totalValue - InitialBalance
    ensures r > 0.0 <==> totalValue > InitialBalance
    ensures r == 0.0 <==> totalValue == InitialBalance
  {
    ((totalValue - InitialBalance) / InitialBalance) * 100.0
  }

  /** The entry built for one user. */
  function ToEntry(u: UserSnapshot): (e: Entry)
    ensures e.name == u.name && e.walletBalance == u.walletBalance && e.portfolio == u.portfolio
    ensures e.totalValue == u.walletBalance + SumWorth(u.portfolio)
    ensures e.roi * InitialBalance == (e.totalValue - InitialBalance) * 100.0
  {
    var totalValue := u.walletBalance + HoldingsValue(u.portfolio);
    HoldingsValueIsSum(u.portfolio);
    Entry(u.name, u.walletBalance, u.portfolio, totalValue, Roi(totalValue))
  }

  /** One entry per user, in the same order. */
  function Entries(users: seq<UserSnapshot>): (es: seq<Entry>)
    ensures |es| == |users|
    ensures forall i :: 0 <= i < |users| ==> es[i] == ToEntry(users[i])
  {
    if |users| == 0 then [] else [ToEntry(users[0])] + Entries(users[1..])
  }

  function RoiOf(e: Entry): real {
    e.roi
  }

  /** The entries sorted by a comparator on return, highest first; the sort is
      stable. */
  function Ranked(users: seq<UserSnapshot>): (r: seq<Entry>)
    ensures |r| == |users|
    ensures multiset(r) == multiset(Entries(users))
    ensures IsSortedDesc(r, RoiOf)
  {
    SortDesc(Entries(users), RoiOf)
  }

  lemma {:induction false} SumWorthAppend(ps: seq<Position>, p: Position)
    ensures SumWorth(ps + [p]) == SumWorth(ps) + Worth(p)
  {
    if |ps| > 0 {
      assert (ps + [p])[1..] == ps[1..] + [p];
      SumWorthAppend(ps[1..], p);
    }
  }

  /** Folding from the left gives the same sum as the reference definition. */
  lemma {:induction false} HoldingsValueIsSum(ps: seq<Position>)
    ensures HoldingsValue(ps) == SumWorth(ps)
  {
    if |ps| > 0 {
      var init := ps[..|ps| - 1];
      HoldingsValueIsSum(init);
      SumWorthAppend(init, ps[|ps| - 1]);
      assert init + [ps[|ps| - 1]] == ps;
    }
  }

  /** A user with no positions is worth exactly their wallet. */
  lemma EmptyPortfolioValue(u: UserSnapshot)
    requires u.portfolio == []
    ensures ToEntry(u).totalValue == u.walletBalance
  {
  }

  /** A user who still holds the starting balance and no positions has a return of exactly 0. */
  lemma StartingUserRoiZero(name: string)
    ensures ToEntry(UserSnapshot(name, InitialBalance, [])).roi == 0.0
  {
  }

  /** The return is positive exactly when the total value exceeds the starting
      balance, and it strictly grows with the total value. */
  lemma RoiOrder(v: real, w: real)
    ensures Roi(v) > 0.0 <==> v > InitialBalance
    ensures Roi(v) == 0.0 <==> v == InitialBalance
    ensures Roi(v) < Roi(w) <==> v < w
  {
  }

  /** Every ranked entry is the entry of one of the users, so name, wallet and
      portfolio are copied unchanged. */
  lemma RankedEntriesCopyUsers(users: seq<UserSnapshot>, i: nat)
    requires i < |Ranked(users)|
    ensures exists j :: 0 <= j < |users| && Ranked(users)[i] == ToEntry(users[j])
  {
    var r := Ranked(users);
    assert r[i] in multiset(Entries(users));
    var j :| 0 <= j < |users| && Entries(users)[j] == r[i];
  }

  /** Entries with equal return appear in the order of their users. */
  lemma RankedStable(users: seq<UserSnapshot>, k: real)
    ensures Filter(Ranked(users), HasKey(RoiOf, k)) == Filter(Entries(users), HasKey(RoiOf, k))
  {
    SortDescStable(Entries(users), RoiOf, k);
  }

  /** Of two users, the one with the larger total value never ranks below the other. */
  lemma RankedByTotalValue(users: seq<UserSnapshot>, i: nat, j: nat)
    requires i < j < |users|
    ensures Ranked(users)[i].totalValue >= Ranked(users)[j].totalValue
  {
    var r := Ranked(users);
    RankedEntriesCopyUsers(users, i);
    RankedEntriesCopyUsers(users, j);
    RoiOrder(r[j].totalValue, r[i].totalValue);
  }

  lemma {:induction false} SumWorthUpdate(ps: seq<Position>, i: nat, p: Position)
    requires i < |ps|
    ensures SumWorth(ps[i := p]) == SumWorth(ps) - Worth(ps[i]) + Worth(p)
  {
    if i > 0 {
      assert ps[i := p][1..] == ps[1..][i - 1 := p];
      SumWorthUpdate(ps[1..], i - 1, p);
    }
  }

  lemma {:induction false} SumWorthRemove(ps: seq<Position>, i: nat)
    requires i < |ps|
    ensures SumWorth(RemoveAt(ps, i)) == SumWorth(ps) - Worth(ps[i])
  {
    if i > 0 {
      assert RemoveAt(ps, i)[1..] == RemoveAt(ps[1..], i - 1);
      SumWorthRemove(ps[1..], i - 1);
    } else {
      assert RemoveAt(ps, 0) == ps[1..];
    }
  }

  /** The total value (wallet plus holdings at cost) of a user. */
  function Total(wallet: real, ps: seq<Position>): real {
    wallet + SumWorth(ps)
  }

  /** A buy moves cash into holdings at cost, so it never changes the total
      value: neither for a new symbol nor for a held one (unless it brings a
      negative holding back to exactly 0). */
  lemma BuyKeepsTotalValue(wallet: real, ps: seq<Position>, symbol: string, quantity: real, price: real)
    requires quantity > 0.0 && price > 0.0
    requires forall i :: 0 <= i < |ps| && ps[i].symbol == symbol ==> ps[i].quantity + quantity != 0.0
    ensures Total(WalletAfter(wallet, quantity, "buy", price), Rebalanced(ps, symbol, quantity, "buy", price))
            == Total(wallet, ps)
  {
    var i := FindIndex(ps, BySymbol(symbol));
    if i == -1 {
      SumWorthAppend(ps, Position(symbol, quantity, price));
    } else {
      var s := ps[i];
      var total := s.quantity + quantity;
      assert total != 0.0;
      var a := (s.averagePrice * (total - quantity) + price * quantity) / total;
      assert total * a == s.averagePrice * s.quantity + price * quantity;
      SumWorthUpdate(ps, i, Bought(s, quantity, price));
    }
  }

  /** A sell of a held symbol credits `quantity * price` and removes `quantity`
      shares valued at their average cost: the total value moves by the
      realised gain `quantity * (price - averagePrice)`, whether or not the
      entry is spliced out. */
  lemma {:induction false} SellHeldRealisesGain(wallet: real, ps: seq<Position>, symbol: string, quantity: real,
                                                kind: string, price: real, i: nat)
    requires !IsBuy(kind)
    requires i < |ps| && ps[i].symbol == symbol
    requires forall j :: 0 <= j < i ==> ps[j].symbol != symbol
    ensures Total(WalletAfter(wallet, quantity, kind, price), Rebalanced(ps, symbol, quantity, kind, price))
            == Total(wallet, ps) + quantity * (price - ps[i].averagePrice)
  {
    assert forall j :: 0 <= j < i ==> !BySymbol(symbol)(ps[j]);
    assert BySymbol(symbol)(ps[i]);
    assert FindIndex(ps, BySymbol(symbol)) == i;
    var left := ps[i].quantity - quantity;
    if left == 0.0 {
      SumWorthRemove(ps, i);
    } else {
      SumWorthUpdate(ps, i, ps[i].(quantity := left));
    }
  }

  /** A sell of a symbol that is not held is not refused: the wallet is credited
      and a position of the sold quantity is opened at the sale price, so the
      total value grows by twice the proceeds. */
  lemma SellUnheldDoublesProceeds(wallet: real, ps: seq<Position>, symbol: string, quantity: real,
                                  kind: string, price: real)
    requires !IsBuy(kind)
    requires forall j :: 0 <= j < |ps| ==> ps[j].symbol != symbol
    ensures Total(WalletAfter(wallet, quantity, kind, price), Rebalanced(ps, symbol, quantity, kind, price))
            == Total(wallet, ps) + 2.0 * quantity * price
  {
    RebalanceUnheld(ps, symbol, quantity, kind, price);
    SumWorthAppend(ps, Position(symbol, quantity, price));
  }

  /** Returns of 5, 20, 20 and -3 percent rank as the two 20s (in input order),
      then 5, then -3. */
  lemma RankingExample()
    ensures var a, b, c, d := UserSnapshot("a", 105000.0, []), UserSnapshot("b", 120000.0, []),
                              UserSnapshot("c", 120000.0, []), UserSnapshot("d", 97000.0, []);
      Ranked([a, b, c, d]) == [ToEntry(b), ToEntry(c), ToEntry(a), ToEntry(d)]
  {
    var a, b, c, d := UserSnapshot("a", 105000.0, []), UserSnapshot("b", 120000.0, []),
                      UserSnapshot("c", 120000.0, []), UserSnapshot("d", 97000.0, []);
    var ea, eb, ec, ed := ToEntry(a), ToEntry(b), ToEntry(c), ToEntry(d);
    assert ea.roi == 5.0 && eb.roi == 20.0 && ec.roi == 20.0 && ed.roi == -3.0;
    assert Entries([a, b, c, d]) == [ea, eb, ec, ed];
    SortFourExample(ea, eb, ec, ed);
  }

  lemma SortFourExample(ea: Entry, eb: Entry, ec: Entry, ed: Entry)
    requires ea.roi == 5.0 && eb.roi == 20.0 && ec.roi == 20.0 && ed.roi == -3.0
    ensures SortDesc([ea, eb, ec, ed], RoiOf) == [eb, ec, ea, ed]
  {
    SortThreeSorted(eb, ec, ed);
    InsertFourth(ea, eb, ec, ed);
    SortCons(ea, [eb, ec, ed], RoiOf);
    ConsLiterals(ea, eb, ec, ed);
  }

  lemma InsertFourth(ea: Entry, eb: Entry, ec: Entry, ed: Entry)
    requires ea.roi == 5.0 && eb.roi == 20.0 && ec.roi == 20.0 && ed.roi == -3.0
    ensures Insert(ea, [eb, ec, ed], RoiOf) == [eb, ec, ea, ed]
  {
    InsertThird(ea, ec, ed);
    InsertBehind(ea, eb, [ec, ed], RoiOf);
    ConsLiterals(eb, ec, ed, ea);
    ConsLiterals(eb, ec, ea, ed);
  }

  lemma InsertThird(ea: Entry, ec: Entry, ed: Entry)
    requires ea.roi == 5.0 && ec.roi == 20.0 && ed.roi == -3.0
    ensures Insert(ea, [ec, ed], RoiOf) == [ec, ea, ed]
  {
    InsertInFront(ea, [ed], RoiOf);
    InsertBehind(ea, ec, [ed], RoiOf);
    ConsLiterals(ea, ed, ed, ed);
    ConsLiterals(ec, ed, ed, ed);
    ConsLiterals(ec, ea, ed, ed);
  }

  lemma SortThreeSorted(eb: Entry, ec: Entry, ed: Entry)
    requires eb.roi == 20.0 && ec.roi == 20.0 && ed.roi == -3.0
    ensures SortDesc([eb, ec, ed], RoiOf) == [eb, ec, ed]
  {
    SortCons(ed, [], RoiOf);
    InsertInFront(ed, [], RoiOf);
    assert [ed] + [] == [ed];
    SortCons(ec, [ed], RoiOf);
    InsertInFront(ec, [ed], RoiOf);
    ConsLiterals(ec, ed, ed, ed);
    SortCons(eb, [ec, ed], RoiOf);
    InsertInFront(eb, [ec, ed], RoiOf);
    ConsLiterals(eb, ec, ed, ed);
  }

  /** Prepending to a short sequence literal gives the longer literal. */
  lemma ConsLiterals<T>(a: T, b: T, c: T, d: T)
    ensures [a] + [b] == [a, b]
    ensures [a] + [b, c] == [a, b, c]
    ensures [a] + [b, c, d] == [a, b, c, d]
  {
  }
}
