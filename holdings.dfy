/** The accounting rules that a POST to the trades endpoint applies to one
    user's cash balance and portfolio, stated as functions of the old values.
    Quantities and prices are exact reals (the source uses IEEE doubles). */
module Holdings {
  import opened Seqs

  /** One entry of `user.portfolio`. */
  datatype Position = Position(symbol: string, quantity: real, averagePrice: real)

  /** Only the exact string "buy" is a buy; every other `type` is handled as a sell. */
  predicate IsBuy(kind: string) {
    kind == "buy"
  }

  /** The search predicate "entry for this symbol" of the portfolio lookup. */
  function BySymbol(symbol: string): Position -> bool {
    (p: Position) => p.symbol == symbol
  }

  /** The symbols of a portfolio are pairwise distinct. */
  predicate DistinctSymbols(ps: seq<Position>) {
    forall i, j :: 0 <= i < j < |ps| ==> ps[i].symbol != ps[j].symbol
  }

  /** The balance check: a buy that costs more than the wallet holds is refused;
      a sell is never refused. */
  predicate Accepted(wallet: real, quantity: real, kind: string, price: real): (ok: bool)
    ensures !IsBuy(kind) ==> ok
    ensures IsBuy(kind) ==> (ok <==> WalletAfter(wallet, quantity, kind, price) >= 0.0)
  {
    !(IsBuy(kind) && wallet < quantity * price)
  }

  /** The wallet after an accepted trade: debited on a buy, credited otherwise. */
  function WalletAfter(wallet: real, quantity: real, kind: string, price: real): (w: real)
    ensures IsBuy(kind) ==> w + quantity * price == wallet
    ensures !IsBuy(kind) ==> w - quantity * price == wallet
  {
    if IsBuy(kind) then wallet - quantity * price else wallet + quantity * price
  }

  /** A held position after buying `quantity` more at `price`: the quantity is
      incremented first and the average is recomputed from the new quantity.
      When the new quantity is 0 (a negative holding bought back) the source
      divides by zero; the model keeps the old average there. */
  function Bought(s: Position, quantity: real, price: real): (b: Position)
    ensures b.symbol == s.symbol && b.quantity == s.quantity + quantity
    ensures b.quantity == 0.0 ==> b.averagePrice == s.averagePrice
  {
    var total := s.quantity + quantity;
    s.(quantity := total,
       averagePrice := if total == 0.0 then s.averagePrice
                       else (s.averagePrice * (total - quantity) + price * quantity) / total)
  }

  /** The portfolio after an accepted trade: an unknown symbol is appended (for a
      buy or a sell), a buy on a held symbol updates quantity and average, and a
      sell on a held symbol lowers the quantity and splices the entry out exactly
      when it reaches 0. */
  function Rebalanced(ps: seq<Position>, symbol: string, quantity: real, kind: string, price: real)
    : (r: seq<Position>)
    ensures |ps| - 1 <= |r| <= |ps| + 1
  {
    var i := FindIndex(ps, BySymbol(symbol));
    if i == -1 then ps + [Position(symbol, quantity, price)]
    else if IsBuy(kind) then ps[i := Bought(ps[i], quantity, price)]
    else
      var left := ps[i].quantity - quantity;
      if left == 0.0 then RemoveAt(ps, i) else ps[i := ps[i].(quantity := left)]
  }

  /** The balance check lets through exactly the trades that keep the wallet
      from going below 0 on a buy: a buy debits exactly `quantity * price` and
      leaves a non-negative wallet, anything else credits exactly that amount. */
  lemma WalletMoves(wallet: real, quantity: real, kind: string, price: real)
    requires quantity > 0.0 && price > 0.0
    requires Accepted(wallet, quantity, kind, price)
    ensures IsBuy(kind) ==> WalletAfter(wallet, quantity, kind, price) == wallet - quantity * price >= 0.0
    ensures !IsBuy(kind) ==> WalletAfter(wallet, quantity, kind, price) == wallet + quantity * price > wallet
    ensures wallet >= 0.0 ==> WalletAfter(wallet, quantity, kind, price) >= 0.0
  {
    assert quantity * price > 0.0;
  }

  /** A buy is refused exactly when the wallet is short; paying with the exact
      balance is accepted and empties the wallet. */
  lemma ExactBalanceAccepted(wallet: real, quantity: real, price: real)
    requires wallet == quantity * price
    ensures Accepted(wallet, quantity, "buy", price)
    ensures WalletAfter(wallet, quantity, "buy", price) == 0.0
  {
  }

  /** A symbol that is not held is appended at the end with the trade's price as
      its average, whether the trade is a buy or a sell; earlier entries are kept. */
  lemma {:induction false} RebalanceUnheld(ps: seq<Position>, symbol: string, quantity: real, kind: string, price: real)
    requires forall j :: 0 <= j < |ps| ==> ps[j].symbol != symbol
    ensures Rebalanced(ps, symbol, quantity, kind, price) == ps + [Position(symbol, quantity, price)]
  {
    assert forall j :: 0 <= j < |ps| ==> !BySymbol(symbol)(ps[j]);
  }

  /** A buy on the held symbol at `i` (its first occurrence) adds the quantity,
      sets the weighted-average cost (oldAvg * oldQ + price * q) / (oldQ + q),
      and leaves every other entry as it was. */
  lemma {:induction false} RebalanceBuyHeld(ps: seq<Position>, symbol: string, quantity: real, price: real, i: nat)
    requires i < |ps| && ps[i].symbol == symbol
    requires forall j :: 0 <= j < i ==> ps[j].symbol != symbol
    requires ps[i].quantity + quantity != 0.0
    ensures var r := Rebalanced(ps, symbol, quantity, "buy", price);
      && |r| == |ps|
      && r[i].symbol == symbol
      && r[i].quantity == ps[i].quantity + quantity
      && r[i].averagePrice == (ps[i].averagePrice * ps[i].quantity + price * quantity) / (ps[i].quantity + quantity)
      && forall j :: 0 <= j < |ps| && j != i ==> r[j] == ps[j]
  {
    assert forall j :: 0 <= j < i ==> !BySymbol(symbol)(ps[j]);
    assert BySymbol(symbol)(ps[i]);
    assert FindIndex(ps, BySymbol(symbol)) == i;
  }

  /** When the held quantity is not negative, the new average of a buy lies
      between the old average and the trade's price. */
  lemma BuyAverageBetween(s: Position, quantity: real, price: real)
    requires s.quantity >= 0.0 && quantity > 0.0
    ensures var a := Bought(s, quantity, price).averagePrice;
      (s.averagePrice <= a <= price) || (price <= a <= s.averagePrice)
  {
    var total := s.quantity + quantity;
    var w := quantity / total;
    assert 0.0 < w <= 1.0;
    var a := Bought(s, quantity, price).averagePrice;
    calc {
      a;
      (s.averagePrice * s.quantity + price * quantity) / total;
      (s.averagePrice * (total - quantity) + price * quantity) / total;
      s.averagePrice + (price - s.averagePrice) * w;
    }
    var d := price - s.averagePrice;
    assert a == s.averagePrice + d * w;
    if d >= 0.0 {
      MulNonneg(d, w);
      MulNonneg(d, 1.0 - w);
    } else {
      MulNonneg(-d, w);
      MulNonneg(-d, 1.0 - w);
    }
    assert d * w == d - d * (1.0 - w);
  }

  lemma MulNonneg(a: real, b: real)
    requires a >= 0.0 && b >= 0.0
    ensures a * b >= 0.0
  {
  }

  /** On a negative holding the weighted-average rule can leave the range: holding
      -5 at 10 and buying 10 at 20 gives an average of 30, above both prices. */
  lemma NegativeHoldingAverageOutside()
    ensures var a := Bought(Position("X", -5.0, 10.0), 10.0, 20.0).averagePrice;
      a == 30.0 && a > 10.0 && a > 20.0
  {
  }

  /** A sell on the held symbol at `i` (its first occurrence) lowers its quantity
      and keeps its average; the entry is spliced out exactly when the quantity
      reaches 0, keeping the order of the rest, and is kept otherwise, even with a
      negative quantity. */
  lemma {:induction false} RebalanceSellHeld(ps: seq<Position>, symbol: string, quantity: real, kind: string, price: real, i: nat)
    requires !IsBuy(kind)
    requires i < |ps| && ps[i].symbol == symbol
    requires forall j :: 0 <= j < i ==> ps[j].symbol != symbol
    ensures var r := Rebalanced(ps, symbol, quantity, kind, price);
      && (|r| == |ps| - 1 <==> ps[i].quantity == quantity)
      && (ps[i].quantity == quantity ==> r == ps[..i] + ps[i + 1..])
      && (ps[i].quantity != quantity ==>
            |r| == |ps|
            && r[i] == Position(symbol, ps[i].quantity - quantity, ps[i].averagePrice)
            && forall j :: 0 <= j < |ps| && j != i ==> r[j] == ps[j])
  {
    assert forall j :: 0 <= j < i ==> !BySymbol(symbol)(ps[j]);
    assert BySymbol(symbol)(ps[i]);
    assert FindIndex(ps, BySymbol(symbol)) == i;
  }

  /** Symbols that are pairwise distinct before a trade are still distinct after it. */
  lemma {:induction false} RebalanceKeepsDistinct(ps: seq<Position>, symbol: string, quantity: real, kind: string, price: real)
    requires DistinctSymbols(ps)
    ensures DistinctSymbols(Rebalanced(ps, symbol, quantity, kind, price))
  {
    var i := FindIndex(ps, BySymbol(symbol));
    var r := Rebalanced(ps, symbol, quantity, kind, price);
    if i == -1 {
      forall j | 0 <= j < |ps| ensures ps[j].symbol != symbol {
        assert !BySymbol(symbol)(ps[j]);
      }
    } else if IsBuy(kind) || ps[i].quantity - quantity != 0.0 {
      SameSymbolsDistinct(ps, r);
    } else {
      RemoveAtDistinct(ps, i);
    }
  }

  lemma SameSymbolsDistinct(ps: seq<Position>, r: seq<Position>)
    requires DistinctSymbols(ps)
    requires |r| == |ps| && forall j :: 0 <= j < |r| ==> r[j].symbol == ps[j].symbol
    ensures DistinctSymbols(r)
  {
  }

  lemma RemoveAtDistinct(ps: seq<Position>, i: nat)
    requires i < |ps| && DistinctSymbols(ps)
    ensures DistinctSymbols(RemoveAt(ps, i))
  {
    var r := RemoveAt(ps, i);
    forall j, k | 0 <= j < k < |r| ensures r[j].symbol != r[k].symbol {
      var j', k' := if j < i then j else j + 1, if k < i then k else k + 1;
      assert r[j] == ps[j'] && r[k] == ps[k'] && j' < k';
    }
  }

  /** A trade touches only the entry of its own symbol: every entry for another
      symbol is kept, and no entry for another symbol appears. */
  lemma {:induction false} RebalanceOthersUnchanged(ps: seq<Position>, symbol: string, quantity: real,
                                                    kind: string, price: real)
    ensures var r := Rebalanced(ps, symbol, quantity, kind, price);
      && (forall j :: 0 <= j < |ps| && ps[j].symbol != symbol ==> ps[j] in r)
      && (forall j :: 0 <= j < |r| && r[j].symbol != symbol ==> r[j] in ps)
  {
    var i := FindIndex(ps, BySymbol(symbol));
    var r := Rebalanced(ps, symbol, quantity, kind, price);
    if i == -1 {
      AppendOthersUnchanged(ps, Position(symbol, quantity, price), symbol, r);
    } else if IsBuy(kind) {
      UpdateOthersUnchanged(ps, i, Bought(ps[i], quantity, price), symbol, r);
    } else if ps[i].quantity - quantity != 0.0 {
      UpdateOthersUnchanged(ps, i, ps[i].(quantity := ps[i].quantity - quantity), symbol, r);
    } else {
      RemoveOthersUnchanged(ps, i, symbol, r);
    }
  }

  lemma RemoveOthersUnchanged(ps: seq<Position>, i: nat, symbol: string, r: seq<Position>)
    requires i < |ps| && ps[i].symbol == symbol && r == RemoveAt(ps, i)
    ensures forall j :: 0 <= j < |ps| && ps[j].symbol != symbol ==> ps[j] in r
    ensures forall j :: 0 <= j < |r| ==> r[j] in ps
  {
    forall j | 0 <= j < |ps| && ps[j].symbol != symbol ensures ps[j] in r {
      assert r[if j < i then j else j - 1] == ps[j];
    }
    forall j | 0 <= j < |r| ensures r[j] in ps {
      assert r[j] == ps[if j < i then j else j + 1];
    }
  }

  lemma AppendOthersUnchanged(ps: seq<Position>, p: Position, symbol: string, r: seq<Position>)
    requires p.symbol == symbol && r == ps + [p]
    ensures forall j :: 0 <= j < |ps| ==> ps[j] in r
    ensures forall j :: 0 <= j < |r| && r[j].symbol != symbol ==> r[j] in ps
  {
    forall j | 0 <= j < |ps| ensures ps[j] in r {
      assert r[j] == ps[j];
    }
  }

  lemma UpdateOthersUnchanged(ps: seq<Position>, i: nat, p: Position, symbol: string, r: seq<Position>)
    requires i < |ps| && ps[i].symbol == symbol && p.symbol == symbol && r == ps[i := p]
    ensures forall j :: 0 <= j < |ps| && ps[j].symbol != symbol ==> ps[j] in r
    ensures forall j :: 0 <= j < |r| && r[j].symbol != symbol ==> r[j] in ps
  {
    forall j | 0 <= j < |ps| && ps[j].symbol != symbol ensures ps[j] in r {
      assert r[j] == ps[j];
    }
  }

  /** A buy conserves cost: the new quantity times the new average equals the
      old quantity times the old average plus the quantity bought times the price,
      whenever the new quantity is not 0. */
  lemma BoughtKeepsCost(s: Position, quantity: real, price: real)
    requires s.quantity + quantity != 0.0
    ensures var b := Bought(s, quantity, price);
      b.quantity * b.averagePrice == s.quantity * s.averagePrice + quantity * price
  {
  }

  /** Buying 10 at 100 and then 10 at 200 of one symbol holds 20 at an average of 150. */
  lemma TwoBuysAverage()
    ensures Rebalanced(Rebalanced([], "ACME", 10.0, "buy", 100.0), "ACME", 10.0, "buy", 200.0)
            == [Position("ACME", 20.0, 150.0)]
  {
    var once := Rebalanced([], "ACME", 10.0, "buy", 100.0);
    assert once == [Position("ACME", 10.0, 100.0)];
    assert BySymbol("ACME")(once[0]);
  }

  /** Selling exactly the held quantity of a symbol leaves no entry for it,
      provided the portfolio has one entry per symbol. */
  lemma {:induction false} SellAllRemoves(ps: seq<Position>, symbol: string, kind: string, price: real, i: nat)
    requires !IsBuy(kind)
    requires DistinctSymbols(ps)
    requires i < |ps| && ps[i].symbol == symbol
    ensures forall j :: 0 <= j < |Rebalanced(ps, symbol, ps[i].quantity, kind, price)| ==>
      Rebalanced(ps, symbol, ps[i].quantity, kind, price)[j].symbol != symbol
  {
    RebalanceSellHeld(ps, symbol, ps[i].quantity, kind, price, i);
    var r := Rebalanced(ps, symbol, ps[i].quantity, kind, price);
    forall j | 0 <= j < |r| ensures r[j].symbol != symbol {
      var j' := if j < i then j else j + 1;
      assert r[j] == ps[j'] && j' != i;
    }
  }

  /** Selling exactly the held quantity of a one-entry portfolio empties it. */
  lemma SellAllExample(symbol: string, held: real, average: real, price: real)
    ensures Rebalanced([Position(symbol, held, average)], symbol, held, "sell", price) == []
  {
    assert BySymbol(symbol)(Position(symbol, held, average));
  }
}
