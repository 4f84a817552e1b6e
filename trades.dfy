/** The trades endpoint: an authenticated caller lists their trades (GET),
    deletes one of them (DELETE), or executes a buy or sell at a live price
    (POST), which updates one user's wallet and portfolio in place and appends
    one record to the trade log. Token verification, the database and the
    price service are outside the model: the caller's identity, the user
    record found by id, the quoted price and the clock are parameters. */
module Trades {
  import opened Seqs
  import opened Holdings

  datatype Option<T> = None | Some(value: T)

  type UserId = nat
  type TradeId = nat

  /** One record of the trade log; `kind` is the request's `type` as given. */
  datatype Trade = Trade(id: TradeId, userId: UserId, symbol: string, quantity: real,
                         price: real, kind: string, timestamp: int)

  /** The three request kinds the handler serves; any other HTTP method gets no response. */
  datatype Request =
    | GetTrades
    | DeleteTrade(tradeId: Option<TradeId>)
    | PostTrade(symbol: string, quantity: real, kind: string)
    | OtherMethod

  datatype Response =
    | Unauthorized
    | Listed(trades: seq<Trade>)
    | MissingTradeId
    | TradeNotFound
    | TradeDeleted
    | PriceUnavailable
    | UserNotFound
    | InsufficientBalance
    | Executed(trade: Trade)
    | NoResponse

  /** The HTTP status that goes with each response (0: nothing is sent). */
  function StatusCode(r: Response): (code: int)
    ensures code == 0 <==> r.NoResponse?
    ensures 200 <= code < 300 <==> r.Listed? || r.TradeDeleted? || r.Executed?
    ensures code == 401 <==> r.Unauthorized?
    ensures code == 404 <==> r.TradeNotFound? || r.UserNotFound?
    ensures code == 400 <==> r.MissingTradeId? || r.PriceUnavailable? || r.InsufficientBalance?
  {
    match r
    case Unauthorized => 401
    case Listed(_) => 200
    case MissingTradeId => 400
    case TradeNotFound => 404
    case TradeDeleted => 200
    case PriceUnavailable => 400
    case UserNotFound => 404
    case InsufficientBalance => 400
    case Executed(_) => 201
    case NoResponse => 0
  }

  function Timestamp(t: Trade): real {
    t.timestamp as real
  }

  /** The listing query: records owned by the caller. */
  function OwnedBy(caller: UserId): Trade -> bool {
    (t: Trade) => t.userId == caller
  }

  /** The deletion query: the record with this id, owned by the caller. */
  function IdAndOwner(tradeId: TradeId, caller: UserId): Trade -> bool {
    (t: Trade) => t.id == tradeId && t.userId == caller
  }

  /** A user document: its wallet and portfolio are updated in place by a trade. */
  class User {
    const id: UserId
    var walletBalance: real
    var portfolio: seq<Position>

    /** The ledger invariant a trade preserves: a non-negative wallet and one
        entry per symbol. */
    ghost predicate Valid()
      reads this
    {
      walletBalance >= 0.0 && DistinctSymbols(portfolio)
    }

    constructor (id: UserId, walletBalance: real, portfolio: seq<Position>)
      ensures this.id == id && this.walletBalance == walletBalance && this.portfolio == portfolio
    {
      this.id := id;
      this.walletBalance := walletBalance;
      this.portfolio := portfolio;
    }

    /** The balance check, the wallet update and the portfolio update of a trade
        at a known price. Returns false, changing nothing, when a buy costs more
        than the wallet holds. */
    method ApplyTrade(symbol: string, quantity: real, kind: string, price: real) returns (accepted: bool)
      requires quantity > 0.0 && price > 0.0
      modifies this
      ensures accepted == Accepted(old(walletBalance), quantity, kind, price)
      ensures !accepted ==> walletBalance == old(walletBalance) && portfolio == old(portfolio)
      ensures accepted ==> walletBalance == WalletAfter(old(walletBalance), quantity, kind, price)
      ensures accepted ==> portfolio == Rebalanced(old(portfolio), symbol, quantity, kind, price)
      ensures old(Valid()) ==> Valid()
    {
      if IsBuy(kind) && walletBalance < quantity * price {
        return false;
      }
      ghost var wallet0, portfolio0 := walletBalance, portfolio;
      if IsBuy(kind) {
        walletBalance := walletBalance - quantity * price;
      } else {
        walletBalance := walletBalance + quantity * price;
      }
      var stockIndex := FindIndex(portfolio, BySymbol(symbol));
      if stockIndex == -1 {
        portfolio := portfolio + [Position(symbol, quantity, price)];
      } else {
        var stock := portfolio[stockIndex];
        if IsBuy(kind) {
          var total := stock.quantity + quantity;
          var average := if total == 0.0 then stock.averagePrice
                         else (stock.averagePrice * (total - quantity) + price * quantity) / total;
          portfolio := portfolio[stockIndex := stock.(quantity := total, averagePrice := average)];
          assert Bought(stock, quantity, price) == stock.(quantity := total, averagePrice := average);
          assert portfolio == portfolio0[stockIndex := Bought(stock, quantity, price)];
        } else {
          var left := stock.quantity - quantity;
          if left == 0.0 {
            portfolio := portfolio[..stockIndex] + portfolio[stockIndex + 1..];
            assert portfolio == RemoveAt(portfolio0, stockIndex);
          } else {
            portfolio := portfolio[stockIndex := stock.(quantity := left)];
          }
        }
      }
      accepted := true;
      WalletMoves(wallet0, quantity, kind, price);
      if DistinctSymbols(portfolio0) {
        RebalanceKeepsDistinct(portfolio0, symbol, quantity, kind, price);
      }
    }
  }

  /** The trade collection: records in insertion order, and the next fresh id. */
  class TradeLog {
    var trades: seq<Trade>
    var nextId: TradeId

    /** Every record has an id below `nextId`, and ids are pairwise distinct. */
    ghost predicate Valid()
      reads this
    {
      ValidFor(trades)
    }

    /** `Valid` of a given sequence of records with this log's `nextId`. */
    ghost predicate ValidFor(ts: seq<Trade>)
      reads this
    {
      && (forall i :: 0 <= i < |ts| ==> ts[i].id < nextId)
      && (forall i, j :: 0 <= i < j < |ts| ==> ts[i].id != ts[j].id)
    }

    constructor ()
      ensures Valid() && trades == [] && nextId == 0
    {
      trades := [];
      nextId := 0;
    }

    /** Record creation: appends one record with a fresh id and the given timestamp. */
    method Create(userId: UserId, symbol: string, quantity: real, price: real, kind: string, now: int)
      returns (t: Trade)
      requires Valid()
      modifies this
      ensures Valid()
      ensures t == Trade(old(nextId), userId, symbol, quantity, price, kind, now)
      ensures trades == old(trades) + [t]
      ensures nextId == old(nextId) + 1
      ensures forall i :: 0 <= i < |old(trades)| ==> old(trades)[i].id != t.id
    {
      t := Trade(nextId, userId, symbol, quantity, price, kind, now);
      trades := trades + [t];
      nextId := nextId + 1;
    }

    /** GET: the caller's own records, newest first. */
    function ListFor(caller: UserId): (r: seq<Trade>)
      reads this
      ensures forall i :: 0 <= i < |r| ==> r[i].userId == caller
      ensures forall i :: 0 <= i < |trades| && trades[i].userId == caller ==> trades[i] in r
      ensures multiset(r) == multiset(Filter(trades, OwnedBy(caller)))
      ensures IsSortedDesc(r, Timestamp)
    {
      var r := SortDesc(Filter(trades, OwnedBy(caller)), Timestamp);
      SortedFilterMembers(trades, OwnedBy(caller), Timestamp);
      assert forall t :: OwnedBy(caller)(t) <==> t.userId == caller;
      r
    }

    /** DELETE: removes the first record whose id and owner both match; reports
        a missing id or a record not found (someone else's, or absent) without
        changing the log. */
    method Delete(tradeId: Option<TradeId>, caller: UserId) returns (resp: Response)
      modifies this
      ensures nextId == old(nextId)
      ensures resp == MissingTradeId || resp == TradeNotFound || resp == TradeDeleted
      ensures tradeId.None? ==> resp == MissingTradeId
      ensures tradeId.Some? && resp != TradeDeleted ==> resp == TradeNotFound
      ensures tradeId.Some? ==>
        (resp == TradeDeleted <==>
           exists i :: 0 <= i < |old(trades)| && old(trades)[i].id == tradeId.value && old(trades)[i].userId == caller)
      ensures resp != TradeDeleted ==> trades == old(trades)
      ensures resp == TradeDeleted ==>
        exists i :: 0 <= i < |old(trades)| && old(trades)[i].id == tradeId.value
          && old(trades)[i].userId == caller && trades == RemoveAt(old(trades), i)
      ensures old(Valid()) ==> Valid()
      ensures old(Valid()) && tradeId.Some? ==>
        forall i :: 0 <= i < |trades| ==> !(trades[i].id == tradeId.value && trades[i].userId == caller)
    {
      if tradeId.None? {
        return MissingTradeId;
      }
      var i := FindIndex(trades, IdAndOwner(tradeId.value, caller));
      if i == -1 {
        forall j | 0 <= j < |trades| ensures !(trades[j].id == tradeId.value && trades[j].userId == caller) {
          assert !IdAndOwner(tradeId.value, caller)(trades[j]);
        }
        return TradeNotFound;
      }
      assert IdAndOwner(tradeId.value, caller)(trades[i]);
      ghost var before := trades;
      trades := RemoveAt(trades, i);
      resp := TradeDeleted;
      if ValidFor(before) {
        forall j | 0 <= j < |trades| ensures trades[j].id != tradeId.value {
          var j' := if j < i then j else j + 1;
          assert trades[j] == before[j'] && j' != i;
        }
      }
    }
  }

  /** POST: fetch the price first (failure stops before any change), then the
      user (absence stops before any change), then the balance check, the
      wallet and portfolio update, and finally one appended trade record. */
  method Post(log: TradeLog, user: User?, symbol: string, quantity: real, kind: string,
              quote: Option<real>, now: int)
    returns (resp: Response)
    requires log.Valid()
    requires quantity > 0.0
    requires quote.Some? ==> quote.value > 0.0
    modifies log, user
    ensures log.Valid()
    ensures quote.None? ==> resp == PriceUnavailable
    ensures quote.Some? && user == null ==> resp == UserNotFound
    ensures quote.Some? && user != null && !Accepted(old(user.walletBalance), quantity, kind, quote.value) ==>
      resp == InsufficientBalance
    ensures !resp.Executed? ==> log.trades == old(log.trades) && log.nextId == old(log.nextId)
    ensures !resp.Executed? && user != null ==>
      user.walletBalance == old(user.walletBalance) && user.portfolio == old(user.portfolio)
    ensures quote.Some? && user != null && Accepted(old(user.walletBalance), quantity, kind, quote.value) ==>
      && resp == Executed(Trade(old(log.nextId), user.id, symbol, quantity, quote.value, kind, now))
      && user.walletBalance == WalletAfter(old(user.walletBalance), quantity, kind, quote.value)
      && user.portfolio == Rebalanced(old(user.portfolio), symbol, quantity, kind, quote.value)
      && log.trades == old(log.trades) + [resp.trade]
    ensures user != null && old(user.Valid()) ==> user.Valid()
  {
    if quote.None? {
      return PriceUnavailable;
    }
    var price := quote.value;
    if user == null {
      return UserNotFound;
    }
    var accepted := user.ApplyTrade(symbol, quantity, kind, price);
    if !accepted {
      return InsufficientBalance;
    }
    var t := log.Create(user.id, symbol, quantity, price, kind, now);
    resp := Executed(t);
  }

  /** The whole handler: a missing or invalid token (`caller == None`) is refused
      before anything else; then the request is dispatched on its method. GET
      and DELETE touch only the trade log, never a wallet or a portfolio. */
  method Handle(log: TradeLog, user: User?, caller: Option<UserId>, req: Request,
                quote: Option<real>, now: int)
    returns (resp: Response)
    requires log.Valid()
    requires req.PostTrade? ==> req.quantity > 0.0
    requires quote.Some? ==> quote.value > 0.0
    requires user != null && caller.Some? ==> user.id == caller.value
    modifies log, user
    ensures log.Valid()
    ensures caller.None? <==> resp == Unauthorized
    ensures (caller.None? || !req.PostTrade?) && user != null ==>
      user.walletBalance == old(user.walletBalance) && user.portfolio == old(user.portfolio)
    ensures (caller.None? || req.GetTrades? || req.OtherMethod?) ==>
      log.trades == old(log.trades) && log.nextId == old(log.nextId)
    ensures caller.Some? && req.GetTrades? ==> resp == Listed(log.ListFor(caller.value))
    ensures caller.Some? && req.OtherMethod? ==> resp == NoResponse
    ensures caller.Some? && req.DeleteTrade? && req.tradeId.Some? ==>
      (resp == TradeDeleted <==>
         exists i :: 0 <= i < |old(log.trades)| && old(log.trades)[i].id == req.tradeId.value
           && old(log.trades)[i].userId == caller.value)
    ensures caller.Some? && req.DeleteTrade? && req.tradeId.None? ==> resp == MissingTradeId
    ensures caller.Some? && req.DeleteTrade? && resp != TradeDeleted ==> log.trades == old(log.trades)
    ensures caller.Some? && req.DeleteTrade? && resp == TradeDeleted ==>
      exists i :: 0 <= i < |old(log.trades)| && old(log.trades)[i].id == req.tradeId.value
        && old(log.trades)[i].userId == caller.value && log.trades == RemoveAt(old(log.trades), i)
    ensures caller.Some? && req.PostTrade? && quote.None? ==> resp == PriceUnavailable
    ensures caller.Some? && req.PostTrade? && quote.Some? && user == null ==> resp == UserNotFound
    ensures caller.Some? && req.PostTrade? && !resp.Executed? ==>
      log.trades == old(log.trades) && log.nextId == old(log.nextId)
    ensures caller.Some? && req.PostTrade? && !resp.Executed? && user != null ==>
      user.walletBalance == old(user.walletBalance) && user.portfolio == old(user.portfolio)
    ensures caller.Some? && req.PostTrade? && quote.Some? && user != null ==>
      (resp.Executed? <==> Accepted(old(user.walletBalance), req.quantity, req.kind, quote.value))
    ensures resp.Executed? ==>
      && req.PostTrade? && quote.Some? && user != null
      && (user.walletBalance == WalletAfter(old(user.walletBalance), req.quantity, req.kind, quote.value))
      && (user.portfolio == Rebalanced(old(user.portfolio), req.symbol, req.quantity, req.kind, quote.value))
    ensures (caller.Some? && req.PostTrade? && quote.Some? && user != null
             && !Accepted(old(user.walletBalance), req.quantity, req.kind, quote.value)) ==>
      resp == InsufficientBalance
    ensures caller.Some? && req.DeleteTrade? && req.tradeId.Some? && resp != TradeDeleted ==>
      resp == TradeNotFound
    ensures resp.Executed? ==>
      resp.trade == Trade(old(log.nextId), caller.value, req.symbol, req.quantity, quote.value, req.kind, now)
    ensures resp.Executed? ==>
      resp.trade.userId == caller.value && log.trades == old(log.trades) + [resp.trade]
  {
    if caller.None? {
      return Unauthorized;
    }
    match req
    case GetTrades =>
      resp := Listed(log.ListFor(caller.value));
    case DeleteTrade(tradeId) =>
      resp := log.Delete(tradeId, caller.value);
      assert resp != Unauthorized;
    case PostTrade(symbol, quantity, kind) =>
      resp := Post(log, user, symbol, quantity, kind, quote, now);
    case OtherMethod =>
      resp := NoResponse;
  }
}
