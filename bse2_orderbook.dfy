/** `Orderbook` in BSE2: a pool's two sides, and the routing of cancels,
    taking orders, limit orders and orders deferred to the market's open
    or close. */
module Bse2Orderbook {
  import opened Basics
  import opened PriceLevels
  import opened Bse2Types
  import opened Bse2Lob
  import opened Bse2Walk
  import opened Bse2Take
  import opened Bse2Half

  /** A limit order at price `p` on side `side` crosses the spread: the
      opposite side has a best level and `p` reaches it (a bid at or above
      the best ask, an ask at or below the best bid). */
  predicate Crosses(side: Side, p: int, opp: seq<LobRow>) {
    |opp| > 0 && side.AtLeast(p, opp[0].0)
  }

  /** No order on side `side` reaches any order on the other side: with
      `side` the bids, every bid is below every ask. */
  ghost predicate Apart(side: Side, own: Dict<int, Order>, opp: Dict<int, Order>) {
    forall k, j :: k in own.vals && j in opp.vals ==> !side.AtLeast(own.vals[k].price, opp.vals[j].price)
  }

  /** Bids all below asks is the same as asks all above bids. */
  lemma ApartFlip(side: Side, own: Dict<int, Order>, opp: Dict<int, Order>)
    requires Apart(side, own, opp)
    ensures Apart(side.Opposite(), opp, own)
  {
  }

  /** A limit order that does not cross rests without reaching any order
      of the other side. */
  lemma RestApart(side: Side, own: Dict<int, Order>, opp: Dict<int, Order>, o: Order)
    requires Wf(opp) && KeyedById(opp) && Apart(side, own, opp)
    requires !Crosses(side, o.price, LobOf(side.Opposite(), opp))
    ensures Apart(side, Put(own, o.orderid, o), opp)
  {
    if |opp.keys| > 0 {
      FrontPriority(side.Opposite(), opp);
    } else {
      assert forall j :: j !in opp.vals;
    }
  }

  /** A taking order only deletes or shrinks orders of the side it takes
      from, so that side stays out of reach of the other. */
  lemma TakeApart(side: Side, own: Dict<int, Order>, opp: Dict<int, Order>,
                  taker: Order, poolId: string, time: real)
    requires Wf(opp) && KeyedById(opp) && Apart(side, own, opp)
    ensures Apart(side, own, Take(side.Opposite(), opp, taker, poolId, time).orders)
  {
    TakeKeptPrices(side.Opposite(), opp, taker, poolId, time);
  }

  class Orderbook {
    const idStr: string
    const bids: OrderbookHalf
    const asks: OrderbookHalf
    /** Last trade time, price and quantity: None, and nothing in the
        exchange writes them on a pool (`tape_update` writes the exchange's
        own). */
    const lastT: Option<real> := None
    const lastP: Option<int> := None
    const lastQ: Option<int> := None

    ghost predicate Valid()
      reads bids, asks
    {
      bids != asks && bids.bookType == Bid && asks.bookType == Ask
      && bids.Valid() && asks.Valid()
    }

    /** The side holding orders of type `s`. */
    function Half(s: Side): OrderbookHalf {
      if s == Bid then bids else asks
    }

    constructor(idStr: string, minPrice: int, maxPrice: int)
      ensures Valid() && fresh(bids) && fresh(asks)
      ensures this.idStr == idStr && bids.worstPrice == minPrice && asks.worstPrice == maxPrice
      ensures bids.orders == EmptyDict() && asks.orders == EmptyDict()
    {
      this.idStr := idStr;
      bids := new OrderbookHalf(Bid, minPrice);
      asks := new OrderbookHalf(Ask, maxPrice);
    }

    /** `add_lim_order`: add the order to its side, then overwrite that
        side's `best_price` with the first anonymised price, which is the
        best live price. */
    method AddLimOrder(order: Order)
      requires Valid()
      modifies Half(order.otype)
      ensures Valid()
      ensures Half(order.otype).orders == Put(old(Half(order.otype).orders), order.orderid, order)
      ensures var h := Half(order.otype);
              h.LobAnon() != [] && h.bestPrice == Some(h.LobAnon()[0].0)
              && forall k :: k in h.orders.vals ==> order.otype.AtLeast(h.bestPrice.value, h.orders.vals[k].price)
      ensures var h := Half(order.otype);
              |h.orders.keys| > 0 && h.Cached() == Repriced(order.otype, old(h.Cached()), h.orders)
    {
      if order.otype == Bid {
        bids.AddAndPrice(order);
      } else {
        asks.AddAndPrice(order);
      }
    }

    /** `process_order_CAN`: cancel on the side of the order's type; None
        where `book_CAN` exits. */
    method ProcessOrderCan(time: real, order: Order) returns (r: Option<Response>)
      requires Valid()
      modifies Half(order.otype)
      ensures Valid()
      ensures var h := Half(order.otype);
              (r.None? <==> order.orderid !in old(h.orders.vals))
              && (r.None? ==> h.orders == old(h.orders) && h.Cached() == old(h.Cached()))
              && (r.Some? ==>
                    h.orders == Remove(old(h.orders), order.orderid)
                    && h.Cached() == Recounted(order.otype, old(h.Cached()), h.orders)
                    && r.value == Response([ExchMsg(order.tid, order.orderid, Can, [], None, 0, 0)],
                                           [CanEvent(idStr, time, order.orderid, order.otype,
                                                     old(h.orders).vals[order.orderid].qty)]))
    {
      if order.otype == Bid {
        r := bids.BookCan(time, order, idStr);
      } else {
        r := asks.BookCan(time, order, idStr);
      }
    }

    /** `process_order_take`: a bid takes from the asks, an ask from the
        bids. */
    method ProcessOrderTake(time: real, order: Order) returns (r: Response)
      requires Valid()
      modifies Half(order.otype.Opposite())
      ensures Valid()
      ensures var h := Half(order.otype.Opposite());
              var t := Take(order.otype.Opposite(), old(h.orders), order, idStr, time);
              r == t.response && h.orders == t.orders
              && h.Cached() == Retaken(order.otype.Opposite(), old(h.Cached()), old(h.orders), order, idStr, time)
    {
      if order.otype == Bid {
        r := asks.BookTake(time, order, idStr);
      } else {
        r := bids.BookTake(time, order, idStr);
      }
    }

    /** `process_order_LIM`: a limit order that crosses the spread is
        re-styled IOC and taken from the other side (its unfilled part does
        not rest); any other is added to its own side, with no response. */
    method ProcessOrderLim(time: real, order: Order) returns (r: Option<Response>)
      requires Valid()
      modifies bids, asks
      ensures Valid()
      ensures var own := Half(order.otype);
              var opp := Half(order.otype.Opposite());
              (r.Some? <==> Crosses(order.otype, order.price, old(opp.Lob())))
              && (r.Some? ==>
                    var t := Take(order.otype.Opposite(), old(opp.orders), order.(ostyle := IOC), idStr, time);
                    r.value == t.response && opp.orders == t.orders && own.orders == old(own.orders)
                    && opp.Cached() == Retaken(order.otype.Opposite(), old(opp.Cached()), old(opp.orders), order.(ostyle := IOC), idStr, time)
                    && own.Cached() == old(own.Cached()))
              && (r.None? ==>
                    own.orders == Put(old(own.orders), order.orderid, order) && opp.orders == old(opp.orders)
                    && |own.orders.keys| > 0 && own.Cached() == Repriced(order.otype, old(own.Cached()), own.orders)
                    && opp.Cached() == old(opp.Cached()))
      ensures Apart(Bid, old(bids.orders), old(asks.orders)) ==> Apart(Bid, bids.orders, asks.orders)
    {
      ghost var b0, a0 := bids.orders, asks.orders;
      if order.otype == Bid {
        var lob := asks.Lob();
        if |lob| > 0 && order.price >= lob[0].0 {
          var resp := ProcessOrderTake(time, order.(ostyle := IOC));
          r := Some(resp);
          if Apart(Bid, b0, a0) {
            TakeApart(Bid, b0, a0, order.(ostyle := IOC), idStr, time);
          }
        } else {
          AddLimOrder(order);
          r := None;
          if Apart(Bid, b0, a0) {
            RestApart(Bid, b0, a0, order);
          }
        }
      } else {
        var lob := bids.Lob();
        if |lob| > 0 && order.price <= lob[0].0 {
          var resp := ProcessOrderTake(time, order.(ostyle := IOC));
          r := Some(resp);
          if Apart(Bid, b0, a0) {
            ApartFlip(Bid, b0, a0);
            TakeApart(Ask, a0, b0, order.(ostyle := IOC), idStr, time);
            ApartFlip(Ask, a0, bids.orders);
          }
        } else {
          AddLimOrder(order);
          r := None;
          if Apart(Bid, b0, a0) {
            ApartFlip(Bid, b0, a0);
            RestApart(Ask, a0, b0, order);
            ApartFlip(Ask, asks.orders, b0);
          }
        }
      }
    }

    /** `process_order_pending`: LOO and MOO orders wait for the open, LOC
        and MOC orders for the close, on the side of their type; any other
        style is fatal (false). No response either way. */
    method ProcessOrderPending(time: real, order: Order) returns (ok: bool)
      requires Valid()
      modifies Half(order.otype)
      ensures Valid()
      ensures ok <==> order.ostyle in {LOO, MOO, LOC, MOC}
      ensures var h := Half(order.otype);
              h.orders == old(h.orders) && h.bestPrice == old(h.bestPrice) && h.nOrders == old(h.nOrders)
              && h.onOpen == (if order.ostyle in {LOO, MOO} then old(h.onOpen) + [order] else old(h.onOpen))
              && h.onClose == (if order.ostyle in {LOC, MOC} then old(h.onClose) + [order] else old(h.onClose))
    {
      var h := if order.otype == Bid then bids else asks;
      if order.ostyle == LOO || order.ostyle == MOO {
        h.onOpen := h.onOpen + [order];
        ok := true;
      } else if order.ostyle == LOC || order.ostyle == MOC {
        h.onClose := h.onClose + [order];
        ok := true;
      } else {
        ok := false;
      }
    }
  }
}
