/** The exchange of the threaded lineage (`Orderbook` and `Exchange` in
    tbse_exchange.py): two book sides, the tape and the quote id counter. An
    arriving order is stored on its side and, when it crosses the best price
    on the other side, one trade is struck at that price and the best order
    of each side is deleted. */
module Bse1Exchange {
  import opened Basics
  import opened PriceLevels
  import opened Bse1Book

  /** A record on the tape. Trade: `party1` is the resting counterparty,
      `party2` the trader whose order arrived, `coid` and `counter` their
      customer order ids. */
  datatype TapeEvent =
    | Cancel(time: real, order: Order)
    | Trade(time: real, price: int, party1: string, party2: string, qty: int, coid: int, counter: int)

  /** What `publish_lob` exposes of one side. */
  datatype HalfView = HalfView(best: Option<int>, worst: int, n: int, lob: seq<(int, int)>)

  datatype LobView = LobView(time: real, bids: HalfView, asks: HalfView, qid: int, tape: seq<TapeEvent>)

  /** The result of `process_order2`, or the exception it raises. */
  datatype Processed = Processed(trade: Option<TapeEvent>, lob: LobView) | Crashed

  /** The exchange's state as values: both sides' orders, the tape and the
      next quote id. */
  datatype Market = Market(bids: Orders, asks: Orders, tape: seq<TapeEvent>, qid: int)

  ghost predicate Kept(m: Market) {
    Wf(m.bids) && Wf(m.asks) && KeyedByTid(m.bids) && KeyedByTid(m.asks)
  }

  function SideOf(m: Market, side: Side): Orders {
    if side == Bid then m.bids else m.asks
  }

  /** `add_order` on values: stamp the order with the next quote id and
      store it under its trader id on its side. */
  function Added(m: Market, order: Order): Market {
    var stamped := order.(toid := m.qid);
    if order.otype == Bid then m.(bids := Put(m.bids, order.tid, stamped), qid := m.qid + 1)
    else m.(asks := Put(m.asks, order.tid, stamped), qid := m.qid + 1)
  }

  /** `del_order` on values: drop the trader's order from its side and
      record the cancellation. */
  function Deleted(m: Market, time: real, order: Order): Market {
    var tape := m.tape + [Cancel(time, order)];
    if order.otype == Bid then m.(bids := Remove(m.bids, order.tid), tape := tape)
    else m.(asks := Remove(m.asks, order.tid), tape := tape)
  }

  /** The fields of `Added`, one by one. */
  lemma AddedFields(m: Market, order: Order)
    ensures Added(m, order)
            == Market(if order.otype == Bid then Put(m.bids, order.tid, order.(toid := m.qid)) else m.bids,
                      if order.otype == Ask then Put(m.asks, order.tid, order.(toid := m.qid)) else m.asks,
                      m.tape, m.qid + 1)
  {
  }

  lemma AddedKept(m: Market, order: Order)
    requires Kept(m)
    ensures Kept(Added(m, order))
  {
  }

  /** Both best prices exist and `b`, on `side`, is at least as good as
      `c` on the other side: the best bid is not below the best ask. */
  predicate CrossesAt(side: Side, b: Option<int>, c: Option<int>) {
    b.Some? && c.Some? && side.AtLeast(b.value, c.value)
  }

  lemma CrossedAs(side: Side, m: Market)
    requires Kept(m)
    ensures Crossed(m.bids, m.asks) <==>
              CrossesAt(side, BestPriceOf(side, SideOf(m, side)), BestPriceOf(side.Opposite(), SideOf(m, side.Opposite())))
  {
  }

  /** The trade `process_order2` records when the order just added crosses:
      at the other side's best price, against the first order there. */
  ghost function TradeOf(m1: Market, time: real, order: Order): TapeEvent
    requires Kept(m1) && Crossed(m1.bids, m1.asks)
  {
    var opp := order.otype.Opposite();
    var counter := SideOf(m1, opp);
    BestTidIsKey(opp, counter);
    BestPriceIsExtreme(opp, counter);
    var cp := BestTidOf(opp, counter).value;
    Trade(time, BestPriceOf(opp, counter).value, cp, order.tid, order.qty, order.coid, counter.vals[cp].coid)
  }

  /** `process_order2` on values; None where it raises. */
  ghost function Process(m: Market, time: real, order: Order): (r: Option<(Market, Option<TapeEvent>)>)
    requires Kept(m)
    ensures r.Some? ==> Kept(r.value.0) && r.value.0.qid == m.qid + 1
    ensures r.Some? ==> r.value.0.tape == m.tape + (if r.value.1.Some? then [r.value.1.value] else [])
  {
    AddedKept(m, order);
    Match(Added(m, order), time, order)
  }

  /** The matching step of `process_order2`, once `order` is on the book: if
      the sides cross, delete the best order of each side and record the
      trade; None where a deletion raises. */
  ghost function Match(m1: Market, time: real, order: Order): (r: Option<(Market, Option<TapeEvent>)>)
    requires Kept(m1)
    ensures r.Some? ==> Kept(r.value.0) && r.value.0.qid == m1.qid
    ensures r.Some? ==> r.value.0.tape == m1.tape + (if r.value.1.Some? then [r.value.1.value] else [])
  {
    if !Crossed(m1.bids, m1.asks) then Some((m1, None))
    else if DeleteCrashes(Bid, m1.bids) || DeleteCrashes(Ask, m1.asks) then None
    else
      BestPriceIsExtreme(Bid, m1.bids);
      BestPriceIsExtreme(Ask, m1.asks);
      BestTidIsKey(Bid, m1.bids);
      BestTidIsKey(Ask, m1.asks);
      var t := TradeOf(m1, time, order);
      var m2 := m1.(bids := Remove(m1.bids, BestTidOf(Bid, m1.bids).value),
                     asks := Remove(m1.asks, BestTidOf(Ask, m1.asks).value),
                     tape := m1.tape + [t]);
      Some((m2, Some(t)))
  }

  // ---- the uncrossed book ----

  /** A side that did not cross the other side's best price `c` before an
      order was stored on it, but does after: the stored order alone sets the
      new best price, and every other order on the side is strictly worse
      than `c`. */
  lemma IncomingSetsBest(side: Side, own0: Orders, o: Order, b0: Option<int>, b1: Option<int>, c: int)
    requires Wf(own0)
    requires IsBest(side, own0, b0) && IsBest(side, Put(own0, o.tid, o), b1)
    requires !CrossesAt(side, b0, Some(c)) && CrossesAt(side, b1, Some(c))
    ensures b1 == Some(o.price)
    ensures forall k :: k in Put(own0, o.tid, o).vals && k != o.tid ==>
              !side.AtLeast(Put(own0, o.tid, o).vals[k].price, c)
    ensures forall k :: k in Put(own0, o.tid, o).vals && k != o.tid ==>
              Put(own0, o.tid, o).vals[k].price != o.price
  {
    var own1 := Put(own0, o.tid, o);
    forall k | k in own1.vals && k != o.tid ensures !side.AtLeast(own1.vals[k].price, c) {
      assert k in own0.vals;
    }
    var k1 :| k1 in own1.vals && own1.vals[k1].price == b1.value;
    assert k1 == o.tid;
  }

  /** A side whose orders are all strictly worse than `c` does not cross a
      side whose orders are all at `c` or worse for that side. */
  lemma ApartAt(side: Side, own: Orders, counter: Orders, c: int, b: Option<int>, d: Option<int>)
    requires IsBest(side, own, b) && IsBest(side.Opposite(), counter, d)
    requires forall k :: k in own.vals ==> !side.AtLeast(own.vals[k].price, c)
    requires forall k :: k in counter.vals ==> side.Opposite().AtLeast(c, counter.vals[k].price)
    ensures !CrossesAt(side, b, d)
  {
  }

  /** The book `process_order2` keeps never crosses: from an uncrossed book
      whose orders are for positive quantities, any order is processed
      without raising and leaves the book uncrossed. An order that trades is
      consumed, at a price no worse than its own; one that does not rests on
      its side under its trader id. */
  lemma ProcessKeepsBookUncrossed(m: Market, time: real, order: Order)
    requires Kept(m) && !Crossed(m.bids, m.asks)
    requires PositiveQty(m.bids) && PositiveQty(m.asks) && order.qty >= 1
    ensures Process(m, time, order).Some?
    ensures var r := Process(m, time, order).value;
            !Crossed(r.0.bids, r.0.asks) && PositiveQty(r.0.bids) && PositiveQty(r.0.asks)
    ensures var r := Process(m, time, order).value;
            r.1.Some? ==>
              r.1.value.party2 == order.tid && order.tid !in SideOf(r.0, order.otype).vals
              && order.otype.AtLeast(order.price, r.1.value.price)
    ensures var r := Process(m, time, order).value;
            r.1.None? ==> Get(SideOf(r.0, order.otype), order.tid) == Some(order.(toid := m.qid))
  {
    AddedKept(m, order);
    if Crossed(Added(m, order).bids, Added(m, order).asks) {
      CrossingOrderTrades(m, time, order);
    }
  }

  /** The crossing case: both best orders are deleted without raising, the
      arriving one among them, and the sides no longer cross. */
  lemma CrossingOrderTrades(m: Market, time: real, order: Order)
    requires Kept(m) && !Crossed(m.bids, m.asks)
    requires PositiveQty(m.bids) && PositiveQty(m.asks) && order.qty >= 1
    requires Kept(Added(m, order)) && Crossed(Added(m, order).bids, Added(m, order).asks)
    ensures Process(m, time, order).Some?
    ensures var r := Process(m, time, order).value;
            !Crossed(r.0.bids, r.0.asks) && PositiveQty(r.0.bids) && PositiveQty(r.0.asks)
    ensures var r := Process(m, time, order).value;
            r.1.Some? && r.1.value.party2 == order.tid && order.tid !in SideOf(r.0, order.otype).vals
            && order.otype.AtLeast(order.price, r.1.value.price)
  {
    var side, opp := order.otype, order.otype.Opposite();
    var o := order.(toid := m.qid);
    var m1 := Added(m, order);
    var own0, counter := SideOf(m, side), SideOf(m, opp);
    var own1 := Put(own0, order.tid, o);
    assert SideOf(m1, side) == own1 && SideOf(m1, opp) == counter;
    CrossedAs(side, m);
    CrossedAs(side, m1);
    var c := BestPriceOf(opp, counter).value;
    OwnSideAfterCross(side, own0, o, c);
    var cp := CounterSideAfterCross(opp, counter, c);
    MatchCrossingShape(m1, time, order);
    var r := Process(m, time, order).value;
    assert SideOf(r.0, side) == Remove(own1, order.tid) && SideOf(r.0, opp) == Remove(counter, cp);
    StaysApart(side, Remove(own1, order.tid), Remove(counter, cp), c);
    CrossedAs(side, r.0);
  }

  /** On the arriving order's side: the order is the best trader id, the
      side's best order can be deleted, the order's price is at least as good
      as `c`, and what remains without it is strictly worse than `c`. */
  lemma OwnSideAfterCross(side: Side, own0: Orders, o: Order, c: int)
    requires Wf(own0) && KeyedByTid(own0) && PositiveQty(own0) && o.qty >= 1
    requires !CrossesAt(side, BestPriceOf(side, own0), Some(c))
    requires CrossesAt(side, BestPriceOf(side, Put(own0, o.tid, o)), Some(c))
    ensures BestTidOf(side, Put(own0, o.tid, o)) == Some(o.tid)
    ensures !DeleteCrashes(side, Put(own0, o.tid, o))
    ensures side.AtLeast(o.price, c)
    ensures forall k :: k in Remove(Put(own0, o.tid, o), o.tid).vals ==>
              !side.AtLeast(Remove(Put(own0, o.tid, o), o.tid).vals[k].price, c)
  {
    var own1 := Put(own0, o.tid, o);
    BestPriceIsExtreme(side, own0);
    BestPriceIsExtreme(side, own1);
    IncomingSetsBest(side, own0, o, BestPriceOf(side, own0), BestPriceOf(side, own1), c);
    SoleAtBest(side, own1, o.tid);
    NoCrashWhenPositive(side, own1);
  }

  /** On the other side, whose best price is `c`: its best order exists and
      can be deleted, and what remains is at `c` or worse. */
  lemma CounterSideAfterCross(side: Side, counter: Orders, c: int) returns (cp: string)
    requires Wf(counter) && KeyedByTid(counter) && PositiveQty(counter)
    requires BestPriceOf(side, counter) == Some(c)
    ensures BestTidOf(side, counter) == Some(cp) && cp in counter.vals
    ensures !DeleteCrashes(side, counter)
    ensures forall k :: k in Remove(counter, cp).vals ==> side.AtLeast(c, Remove(counter, cp).vals[k].price)
  {
    BestPriceIsExtreme(side, counter);
    BestTidIsKey(side, counter);
    NoCrashWhenPositive(side, counter);
    cp := BestTidOf(side, counter).value;
  }

  /** What remains on both sides after a trade at `c` does not cross. */
  lemma StaysApart(side: Side, own: Orders, counter: Orders, c: int)
    requires Wf(own) && Wf(counter)
    requires forall k :: k in own.vals ==> !side.AtLeast(own.vals[k].price, c)
    requires forall k :: k in counter.vals ==> side.Opposite().AtLeast(c, counter.vals[k].price)
    ensures !CrossesAt(side, BestPriceOf(side, own), BestPriceOf(side.Opposite(), counter))
  {
    BestPriceIsExtreme(side, own);
    BestPriceIsExtreme(side.Opposite(), counter);
    ApartAt(side, own, counter, c, BestPriceOf(side, own), BestPriceOf(side.Opposite(), counter));
  }

  /** When the arriving order crosses and neither best order's deletion
      raises, the matching step deletes both and records the trade. */
  lemma MatchCrossingShape(m1: Market, time: real, order: Order)
    requires Kept(m1) && Crossed(m1.bids, m1.asks)
    requires !DeleteCrashes(Bid, m1.bids) && !DeleteCrashes(Ask, m1.asks)
    ensures BestTidOf(Bid, m1.bids).Some? && BestTidOf(Ask, m1.asks).Some?
    ensures Match(m1, time, order)
            == Some((m1.(bids := Remove(m1.bids, BestTidOf(Bid, m1.bids).value),
                         asks := Remove(m1.asks, BestTidOf(Ask, m1.asks).value),
                         tape := m1.tape + [TradeOf(m1, time, order)]),
                     Some(TradeOf(m1, time, order))))
  {
    BestPriceIsExtreme(Bid, m1.bids);
    BestPriceIsExtreme(Ask, m1.asks);
    BestTidIsKey(Bid, m1.bids);
    BestTidIsKey(Ask, m1.asks);
  }

  /** Deleting an order just added, when its trader had none on that side
      before, restores that side exactly; the cancellation is recorded. */
  lemma AddThenDelete(m: Market, time: real, order: Order)
    requires Kept(m) && order.tid !in SideOf(m, order.otype).vals
    ensures SideOf(Deleted(Added(m, order), time, order), order.otype) == SideOf(m, order.otype)
    ensures SideOf(Deleted(Added(m, order), time, order), order.otype.Opposite()) == SideOf(m, order.otype.Opposite())
    ensures Deleted(Added(m, order), time, order).tape == m.tape + [Cancel(time, order)]
  {
    PutThenRemove(SideOf(m, order.otype), order.tid, order.(toid := m.qid));
  }

  // ---- the exchange object ----

  class Exchange {
    const bids: OrderbookHalf
    const asks: OrderbookHalf
    var tape: seq<TapeEvent>
    var quoteId: int

    ghost predicate Valid()
      reads this, bids, asks
    {
      bids != asks && bids.bookType == Bid && asks.bookType == Ask && bids.Valid() && asks.Valid()
    }

    ghost function State(): Market
      reads this, bids, asks
    {
      Market(bids.orders, asks.orders, tape, quoteId)
    }

    /** `Orderbook.__init__`: empty sides whose worst prices are the system's
        minimum (bids) and maximum (asks) price. */
    constructor(minPrice: int, maxPrice: int)
      ensures Valid() && State() == Market(EmptyDict(), EmptyDict(), [], 0)
      ensures bids.worstPrice == minPrice && asks.worstPrice == maxPrice
    {
      bids := new OrderbookHalf(Bid, minPrice);
      asks := new OrderbookHalf(Ask, maxPrice);
      tape := [];
      quoteId := 0;
    }

    /** What the cached fields of a valid exchange say about its orders. */
    lemma CachedBests()
      requires Valid()
      ensures Kept(State())
      ensures bids.bestPrice == BestPriceOf(Bid, bids.orders) && asks.bestPrice == BestPriceOf(Ask, asks.orders)
      ensures bids.bestTid == BestTidOf(Bid, bids.orders) && asks.bestTid == BestTidOf(Ask, asks.orders)
      ensures bids.bestPrice.Some? <==> bids.nOrders > 0
      ensures asks.bestPrice.Some? <==> asks.nOrders > 0
      ensures bids.bestTid.Some? <==> bids.nOrders > 0
      ensures asks.bestTid.Some? <==> asks.nOrders > 0
      ensures bids.bestTid.Some? ==> bids.bestTid.value in bids.orders.vals
      ensures asks.bestTid.Some? ==> asks.bestTid.value in asks.orders.vals
    {
      BestPriceIsExtreme(Bid, bids.orders);
      BestPriceIsExtreme(Ask, asks.orders);
      BestTidIsKey(Bid, bids.orders);
      BestTidIsKey(Ask, asks.orders);
    }

    /** `add_order`: stamp the order with the next quote id, store it, and
        re-read that side's best price; the response says whether the
        trader's previous order on that side was replaced. */
    method AddOrder(order: Order) returns (toid: int, response: AddResponse)
      requires Valid()
      modifies this, bids, asks
      ensures Valid() && State() == Added(old(State()), order)
      ensures toid == old(quoteId)
      ensures response == if order.tid in SideOf(old(State()), order.otype).vals then Overwrite else Addition
    {
      AddedFields(State(), order);
      toid := quoteId;
      quoteId := quoteId + 1;
      if order.otype == Bid {
        response := AddToSide(bids, order.(toid := toid));
      } else {
        response := AddToSide(asks, order.(toid := toid));
      }
    }

    /** `del_order`: drop the trader's order from its side, re-read that
        side's best price, and record the cancellation on the tape. */
    method DelOrder(time: real, order: Order)
      requires Valid()
      modifies this, bids, asks
      ensures Valid() && State() == Deleted(old(State()), time, order)
    {
      if order.otype == Bid {
        DelFromSide(bids, order);
      } else {
        DelFromSide(asks, order);
      }
      tape := tape + [Cancel(time, order)];
    }

    /** `publish_lob`: each side's best and worst price, order count and
        anonymised levels, the next quote id and the tape. */
    function PublishLob(time: real): (v: LobView)
      reads this, bids, asks
      ensures Valid() ==> v.bids.best == BestPriceOf(Bid, bids.orders) && v.asks.best == BestPriceOf(Ask, asks.orders)
      ensures Valid() ==> v.bids.n == |bids.orders.keys| && v.asks.n == |asks.orders.keys|
      ensures Valid() ==> v.bids.lob == AnonAsc(LobOf(bids.orders)) && v.asks.lob == AnonAsc(LobOf(asks.orders))
      ensures v.tape == tape && v.qid == quoteId
    {
      LobView(time,
              HalfView(bids.bestPrice, bids.worstPrice, bids.nOrders, bids.lobAnon),
              HalfView(asks.bestPrice, asks.worstPrice, asks.nOrders, asks.lobAnon),
              quoteId, tape)
    }

    /** `process_order2`: add the order; if it crosses the best price on the
        other side, delete the best order of each side (the other side
        first) and record a trade at the other side's best price. The view
        returned shares its tape with the exchange, so it shows that trade. */
    method ProcessOrder2(time: real, order: Order) returns (result: Processed)
      requires Valid()
      modifies this, bids, asks
      ensures result.Crashed? <==> Process(old(State()), time, order).None?
      ensures result.Processed? ==>
                Valid() && (State(), result.trade) == Process(old(State()), time, order).value
                && result.lob == PublishLob(time)
    {
      ghost var m0 := State();
      var toid, response := AddOrder(order);
      AddedKept(m0, order);
      result := MatchOrder(time, order);
    }

    /** The matching step of `process_order2`, with `order` already on its
        side: a bid crosses when asks rest and the best bid is not below the
        best ask; an ask, when bids rest and the best ask is not above the best
        bid. */
    method MatchOrder(time: real, order: Order) returns (result: Processed)
      requires Valid() && SideOf(State(), order.otype).keys != []
      modifies this, bids, asks
      ensures result.Crashed? <==> Match(old(State()), time, order).None?
      ensures result.Processed? ==>
                Valid() && (State(), result.trade) == Match(old(State()), time, order).value
                && result.lob == PublishLob(time)
    {
      CachedBests();
      CrossedAs(order.otype, State());
      var crossed := false;
      if order.otype == Bid {
        crossed := asks.nOrders > 0 && bids.bestPrice.value >= asks.bestPrice.value;
      } else {
        crossed := bids.nOrders > 0 && asks.bestPrice.value <= bids.bestPrice.value;
      }
      if crossed {
        result := Strike(time, order);
      } else {
        result := Processed(None, PublishLob(time));
      }
    }

    /** The crossing branch: note the counterparty, its customer order id and
        the price (the other side's best), delete the best order of the other
        side and then of the order's own side, and record the trade. */
    method Strike(time: real, order: Order) returns (result: Processed)
      requires Valid() && Crossed(bids.orders, asks.orders)
      modifies this, bids, asks
      ensures result.Crashed? <==> Match(old(State()), time, order).None?
      ensures result.Processed? ==>
                Valid() && (State(), result.trade) == Match(old(State()), time, order).value
                && result.lob == PublishLob(time)
    {
      CachedBests();
      ghost var m1 := State();
      var trade;
      if order.otype == Bid {
        trade := Trade(time, asks.bestPrice.value, asks.bestTid.value, order.tid, order.qty, order.coid,
                       asks.orders.vals[asks.bestTid.value].coid);
      } else {
        trade := Trade(time, bids.bestPrice.value, bids.bestTid.value, order.tid, order.qty, order.coid,
                       bids.orders.vals[bids.bestTid.value].coid);
      }
      var ok := DeleteBests(order.otype);
      if !ok {
        return Crashed;
      }
      MatchCrossingShape(m1, time, order);
      tape := tape + [trade];
      result := Processed(Some(trade), PublishLob(time));
    }

    /** Delete the best order of the side opposite `side`, then of `side`;
        false where either deletion raises. */
    method DeleteBests(side: Side) returns (ok: bool)
      requires Valid()
      modifies bids, asks
      ensures ok <==> !DeleteCrashes(Bid, old(bids.orders)) && !DeleteCrashes(Ask, old(asks.orders))
      ensures ok ==> Valid()
      ensures ok ==> BestTidOf(Bid, old(bids.orders)).Some? && BestTidOf(Ask, old(asks.orders)).Some?
      ensures ok ==> bids.orders == Remove(old(bids.orders), BestTidOf(Bid, old(bids.orders)).value)
      ensures ok ==> asks.orders == Remove(old(asks.orders), BestTidOf(Ask, old(asks.orders)).value)
    {
      if side == Bid {
        ok := DeleteBoth(asks, bids);
      } else {
        ok := DeleteBoth(bids, asks);
      }
    }
  }

  /** What `add_order` does to one side: `book_add`, then re-read the best
      price and trader id. */
  method AddToSide(half: OrderbookHalf, order: Order) returns (response: AddResponse)
    requires half.Valid()
    modifies half
    ensures half.Valid() && half.orders == Put(old(half.orders), order.tid, order)
    ensures response == if order.tid in old(half.orders.vals) then Overwrite else Addition
  {
    response := half.BookAdd(order);
    half.RefreshBest();
  }

  /** What `del_order` does to one side: `book_del`, then re-read the best
      price and trader id. */
  method DelFromSide(half: OrderbookHalf, order: Order)
    requires half.Valid()
    modifies half
    ensures half.Valid() && half.orders == Remove(old(half.orders), order.tid)
  {
    half.BookDel(order);
    half.RefreshBest();
  }

  /** `first.delete_best()` then `second.delete_best()`; false where either
      raises. */
  method DeleteBoth(first: OrderbookHalf, second: OrderbookHalf) returns (ok: bool)
    requires first != second && first.Valid() && second.Valid()
    modifies first, second
    ensures ok <==> !DeleteCrashes(first.bookType, old(first.orders)) && !DeleteCrashes(second.bookType, old(second.orders))
    ensures ok ==> first.Valid() && second.Valid()
    ensures ok ==> BestTidOf(first.bookType, old(first.orders)).Some? && BestTidOf(second.bookType, old(second.orders)).Some?
    ensures ok ==> first.orders == Remove(old(first.orders), BestTidOf(first.bookType, old(first.orders)).value)
    ensures ok ==> second.orders == Remove(old(second.orders), BestTidOf(second.bookType, old(second.orders)).value)
  {
    var taken := first.DeleteBest();
    if taken.None? {
      return false;
    }
    taken := second.DeleteBest();
    ok := taken.Some?;
  }
}
