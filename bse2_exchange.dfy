/** `Exchange` in BSE2: trader records, order numbering, routing between
    the lit and dark pools, fee accounting, the tape, the per-order trade
    summary, and the published limit order book. */
module Bse2Exchange {
  import opened Basics
  import opened Bse2Types
  import opened Bse2Lob
  import opened Bse2Walk
  import opened Bse2Take
  import opened Bse2Half
  import opened Bse2Orderbook

  /** `trader_record`: the trader, when it was first seen, and its balance
      of exchange fees. */
  datatype TraderRecord = TraderRecord(tid: string, regtime: real, balance: int)

  /** `tape_summary`: the order's trades aggregated into one, at the
      volume-weighted average price (a float in the source). */
  datatype Summary = Summary(time: real, price: real, qty: int)

  /** What `process_order` ends with: the program stops (`sys.exit` or an
      uncaught error), or it returns its dict, whose two entries are None
      when the pool gave no response. */
  datatype Outcome = Fatal | Returned(summary: Option<Summary>, msgs: Option<seq<ExchMsg>>)

  /** The last trade's time, price and quantity, if any. */
  type LastTrade = (Option<real>, Option<int>, Option<int>)

  // ---- fees ----

  /** The fees that the messages charge trader `tid`. */
  function FeesTo(tid: string, msgs: seq<ExchMsg>): int {
    if msgs == [] then 0
    else FeesTo(tid, msgs[..|msgs| - 1]) + (if msgs[|msgs| - 1].tid == tid then msgs[|msgs| - 1].fee else 0)
  }

  /** The number of messages addressed to trader `tid`. */
  function CountTo(tid: string, msgs: seq<ExchMsg>): nat {
    if msgs == [] then 0
    else CountTo(tid, msgs[..|msgs| - 1]) + (if msgs[|msgs| - 1].tid == tid then 1 else 0)
  }

  /** The fee loop of `process_order`. */
  method TotalFees(tid: string, msgs: seq<ExchMsg>) returns (total: int)
    ensures total == FeesTo(tid, msgs)
  {
    total := 0;
    for i := 0 to |msgs|
      invariant total == FeesTo(tid, msgs[..i])
    {
      assert msgs[..i + 1][..i] == msgs[..i];
      if msgs[i].tid == tid {
        total := total + msgs[i].fee;
      }
    }
    assert msgs[..|msgs|] == msgs;
  }

  /** Fees add up message list by message list. */
  lemma {:induction false} FeesAppend(tid: string, a: seq<ExchMsg>, b: seq<ExchMsg>)
    ensures FeesTo(tid, a + b) == FeesTo(tid, a) + FeesTo(tid, b)
    decreases |b|
  {
    if b == [] {
      assert a + b == a;
    } else {
      assert (a + b)[..|a + b| - 1] == a + b[..|b| - 1];
      FeesAppend(tid, a, b[..|b| - 1]);
    }
  }

  /** Where every message carries the same fee, a trader pays that fee
      once per message addressed to it, and nothing for the others'. */
  lemma {:induction false} FeesUniform(tid: string, msgs: seq<ExchMsg>, fee: int)
    requires forall i :: 0 <= i < |msgs| ==> msgs[i].fee == fee
    ensures FeesTo(tid, msgs) == fee * CountTo(tid, msgs)
  {
    if msgs != [] {
      var init := msgs[..|msgs| - 1];
      assert forall i :: 0 <= i < |init| ==> init[i] == msgs[i];
      FeesUniform(tid, init, fee);
      if msgs[|msgs| - 1].tid == tid {
        assert fee * (CountTo(tid, init) + 1) == fee * CountTo(tid, init) + fee;
      }
    }
  }

  // ---- the trade summary ----

  /** The total price times quantity of the trades on a tape. */
  function TapeCost(tape: seq<TapeEvent>): int {
    if tape == [] then 0
    else TapeCost(tape[..|tape| - 1])
         + (if tape[|tape| - 1].TradeEvent? then tape[|tape| - 1].price * tape[|tape| - 1].qty else 0)
  }

  /** The summary of an order's tape events: None unless some quantity
      traded, otherwise the traded quantity at its average price. */
  function SummaryOf(time: real, tape: seq<TapeEvent>): Option<Summary> {
    if TapeQty(tape) > 0 then Some(Summary(time, TapeCost(tape) as real / TapeQty(tape) as real, TapeQty(tape)))
    else None
  }

  /** The summary loop of `process_order`. */
  method Summarise(time: real, events: seq<TapeEvent>) returns (s: Option<Summary>)
    ensures s == SummaryOf(time, events)
  {
    s := None;
    if |events| > 0 {
      var cost, qty := 0, 0;
      for i := 0 to |events|
        invariant cost == TapeCost(events[..i]) && qty == TapeQty(events[..i])
      {
        assert events[..i + 1][..i] == events[..i];
        if events[i].TradeEvent? {
          cost := cost + events[i].price * events[i].qty;
          qty := qty + events[i].qty;
        }
      }
      assert events[..|events|] == events;
      if qty > 0 {
        s := Some(Summary(time, cost as real / qty as real, qty));
      }
    }
  }

  /** Every trade on the tape is at a price of at most `hi`, for a
      quantity that is not negative. */
  ghost predicate TradesAtMost(tape: seq<TapeEvent>, hi: int) {
    forall i :: 0 <= i < |tape| && tape[i].TradeEvent? ==> tape[i].price <= hi && tape[i].qty >= 0
  }

  /** Every trade on the tape is at a price of at least `lo`, for a
      quantity that is not negative. */
  ghost predicate TradesAtLeast(tape: seq<TapeEvent>, lo: int) {
    forall i :: 0 <= i < |tape| && tape[i].TradeEvent? ==> tape[i].price >= lo && tape[i].qty >= 0
  }

  lemma MulMono(a: int, b: int, c: int)
    requires a <= b && c >= 0
    ensures a * c <= b * c
  {
    assert b * c - a * c == (b - a) * c;
  }

  lemma {:induction false} CostAtMost(tape: seq<TapeEvent>, hi: int)
    requires TradesAtMost(tape, hi)
    ensures TapeCost(tape) <= hi * TapeQty(tape)
  {
    if tape != [] {
      var init := tape[..|tape| - 1];
      assert forall i :: 0 <= i < |init| ==> init[i] == tape[i];
      CostAtMost(init, hi);
      var e := tape[|tape| - 1];
      if e.TradeEvent? {
        MulMono(e.price, hi, e.qty);
        assert hi * (TapeQty(init) + e.qty) == hi * TapeQty(init) + hi * e.qty;
      }
    }
  }

  lemma {:induction false} CostAtLeast(tape: seq<TapeEvent>, lo: int)
    requires TradesAtLeast(tape, lo)
    ensures TapeCost(tape) >= lo * TapeQty(tape)
  {
    if tape != [] {
      var init := tape[..|tape| - 1];
      assert forall i :: 0 <= i < |init| ==> init[i] == tape[i];
      CostAtLeast(init, lo);
      var e := tape[|tape| - 1];
      if e.TradeEvent? {
        MulMono(lo, e.price, e.qty);
        assert lo * (TapeQty(init) + e.qty) == lo * TapeQty(init) + lo * e.qty;
      }
    }
  }

  lemma DivAtMost(c: int, q: int, hi: int)
    requires q > 0 && c <= hi * q
    ensures c as real / q as real <= hi as real
  {
    assert (hi * q) as real == hi as real * q as real;
  }

  lemma DivAtLeast(c: int, q: int, lo: int)
    requires q > 0 && c >= lo * q
    ensures c as real / q as real >= lo as real
  {
    assert (lo * q) as real == lo as real * q as real;
  }

  /** The summary price is an average: no trade above `hi` means no
      summary above `hi`. */
  lemma SummaryAtMost(time: real, tape: seq<TapeEvent>, hi: int)
    requires TradesAtMost(tape, hi)
    ensures SummaryOf(time, tape).Some? ==> SummaryOf(time, tape).value.price <= hi as real
  {
    CostAtMost(tape, hi);
    if TapeQty(tape) > 0 {
      DivAtMost(TapeCost(tape), TapeQty(tape), hi);
    }
  }

  /** No trade below `lo` means no summary below `lo`. */
  lemma SummaryAtLeast(time: real, tape: seq<TapeEvent>, lo: int)
    requires TradesAtLeast(tape, lo)
    ensures SummaryOf(time, tape).Some? ==> SummaryOf(time, tape).value.price >= lo as real
  {
    CostAtLeast(tape, lo);
    if TapeQty(tape) > 0 {
      DivAtLeast(TapeCost(tape), TapeQty(tape), lo);
    }
  }

  /** An IOC order (a crossing limit order becomes one) whose trades all
      have non-negative quantity gets a summary price within its limit: at
      most its price for a bid, at least its price for an ask. */
  lemma IocSummaryWithinLimit(side: Side, orders: Dict<int, Order>, taker: Order, poolId: string, time: real)
    requires Wf(orders) && KeyedById(orders) && taker.ostyle == IOC && side == taker.otype.Opposite()
    requires var tape := Take(side, orders, taker, poolId, time).response.tape;
             forall i :: 0 <= i < |tape| && tape[i].TradeEvent? ==> tape[i].qty >= 0
    ensures var s := SummaryOf(time, Take(side, orders, taker, poolId, time).response.tape);
            s.Some? ==> if taker.otype == Bid then s.value.price <= taker.price as real
                        else s.value.price >= taker.price as real
  {
    var tape := Take(side, orders, taker, poolId, time).response.tape;
    TakePriced(side, orders, taker, poolId, time);
    if taker.otype == Bid {
      SummaryAtMost(time, tape, taker.price);
    } else {
      SummaryAtLeast(time, tape, taker.price);
    }
  }

  // ---- the tape ----

  /** The time, price and quantity of the last trade among the events, or
      `prev` if none of them is a trade. */
  function LastOf(events: seq<TapeEvent>, prev: LastTrade): LastTrade {
    if events == [] then prev
    else
      var e := events[|events| - 1];
      if e.TradeEvent? then (Some(e.time), Some(e.price), Some(e.qty))
      else LastOf(events[..|events| - 1], prev)
  }

  /** `LastOf` finds the last trade: with no trade it keeps `prev`; with
      one, it reports the trade that no later trade follows. */
  lemma {:induction false} LastOfIsLast(events: seq<TapeEvent>, prev: LastTrade)
    ensures (forall i :: 0 <= i < |events| ==> !events[i].TradeEvent?) ==> LastOf(events, prev) == prev
    ensures forall j :: 0 <= j < |events| && events[j].TradeEvent?
                        && (forall k :: j < k < |events| ==> !events[k].TradeEvent?) ==>
              LastOf(events, prev) == (Some(events[j].time), Some(events[j].price), Some(events[j].qty))
  {
    if events != [] {
      var n := |events|;
      var init := events[..n - 1];
      if events[n - 1].TradeEvent? {
        forall j | 0 <= j < n && events[j].TradeEvent? && (forall k :: j < k < n ==> !events[k].TradeEvent?)
          ensures j == n - 1
        {
        }
      } else {
        LastOfIsLast(init, prev);
        assert forall i :: 0 <= i < |init| ==> init[i] == events[i];
      }
    }
  }

  /** Python's `s[-d:]` for an integer `d`: the last `d` items for positive
      `d`, all of `s` for zero, all but the first `-d` for negative `d`. */
  function PyTail<T>(s: seq<T>, d: int): seq<T> {
    if d > 0 then (if d >= |s| then s else s[|s| - d..])
    else if d == 0 then s
    else if -d >= |s| then [] else s[-d..]
  }

  /** A positive depth publishes the last `d` events (all, if fewer), and
      depth 0 publishes the whole tape. */
  lemma TailOfDepth<T>(s: seq<T>, d: int)
    requires d >= 0
    ensures var r := PyTail(s, d);
            |r| == (if d == 0 || d >= |s| then |s| else d) && r == s[|s| - |r|..]
  {
  }

  /** `after` is `before` once trader `tid` is registered at `time` and its
      balance possibly changed: a new trader's record is
      `TraderRecord(tid, time, ...)`, an existing record keeps all but its
      balance, and every other trader's record is as it was. */
  ghost predicate Enrolled(before: map<string, TraderRecord>, after: map<string, TraderRecord>, tid: string, time: real) {
    after.Keys == before.Keys + {tid}
    && (tid in before ==> after[tid] == before[tid].(balance := after[tid].balance))
    && (tid !in before ==> after[tid] == TraderRecord(tid, time, after[tid].balance))
    && forall t :: t in before && t != tid ==> after[t] == before[t]
  }

  /** Changing the registered trader's balance keeps it enrolled. */
  lemma EnrolledCredited(before: map<string, TraderRecord>, after: map<string, TraderRecord>, tid: string, time: real, balance: int)
    requires Enrolled(before, after, tid, time)
    ensures Enrolled(before, after[tid := after[tid].(balance := balance)], tid, time)
  {
  }

  // ---- routing ----

  /** A new order's fate by style, on the side `live` of its pool that
      holds its type: these styles stop the program. XXX and ICE fail on
      the way; AON on the missing `resting` list; the four open/close
      styles after queueing, on the empty response; an OCO/OSO with two
      LIM legs at `sys.exit`; an unknown style at `sys.exit`; a CAN of an
      id that is not live in `book_CAN`. */
  predicate Fails(order: Order, live: Dict<int, Order>) {
    match order.ostyle
    case CAN => order.orderid !in live.vals
    case LIM | GFD | MKT | FOK | IOC => false
    case OCO | OSO => |order.legs| == 2 && order.legs[0] == LIM && order.legs[1] == LIM
    case _ => true
  }

  /** The styles that `process_order_LIM` handles. */
  predicate Resting(style: Style) {
    style == LIM || style == GFD
  }

  /** The styles that go straight to `process_order_take`. */
  predicate Taking(style: Style) {
    style == MKT || style == FOK || style == IOC
  }

  /** The order as its pool sees it: a cancel keeps the id of the order
      it cancels; any other order is numbered with `id`. */
  function Numbered(order: Order, id: int): Order {
    if order.ostyle == CAN || order.ostyle == XXX then order else order.(orderid := id)
  }

  /** What a pool does with an order that does not fail: its response (if
      any), then its side of the order's type and the opposite side. */
  datatype Routing = Routing(resp: Option<Response>, own: Dict<int, Order>, opp: Dict<int, Order>)

  /** `process_order_CAN`: a live order is deleted, with a cancellation
      message and a tape event carrying its quantity. */
  function CanRoute(o: Order, poolId: string, own: Dict<int, Order>, opp: Dict<int, Order>, time: real): Routing
    requires Wf(own)
  {
    if o.orderid in own.vals then
      Routing(Some(Response([ExchMsg(o.tid, o.orderid, Can, [], None, 0, 0)],
                            [CanEvent(poolId, time, o.orderid, o.otype, own.vals[o.orderid].qty)])),
              Remove(own, o.orderid), opp)
    else Routing(None, own, opp)
  }

  /** Some order on the opposite side is at a price that a `side` order
      limited to `p` accepts. */
  predicate Reaches(side: Side, p: int, opp: Dict<int, Order>) {
    exists k :: k in opp.vals && side.AtLeast(p, opp.vals[k].price)
  }

  /** The test of `process_order_LIM`, on the front of the opposite side's
      level list, holds exactly when the order reaches some opposite
      order. */
  lemma CrossesReaches(side: Side, p: int, opp: Dict<int, Order>)
    requires Wf(opp) && KeyedById(opp)
    ensures Crosses(side, p, LobOf(side.Opposite(), opp)) <==> Reaches(side, p, opp)
  {
    var other := side.Opposite();
    EmptySide(other, opp);
    if |opp.keys| > 0 {
      FrontPriority(other, opp);
      var lob := LobOf(other, opp);
      var e := lob[0].1[0];
      if Reaches(side, p, opp) {
        var k :| k in opp.vals && side.AtLeast(p, opp.vals[k].price);
        assert Outranks(other, lob[0].0, e, opp.vals[k]);
      } else {
        assert !side.AtLeast(p, opp.vals[e.id].price);
      }
    } else {
      assert forall k :: k !in opp.vals;
    }
  }

  /** `process_order_LIM`: a limit order that reaches the opposite side
      is taken as an IOC; one that does not rests on its own side. */
  function LimRoute(o: Order, poolId: string, own: Dict<int, Order>, opp: Dict<int, Order>, time: real): Routing
    requires Wf(opp) && KeyedById(opp)
  {
    if Reaches(o.otype, o.price, opp) then
      var t := Take(o.otype.Opposite(), opp, o.(ostyle := IOC), poolId, time);
      Routing(Some(t.response), own, t.orders)
    else Routing(None, Put(own, o.orderid, o), opp)
  }

  /** `process_order_take`: the order is taken from the opposite side. */
  function TakeRoute(o: Order, poolId: string, own: Dict<int, Order>, opp: Dict<int, Order>, time: real): Routing
    requires Wf(opp) && KeyedById(opp)
  {
    var t := Take(o.otype.Opposite(), opp, o, poolId, time);
    Routing(Some(t.response), own, t.orders)
  }

  /** The pool's handling of an order `o` (numbered) that does not fail,
      by style; the remaining styles that do not fail (OCO and OSO without
      two LIM legs) get no response and change nothing. */
  function Route(o: Order, poolId: string, own: Dict<int, Order>, opp: Dict<int, Order>, time: real): Routing
    requires Wf(own) && Wf(opp) && KeyedById(opp)
  {
    if o.ostyle == CAN then CanRoute(o, poolId, own, opp, time)
    else if Resting(o.ostyle) then LimRoute(o, poolId, own, opp, time)
    else if Taking(o.ostyle) then TakeRoute(o, poolId, own, opp, time)
    else Routing(None, own, opp)
  }

  /** The fields besides the orders (`Cache`) of the pool's side of the
      order's type and of the opposite side, after a routing that does not
      fail. A cancel recounts and rebuilds its side. */
  function CanCaches(o: Order, own: Dict<int, Order>, ownC: Cache, oppC: Cache): (Cache, Cache)
    requires Wf(own)
  {
    (if o.orderid in own.vals then Recounted(o.otype, ownC, Remove(own, o.orderid)) else ownC, oppC)
  }

  /** A limit order that reaches the opposite side re-prices that side as
      a take does; one that rests recounts its own side and overwrites its
      best price with the first anonymised one. */
  function LimCaches(o: Order, poolId: string, own: Dict<int, Order>, opp: Dict<int, Order>,
                     ownC: Cache, oppC: Cache, time: real): (Cache, Cache)
    requires Wf(own) && KeyedById(own) && Wf(opp) && KeyedById(opp)
  {
    if Reaches(o.otype, o.price, opp) then (ownC, Retaken(o.otype.Opposite(), oppC, opp, o.(ostyle := IOC), poolId, time))
    else
      var rested := Put(own, o.orderid, o);
      assert o.orderid in rested.keys;
      (Repriced(o.otype, ownC, rested), oppC)
  }

  /** A taking order re-prices the opposite side. */
  function TakeCaches(o: Order, poolId: string, opp: Dict<int, Order>, ownC: Cache, oppC: Cache, time: real): (Cache, Cache)
    requires Wf(opp) && KeyedById(opp)
  {
    (ownC, Retaken(o.otype.Opposite(), oppC, opp, o, poolId, time))
  }

  /** The sides' other fields after `Route`, by style; OCO and OSO orders
      that do not fail change nothing. */
  function CacheRoute(o: Order, poolId: string, own: Dict<int, Order>, opp: Dict<int, Order>,
                      ownC: Cache, oppC: Cache, time: real): (Cache, Cache)
    requires Wf(own) && KeyedById(own) && Wf(opp) && KeyedById(opp)
  {
    if o.ostyle == CAN then CanCaches(o, own, ownC, oppC)
    else if Resting(o.ostyle) then LimCaches(o, poolId, own, opp, ownC, oppC, time)
    else if Taking(o.ostyle) then TakeCaches(o, poolId, opp, ownC, oppC, time)
    else (ownC, oppC)
  }

  /** Cancelling an order leaves the rest apart. */
  lemma RemoveApart(side: Side, own: Dict<int, Order>, opp: Dict<int, Order>, id: int)
    requires Apart(side, own, opp)
    ensures Apart(side, Remove(own, id), opp)
  {
  }

  /** No order that the exchange processes crosses the pool's book: if
      every order on the order's side was short of every order on the other
      before, it still is. */
  lemma RouteApart(o: Order, poolId: string, own: Dict<int, Order>, opp: Dict<int, Order>, time: real)
    requires Wf(own) && KeyedById(own) && Wf(opp) && KeyedById(opp)
    requires Apart(o.otype, own, opp)
    ensures var r := Route(o, poolId, own, opp, time);
            Apart(o.otype, r.own, r.opp)
  {
    var side := o.otype;
    if o.ostyle == CAN {
      RemoveApart(side, own, opp, o.orderid);
    } else if Resting(o.ostyle) {
      CrossesReaches(side, o.price, opp);
      if Reaches(side, o.price, opp) {
        TakeApart(side, own, opp, o.(ostyle := IOC), poolId, time);
      } else {
        RestApart(side, own, opp, o);
      }
    } else if Taking(o.ostyle) {
      TakeApart(side, own, opp, o, poolId, time);
    }
  }

  /** After a rebuild, `n_orders` counts the side's orders and the best
      price is absent exactly when there are none. */
  lemma RecountedCounts(side: Side, c: Cache, d: Dict<int, Order>)
    requires Wf(d) && KeyedById(d)
    ensures Recounted(side, c, d).nOrders == Some(|d.keys|)
    ensures Recounted(side, c, d).bestPrice.None? <==> |d.keys| == 0
  {
    EmptySide(side, d);
    BuiltLevels(side, d);
  }

  /** After `add_lim_order`'s overwrite, the best price is a live price at
      least as good as every order of the side. */
  lemma RepricedBest(side: Side, c: Cache, d: Dict<int, Order>)
    requires Wf(d) && KeyedById(d) && |d.keys| > 0
    ensures var b := Repriced(side, c, d).bestPrice;
            b.Some?
            && (exists k :: k in d.vals && d.vals[k].price == b.value)
            && forall k :: k in d.vals ==> side.AtLeast(b.value, d.vals[k].price)
  {
    AnonFrontBest(side, d);
  }

  /** When the routing cancels from or rests on the order's own side,
      that side's `n_orders` counts the orders it now holds and its best
      price is absent exactly when it holds none; after a resting limit
      order the best price is a live price at least as good as every order
      of the side. */
  lemma RouteRecounts(o: Order, poolId: string, own: Dict<int, Order>, opp: Dict<int, Order>,
                      ownC: Cache, oppC: Cache, time: real)
    requires Wf(own) && KeyedById(own) && Wf(opp) && KeyedById(opp)
    requires (o.ostyle == CAN && o.orderid in own.vals) || (Resting(o.ostyle) && !Reaches(o.otype, o.price, opp))
    ensures var r := Route(o, poolId, own, opp, time);
            var c := CacheRoute(o, poolId, own, opp, ownC, oppC, time).0;
            c.nOrders == Some(|r.own.keys|)
            && (c.bestPrice.None? <==> |r.own.keys| == 0)
            && (Resting(o.ostyle) ==>
                  c.bestPrice.Some?
                  && (exists k :: k in r.own.vals && r.own.vals[k].price == c.bestPrice.value)
                  && forall k :: k in r.own.vals ==> o.otype.AtLeast(c.bestPrice.value, r.own.vals[k].price))
  {
    if o.ostyle == CAN {
      var d := Remove(own, o.orderid);
      assert KeyedById(d);
      RecountedCounts(o.otype, ownC, d);
    } else {
      var d := Put(own, o.orderid, o);
      assert o.orderid in d.keys && KeyedById(d);
      RecountedCounts(o.otype, ownC, d);
      RepricedBest(o.otype, ownC, d);
    }
  }

  /** No routing touches the orders waiting for the open or the close; and
      taking from the opposite side leaves its `n_orders` as it was, though
      orders may leave that side. */
  lemma RouteKeepsWaiting(o: Order, poolId: string, own: Dict<int, Order>, opp: Dict<int, Order>,
                          ownC: Cache, oppC: Cache, time: real)
    requires Wf(own) && KeyedById(own) && Wf(opp) && KeyedById(opp)
    ensures var cs := CacheRoute(o, poolId, own, opp, ownC, oppC, time);
            cs.0.onOpen == ownC.onOpen && cs.0.onClose == ownC.onClose
            && cs.1.onOpen == oppC.onOpen && cs.1.onClose == oppC.onClose
            && cs.1.nOrders == oppC.nOrders
  {
  }

  // ---- handing an order to its pool ----

  /** The pool's two sides hold what `Route` and `CacheRoute` make, for
      the order `o`, of the well-formed sides `own` and `opp` (the order's
      type first) and of their other fields `ownC` and `oppC`. */
  ghost predicate Routed(pool: Orderbook, o: Order, own: Dict<int, Order>, opp: Dict<int, Order>,
                         ownC: Cache, oppC: Cache, time: real)
    reads pool.bids, pool.asks
  {
    Wf(own) && KeyedById(own) && Wf(opp) && KeyedById(opp)
    && var route := Route(o, pool.idStr, own, opp, time);
       pool.Half(o.otype).orders == route.own && pool.Half(o.otype.Opposite()).orders == route.opp
       && (pool.Half(o.otype).Cached(), pool.Half(o.otype.Opposite()).Cached())
          == CacheRoute(o, pool.idStr, own, opp, ownC, oppC, time)
  }

  /** An order handed to its pool by style (a CAN as it came, any other
      style numbered). */
  method Hand(pool: Orderbook, time: real, o: Order) returns (fatal: bool, resp: Option<Response>)
    requires pool.Valid()
    modifies pool.bids, pool.asks
    ensures pool.Valid()
    ensures var own := old(pool.Half(o.otype).orders);
            var opp := old(pool.Half(o.otype.Opposite()).orders);
            (fatal <==> Fails(o, own))
            && (!fatal ==>
                  Routing(resp, pool.Half(o.otype).orders, pool.Half(o.otype.Opposite()).orders)
                  == Route(o, pool.idStr, own, opp, time)
                  && (pool.Half(o.otype).Cached(), pool.Half(o.otype.Opposite()).Cached())
                     == CacheRoute(o, pool.idStr, own, opp, old(pool.Half(o.otype).Cached()),
                                   old(pool.Half(o.otype.Opposite()).Cached()), time))
  {
    if o.ostyle == CAN {
      resp := HandCan(pool, time, o);
      fatal := resp.None?;
    } else if Resting(o.ostyle) {
      resp := HandLim(pool, time, o);
      fatal := false;
    } else if Taking(o.ostyle) {
      resp := HandTake(pool, time, o);
      fatal := false;
    } else if o.ostyle in {LOC, MOC, LOO, MOO} {
      var _ := pool.ProcessOrderPending(time, o);
      fatal, resp := true, None;
    } else if o.ostyle == OCO || o.ostyle == OSO {
      fatal := |o.legs| == 2 && o.legs[0] == LIM && o.legs[1] == LIM;
      resp := None;
    } else {
      fatal, resp := true, None;
    }
  }

  /** The CAN branch of `process_order`: `process_order_CAN` on the
      order's side. */
  method HandCan(pool: Orderbook, time: real, o: Order) returns (resp: Option<Response>)
    requires pool.Valid()
    modifies pool.bids, pool.asks
    ensures pool.Valid()
    ensures resp.None? <==> o.orderid !in old(pool.Half(o.otype).orders.vals)
    ensures Routing(resp, pool.Half(o.otype).orders, pool.Half(o.otype.Opposite()).orders)
            == CanRoute(o, pool.idStr, old(pool.Half(o.otype).orders), old(pool.Half(o.otype.Opposite()).orders), time)
    ensures (pool.Half(o.otype).Cached(), pool.Half(o.otype.Opposite()).Cached())
            == CanCaches(o, old(pool.Half(o.otype).orders), old(pool.Half(o.otype).Cached()), old(pool.Half(o.otype.Opposite()).Cached()))
  {
    resp := pool.ProcessOrderCan(time, o);
  }

  /** The LIM/GFD branch of `process_order`: `process_order_LIM`. */
  method HandLim(pool: Orderbook, time: real, o: Order) returns (resp: Option<Response>)
    requires pool.Valid()
    modifies pool.bids, pool.asks
    ensures pool.Valid()
    ensures Routing(resp, pool.Half(o.otype).orders, pool.Half(o.otype.Opposite()).orders)
            == LimRoute(o, pool.idStr, old(pool.Half(o.otype).orders), old(pool.Half(o.otype.Opposite()).orders), time)
    ensures (pool.Half(o.otype).Cached(), pool.Half(o.otype.Opposite()).Cached())
            == LimCaches(o, pool.idStr, old(pool.Half(o.otype).orders), old(pool.Half(o.otype.Opposite()).orders),
                         old(pool.Half(o.otype).Cached()), old(pool.Half(o.otype.Opposite()).Cached()), time)
  {
    CrossesReaches(o.otype, o.price, pool.Half(o.otype.Opposite()).orders);
    resp := pool.ProcessOrderLim(time, o);
  }

  /** The MKT/FOK/IOC branch of `process_order`: `process_order_take`. */
  method HandTake(pool: Orderbook, time: real, o: Order) returns (resp: Option<Response>)
    requires pool.Valid()
    modifies pool.bids, pool.asks
    ensures pool.Valid()
    ensures Routing(resp, pool.Half(o.otype).orders, pool.Half(o.otype.Opposite()).orders)
            == TakeRoute(o, pool.idStr, old(pool.Half(o.otype).orders), old(pool.Half(o.otype.Opposite()).orders), time)
    ensures (pool.Half(o.otype).Cached(), pool.Half(o.otype.Opposite()).Cached())
            == TakeCaches(o, pool.idStr, old(pool.Half(o.otype.Opposite()).orders),
                          old(pool.Half(o.otype).Cached()), old(pool.Half(o.otype.Opposite()).Cached()), time)
  {
    var r := pool.ProcessOrderTake(time, o);
    resp := Some(r);
  }

  // ---- the exchange ----

  class Exchange {
    const eid: string
    const lit: Orderbook
    const drk: Orderbook
    var tape: seq<TapeEvent>
    var traderRecs: map<string, TraderRecord>
    /** The next order id to assign. */
    var orderId: int
    var open: bool
    /** `last_trans_t`, `last_trans_p`, `last_trans_q`: set by
        `tape_update`, absent until the first trade. */
    var lastT: Option<real>
    var lastP: Option<int>
    var lastQ: Option<int>

    /** The four sides are distinct objects, each consistent. */
    ghost predicate Valid()
      reads lit.bids, lit.asks, drk.bids, drk.asks
    {
      lit != drk
      && lit.bids != drk.bids && lit.bids != drk.asks && lit.asks != drk.bids && lit.asks != drk.asks
      && lit.Valid() && drk.Valid()
    }

    /** The pool an order of quantity `qty` is routed to. */
    function Pool(qty: int): Orderbook {
      if qty < BlockSize then lit else drk
    }

    constructor(eid: string, minPrice: int, maxPrice: int)
      ensures Valid() && fresh(lit) && fresh(drk)
      ensures lit.idStr == eid + "Lit" && drk.idStr == eid + "Drk"
      ensures lit.bids.orders == EmptyDict() && lit.asks.orders == EmptyDict()
      ensures drk.bids.orders == EmptyDict() && drk.asks.orders == EmptyDict()
      ensures tape == [] && traderRecs == map[] && orderId == 0 && !open
    {
      this.eid := eid;
      lit := new Orderbook(eid + "Lit", minPrice, maxPrice);
      drk := new Orderbook(eid + "Drk", minPrice, maxPrice);
      tape := [];
      traderRecs := map[];
      orderId := 0;
      open := false;
      lastT := None;
      lastP := None;
      lastQ := None;
    }

    /** `tape_update`: append the event; a trade also becomes the last
        trade, and is handed back. */
    method TapeUpdate(tr: TapeEvent) returns (r: Option<TapeEvent>)
      modifies this`tape, this`lastT, this`lastP, this`lastQ
      ensures tape == old(tape) + [tr]
      ensures (lastT, lastP, lastQ) == LastOf([tr], (old(lastT), old(lastP), old(lastQ)))
      ensures r == if tr.TradeEvent? then Some(tr) else None
    {
      tape := tape + [tr];
      r := None;
      if tr.TradeEvent? {
        lastT := Some(tr.time);
        lastP := Some(tr.price);
        lastQ := Some(tr.qty);
        r := Some(tr);
      }
    }

    /** The tape loop of `process_order`: every event, in order. */
    method RecordTape(events: seq<TapeEvent>)
      modifies this`tape, this`lastT, this`lastP, this`lastQ
      ensures tape == old(tape) + events
      ensures (lastT, lastP, lastQ) == LastOf(events, (old(lastT), old(lastP), old(lastQ)))
    {
      for i := 0 to |events|
        invariant tape == old(tape) + events[..i]
        invariant (lastT, lastP, lastQ) == LastOf(events[..i], (old(lastT), old(lastP), old(lastQ)))
      {
        assert events[..i + 1][..i] == events[..i];
        var _ := TapeUpdate(events[i]);
      }
      assert events[..|events|] == events;
    }

    /** A trader not seen before gets a record with a zero balance. */
    method Register(time: real, tid: string)
      modifies this`traderRecs
      ensures traderRecs == if tid in old(traderRecs) then old(traderRecs)
                            else old(traderRecs)[tid := TraderRecord(tid, time, 0)]
      ensures Enrolled(old(traderRecs), traderRecs, tid, time)
    {
      if tid !in traderRecs {
        traderRecs := traderRecs[tid := TraderRecord(tid, time, 0)];
      }
    }

    /** `self.trader_recs[trader_id].balance += total_fees`. */
    method Credit(tid: string, fees: int)
      requires tid in traderRecs
      modifies this`traderRecs
      ensures traderRecs == old(traderRecs)[tid := old(traderRecs)[tid].(balance := old(traderRecs)[tid].balance + fees)]
    {
      var rec := traderRecs[tid];
      traderRecs := traderRecs[tid := rec.(balance := rec.balance + fees)];
    }

    /** The routing part of `process_order`: pick the pool by quantity;
        number any order but a cancel, and hand it to the pool. */
    method Dispatch(time: real, order: Order) returns (fatal: bool, resp: Option<Response>)
      requires Valid()
      modifies this`orderId, lit.bids, lit.asks, drk.bids, drk.asks
      ensures Valid()
      ensures orderId == old(orderId) + (if order.ostyle == CAN || order.ostyle == XXX then 0 else 1)
      ensures var pool := Pool(order.qty);
              var o := Numbered(order, old(orderId));
              var own := old(pool.Half(o.otype).orders);
              var opp := old(pool.Half(o.otype.Opposite()).orders);
              (fatal <==> Fails(o, own))
              && (!fatal ==>
                    resp == Route(o, pool.idStr, own, opp, time).resp
                    && Routed(pool, o, own, opp, old(pool.Half(o.otype).Cached()),
                           old(pool.Half(o.otype.Opposite()).Cached()), time))
      ensures var other := Pool(if order.qty < BlockSize then BlockSize else 0);
              unchanged(other.bids, other.asks)
    {
      if order.ostyle == XXX {
        return true, None;
      }
      var o := order;
      if order.ostyle != CAN {
        o := order.(orderid := orderId);
        orderId := orderId + 1;
      }
      assert o == Numbered(order, old(orderId));
      fatal, resp := Hand(Pool(order.qty), time, o);
    }

    /** `process_order`: register the trader, then route the order and
        settle the response (`Trade`). */
    method ProcessOrder(time: real, order: Order) returns (out: Outcome)
      requires Valid()
      modifies this, lit.bids, lit.asks, drk.bids, drk.asks
      ensures Valid()
      ensures orderId == old(orderId) + (if order.ostyle == CAN || order.ostyle == XXX then 0 else 1)
      ensures var pool := Pool(order.qty);
              var o := Numbered(order, old(orderId));
              var own := old(pool.Half(o.otype).orders);
              var opp := old(pool.Half(o.otype.Opposite()).orders);
              var r := Route(o, pool.idStr, own, opp, time).resp;
              var before := if order.tid in old(traderRecs) then old(traderRecs)[order.tid].balance else 0;
              (out.Fatal? <==> Fails(o, own))
              && (out.Returned? ==>
                    Routed(pool, o, own, opp, old(pool.Half(o.otype).Cached()),
                           old(pool.Half(o.otype.Opposite()).Cached()), time)
                    && out == (if r.Some? then Returned(SummaryOf(time, r.value.tape), Some(r.value.msgs))
                               else Returned(None, None))
                    && tape == old(tape) + (if r.Some? then r.value.tape else [])
                    && (lastT, lastP, lastQ) == LastOf(if r.Some? then r.value.tape else [], (old(lastT), old(lastP), old(lastQ)))
                    && order.tid in traderRecs
                    && traderRecs[order.tid].balance == before + (if r.Some? then FeesTo(order.tid, r.value.msgs) else 0))
      ensures var other := Pool(if order.qty < BlockSize then BlockSize else 0);
              unchanged(other.bids, other.asks)
      ensures Enrolled(old(traderRecs), traderRecs, order.tid, time)
      ensures open == old(open)
    {
      Register(time, order.tid);
      ghost var recs := traderRecs;
      out := Trade(time, order);
      EnrolledCredited(old(traderRecs), recs, order.tid, time, traderRecs[order.tid].balance);
    }

    /** The rest of `process_order` once the trader has a record: route
        the order, then credit the fees, write the events to the tape and
        summarise the trades. Only the trader's balance changes among the
        records. */
    method Trade(time: real, order: Order) returns (out: Outcome)
      requires Valid() && order.tid in traderRecs
      modifies this`orderId, this`traderRecs, this`tape, this`lastT, this`lastP, this`lastQ
      modifies lit.bids, lit.asks, drk.bids, drk.asks
      ensures Valid()
      ensures orderId == old(orderId) + (if order.ostyle == CAN || order.ostyle == XXX then 0 else 1)
      ensures order.tid in traderRecs
              && traderRecs == old(traderRecs)[order.tid := old(traderRecs)[order.tid].(balance := traderRecs[order.tid].balance)]
      ensures var pool := Pool(order.qty);
              var o := Numbered(order, old(orderId));
              var own := old(pool.Half(o.otype).orders);
              var opp := old(pool.Half(o.otype.Opposite()).orders);
              var r := Route(o, pool.idStr, own, opp, time).resp;
              var rec := old(traderRecs)[order.tid];
              (out.Fatal? <==> Fails(o, own))
              && (out.Returned? ==>
                    Routed(pool, o, own, opp, old(pool.Half(o.otype).Cached()),
                           old(pool.Half(o.otype.Opposite()).Cached()), time)
                    && out == (if r.Some? then Returned(SummaryOf(time, r.value.tape), Some(r.value.msgs))
                               else Returned(None, None))
                    && tape == old(tape) + (if r.Some? then r.value.tape else [])
                    && (lastT, lastP, lastQ) == LastOf(if r.Some? then r.value.tape else [], (old(lastT), old(lastP), old(lastQ)))
                    && traderRecs[order.tid].balance == rec.balance + (if r.Some? then FeesTo(order.tid, r.value.msgs) else 0))
      ensures var other := Pool(if order.qty < BlockSize then BlockSize else 0);
              unchanged(other.bids, other.asks)
    {
      var fatal, resp := Dispatch(time, order);
      if fatal {
        out := Fatal;
      } else {
        out := Settle(time, order.tid, resp);
      }
    }

    /** What `process_order` does with a pool's response: with none, it
        returns nothing; otherwise it credits the trader's fees, writes the
        events to the tape, and summarises the trades. */
    method Settle(time: real, tid: string, resp: Option<Response>) returns (out: Outcome)
      requires Valid() && tid in traderRecs
      modifies this`traderRecs, this`tape, this`lastT, this`lastP, this`lastQ
      ensures Valid()
      ensures out == if resp.Some? then Returned(SummaryOf(time, resp.value.tape), Some(resp.value.msgs)) else Returned(None, None)
      ensures tape == old(tape) + (if resp.Some? then resp.value.tape else [])
      ensures traderRecs == old(traderRecs)[tid := old(traderRecs)[tid].(balance := old(traderRecs)[tid].balance
                                                  + (if resp.Some? then FeesTo(tid, resp.value.msgs) else 0))]
      ensures (lastT, lastP, lastQ) == LastOf(if resp.Some? then resp.value.tape else [], (old(lastT), old(lastP), old(lastQ)))
    {
      if resp.None? {
        assert traderRecs[tid] == traderRecs[tid].(balance := traderRecs[tid].balance + 0);
        return Returned(None, None);
      }
      var r := resp.value;
      var fees := TotalFees(tid, r.msgs);
      Credit(tid, fees);
      RecordTape(r.tape);
      var summary := Summarise(time, r.tape);
      out := Returned(summary, Some(r.msgs));
    }

    /** `publish_lob` for the lit pool, without the mid- and micro-price.
        The last-trade entries are read from the lit pool, not from the
        exchange that `tape_update` writes. */
    function PublishLob(time: real, tapeDepth: Option<int>): PublicLob
      reads this, lit.bids, lit.asks, drk.bids, drk.asks
      requires Valid()
    {
      var bids, asks := lit.bids, lit.asks;
      var nBids, nAsks := |bids.orders.keys|, |asks.orders.keys|;
      var bestBid := if nBids > 0 then AnonFrontBest(Bid, bids.orders); Some(bids.LobAnon()[0].0) else None;
      var bestAsk := if nAsks > 0 then AnonFrontBest(Ask, asks.orders); Some(asks.LobAnon()[0].0) else None;
      PublicLob(time,
                SideView(bestBid, bids.worstPrice, nBids, bids.LobAnon()),
                SideView(bestAsk, asks.worstPrice, nAsks, asks.LobAnon()),
                lit.lastT, lit.lastP, lit.lastQ,
                match tapeDepth case None => tape case Some(d) => PyTail(tape, d))
    }
  }

  /** The published best price of a side is None exactly when the side
      has no orders; otherwise it is the price of a live order and at least
      as good as every live order's (the highest bid, the lowest ask). */
  lemma PublishedBest(ex: Exchange, time: real, tapeDepth: Option<int>, side: Side)
    requires ex.Valid()
    ensures var p := ex.PublishLob(time, tapeDepth);
            var view := if side == Bid then p.bids else p.asks;
            var live := ex.lit.Half(side).orders;
            (view.bestp.None? <==> |live.keys| == 0)
            && (view.bestp.Some? ==>
                  (exists k :: k in live.vals && live.vals[k].price == view.bestp.value)
                  && forall k :: k in live.vals ==> side.AtLeast(view.bestp.value, live.vals[k].price))
  {
    var live := ex.lit.Half(side).orders;
    if |live.keys| > 0 {
      AnonFrontBest(side, live);
    }
  }
}
