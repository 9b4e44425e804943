/** The bookkeeping every BSE2 trader does (`Trader` in
    BSE2/BSE2_trader_agents.py): its customer orders, its quotes live at the
    exchange, its balance and blotter, and the quote rules of the Giveaway
    and Shaver strategies. */
module Bse2Trader {
  import opened Basics
  import opened Bse2Types

  /** A customer order ("assignment") the trader is working. */
  datatype Assignment = Assignment(assignmentid: int, atype: Side, astyle: Style, price: int, qty: int)

  /** `add_cust_order`'s answer. */
  datatype CustResponse = LobCancel | Proceed

  /** The trader's records as values. */
  datatype Books = Books(
    balance: int, blotter: seq<(ExchMsg, int)>, orders: seq<Assignment>,
    quotes: seq<Order>, nTrades: int)

  // ---- order-keeping filters over lists ----

  /** The customer orders whose id is not `id`, in their order. */
  function WithoutAssignment(os: seq<Assignment>, id: int): (r: seq<Assignment>)
    ensures forall a :: a in r ==> a.assignmentid != id
  {
    if os == [] then []
    else
      var last := os[|os| - 1];
      WithoutAssignment(os[..|os| - 1], id) + (if last.assignmentid != id then [last] else [])
  }

  /** The quotes whose order id is not `oid`, in their order. */
  function WithoutQuote(qs: seq<Order>, oid: int): (r: seq<Order>)
    ensures forall q :: q in r ==> q.orderid != oid
  {
    if qs == [] then []
    else
      var last := qs[|qs| - 1];
      WithoutQuote(qs[..|qs| - 1], oid) + (if last.orderid != oid then [last] else [])
  }

  /** Exactly the entries with a different id stay, each as often as
      before, in their original order. */
  lemma {:induction false} WithoutAssignmentExact(os: seq<Assignment>, id: int)
    ensures forall a :: multiset(WithoutAssignment(os, id))[a] == if a.assignmentid != id then multiset(os)[a] else 0
  {
    if os != [] {
      var init, last := os[..|os| - 1], os[|os| - 1];
      WithoutAssignmentExact(init, id);
      assert os == init + [last];
    }
  }

  lemma {:induction false} WithoutAssignmentInOrder(os: seq<Assignment>, id: int)
    ensures IsSubsequence(WithoutAssignment(os, id), os)
  {
    if os != [] {
      var init, last := os[..|os| - 1], os[|os| - 1];
      WithoutAssignmentInOrder(init, id);
      assert os == init + [last];
      if last.assignmentid != id {
        assert WithoutAssignment(os, id) == WithoutAssignment(init, id) + [last];
        SubsequenceSnoc(WithoutAssignment(init, id), init, last);
      } else {
        assert WithoutAssignment(os, id) == WithoutAssignment(init, id);
        SubsequenceExtend(WithoutAssignment(init, id), init, last);
      }
    }
  }

  lemma {:induction false} WithoutQuoteExact(qs: seq<Order>, oid: int)
    ensures forall q :: multiset(WithoutQuote(qs, oid))[q] == if q.orderid != oid then multiset(qs)[q] else 0
  {
    if qs != [] {
      var init, last := qs[..|qs| - 1], qs[|qs| - 1];
      WithoutQuoteExact(init, oid);
      assert qs == init + [last];
    }
  }

  lemma {:induction false} WithoutQuoteInOrder(qs: seq<Order>, oid: int)
    ensures IsSubsequence(WithoutQuote(qs, oid), qs)
  {
    if qs != [] {
      var init, last := qs[..|qs| - 1], qs[|qs| - 1];
      WithoutQuoteInOrder(init, oid);
      assert qs == init + [last];
      if last.orderid != oid {
        assert WithoutQuote(qs, oid) == WithoutQuote(init, oid) + [last];
        SubsequenceSnoc(WithoutQuote(init, oid), init, last);
      } else {
        assert WithoutQuote(qs, oid) == WithoutQuote(init, oid);
        SubsequenceExtend(WithoutQuote(init, oid), init, last);
      }
    }
  }

  /** `revise_cust_order` on values: the matching orders take quantity
      `qty`, in place. */
  function Revised(os: seq<Assignment>, id: int, qty: int): (r: seq<Assignment>)
    ensures |r| == |os|
  {
    if os == [] then []
    else
      var last := os[|os| - 1];
      Revised(os[..|os| - 1], id, qty) + [if last.assignmentid == id then last.(qty := qty) else last]
  }

  /** The length is unchanged, matching entries change only their quantity
      and every other entry is untouched. */
  lemma {:induction false} RevisedExact(os: seq<Assignment>, id: int, qty: int)
    ensures forall i :: 0 <= i < |os| ==>
              Revised(os, id, qty)[i] == if os[i].assignmentid == id then os[i].(qty := qty) else os[i]
  {
    if os != [] {
      RevisedExact(os[..|os| - 1], id, qty);
    }
  }

  predicate HasAssignment(os: seq<Assignment>, id: int) {
    exists i :: 0 <= i < |os| && os[i].assignmentid == id
  }

  // ---- bookkeeping on values ----

  /** What one transaction earns against the quote's limit price. */
  function Profit(q: Order, t: Transaction): int {
    if q.otype == Bid then (q.price - t.price) * t.qty else (t.price - q.price) * t.qty
  }

  function ProfitSum(q: Order, ts: seq<Transaction>): int {
    if ts == [] then 0 else ProfitSum(q, ts[..|ts| - 1]) + Profit(q, ts[|ts| - 1])
  }

  /** The quote a FILL/PART message is matched to: only the head of the
      list is ever examined, since the loop breaks after its first pass. */
  function HeadQuote(qs: seq<Order>, oid: int): Option<Order> {
    if |qs| > 0 && qs[0].orderid == oid then Some(qs[0]) else None
  }

  /** The effect of a FILL or PART once its balance has been booked. */
  function Settle(b: Books, msg: ExchMsg, q: Order): Option<Books> {
    if msg.event == Fill then
      Some(b.(orders := WithoutAssignment(b.orders, q.myref), quotes := WithoutQuote(b.quotes, q.orderid)))
    else if msg.revo.None? && HasAssignment(b.orders, q.myref) then None
    else
      var qty := if msg.revo.Some? then msg.revo.value.qty else 0;
      var revised := b.(orders := Revised(b.orders, q.myref, qty));
      Some(if q.ostyle == IOC then revised.(quotes := WithoutQuote(b.quotes, q.orderid)) else revised)
  }

  /** `bookkeep(msg, time)` on values: None when the source exits or
      raises (no matching quote, no transactions, a loss, a trade at the
      trader's birth time, a PART with no revised order). */
  function Bookkept(b: Books, msg: ExchMsg, time: real, birthtime: real): Option<Books> {
    var after :=
      if msg.event == Can then Some(b.(quotes := WithoutQuote(b.quotes, msg.oid)))
      else if msg.event == Fill || msg.event == Part then
        match HeadQuote(b.quotes, msg.oid)
        case None => None
        case Some(q) =>
          if msg.trns == [] || time == birthtime then None
          else if exists i :: 0 <= i < |msg.trns| && Profit(q, msg.trns[i]) < 0 then None
          else Settle(b.(balance := b.balance + ProfitSum(q, msg.trns), nTrades := b.nTrades + |msg.trns|), msg, q)
      else Some(b);
    match after
    case None => None
    case Some(a) => Some(a.(blotter := a.blotter + [(msg, a.balance)]))
  }

  /** `len(orders) >= max_cust_orders` drops the head before appending:
      the list stays within its bound and the new order is last. */
  function Admitted(os: seq<Assignment>, maxOrders: int, a: Assignment): (r: seq<Assignment>)
    ensures 1 <= maxOrders && |os| <= maxOrders ==> |r| <= maxOrders
    ensures |r| >= 1 && r[|r| - 1] == a
    ensures |os| < maxOrders ==> r == os + [a]
  {
    (if |os| >= maxOrders && os != [] then os[1..] else os) + [a]
  }

  class Trader {
    const tid: string
    const birthtime: real
    var balance: int
    var blotter: seq<(ExchMsg, int)>
    var orders: seq<Assignment>
    var maxCustOrders: int
    var quotes: seq<Order>
    var nTrades: int
    var lastquote: Option<Order>

    /** The customer order list never exceeds its bound. */
    ghost predicate Valid()
      reads this
    {
      1 <= maxCustOrders && |orders| <= maxCustOrders
    }

    function State(): Books
      reads this
    {
      Books(balance, blotter, orders, quotes, nTrades)
    }

    constructor(tid: string, balance: int, time: real)
      ensures Valid()
      ensures this.tid == tid && birthtime == time
      ensures State() == Books(balance, [], [], [], 0)
      ensures maxCustOrders == 1 && lastquote == None
    {
      this.tid := tid;
      birthtime := time;
      this.balance := balance;
      blotter := [];
      orders := [];
      maxCustOrders := 1;
      quotes := [];
      nTrades := 0;
      lastquote := None;
    }

    /** `add_cust_order`. */
    method AddCustOrder(order: Assignment) returns (response: CustResponse)
      requires Valid()
      modifies this
      ensures Valid()
      ensures response == if old(quotes) != [] then LobCancel else Proceed
      ensures State() == old(State()).(orders := Admitted(old(orders), maxCustOrders, order))
      ensures maxCustOrders == old(maxCustOrders) && lastquote == old(lastquote)
    {
      if |quotes| > 0 {
        response := LobCancel;
      } else {
        response := Proceed;
      }
      if |orders| >= maxCustOrders {
        orders := orders[1..];
      }
      orders := orders + [order];
    }

    /** `del_cust_order`. */
    method DelCustOrder(custOrderId: int)
      requires Valid()
      modifies this
      ensures Valid()
      ensures State() == old(State()).(orders := WithoutAssignment(old(orders), custOrderId))
      ensures maxCustOrders == old(maxCustOrders) && lastquote == old(lastquote)
    {
      var kept: seq<Assignment> := [];
      var i := 0;
      while i < |orders|
        invariant 0 <= i <= |orders|
        invariant kept == WithoutAssignment(orders[..i], custOrderId)
        invariant |kept| <= i
      {
        assert orders[..i + 1][..i] == orders[..i];
        if orders[i].assignmentid != custOrderId {
          kept := kept + [orders[i]];
        }
        i := i + 1;
      }
      assert orders[..i] == orders;
      orders := kept;
    }

    /** `revise_cust_order`; `ok` is false when a matching order meets a
        missing revised order (the source raises). */
    method ReviseCustOrder(custOrderId: int, revisedOrder: Option<Order>) returns (ok: bool)
      requires Valid()
      modifies this
      ensures ok == !(revisedOrder.None? && HasAssignment(old(orders), custOrderId))
      ensures ok ==> Valid()
      ensures ok ==> State() == old(State()).(orders := Revised(old(orders), custOrderId,
                                 if revisedOrder.Some? then revisedOrder.value.qty else 0))
      ensures maxCustOrders == old(maxCustOrders) && lastquote == old(lastquote)
    {
      var qty := if revisedOrder.Some? then revisedOrder.value.qty else 0;
      var kept: seq<Assignment> := [];
      var i := 0;
      while i < |orders|
        invariant 0 <= i <= |orders|
        invariant kept == Revised(orders[..i], custOrderId, qty)
        invariant !HasAssignment(orders[..i], custOrderId) || revisedOrder.Some?
      {
        assert orders[..i + 1][..i] == orders[..i];
        if orders[i].assignmentid != custOrderId {
          kept := kept + [orders[i]];
        } else {
          if revisedOrder.None? {
            assert orders[i].assignmentid == custOrderId;
            return false;
          }
          kept := kept + [orders[i].(qty := qty)];
        }
        assert HasAssignment(orders[..i + 1], custOrderId) ==>
          HasAssignment(orders[..i], custOrderId) || orders[i].assignmentid == custOrderId;
        i := i + 1;
      }
      assert orders[..i] == orders;
      orders := kept;
      ok := true;
    }

    /** `del_exch_order`. */
    method DelExchOrder(oid: int)
      requires Valid()
      modifies this
      ensures Valid()
      ensures State() == old(State()).(quotes := WithoutQuote(old(quotes), oid))
      ensures maxCustOrders == old(maxCustOrders) && lastquote == old(lastquote)
    {
      var kept: seq<Order> := [];
      var i := 0;
      while i < |quotes|
        invariant 0 <= i <= |quotes|
        invariant kept == WithoutQuote(quotes[..i], oid)
      {
        assert quotes[..i + 1][..i] == quotes[..i];
        if quotes[i].orderid != oid {
          kept := kept + [quotes[i]];
        }
        i := i + 1;
      }
      assert quotes[..i] == quotes;
      quotes := kept;
    }

    /** The loop over a FILL/PART's transactions: book each one's profit
        and count it; `ok` is false where the source exits (a trade at the
        trader's birth time, or a loss). */
    method BookTrades(q: Order, trns: seq<Transaction>, time: real) returns (ok: bool)
      requires Valid() && trns != []
      modifies this
      ensures ok <==> time != birthtime && forall i :: 0 <= i < |trns| ==> Profit(q, trns[i]) >= 0
      ensures ok ==> Valid() && State() == old(State()).(balance := old(balance) + ProfitSum(q, trns),
                                                         nTrades := old(nTrades) + |trns|)
      ensures maxCustOrders == old(maxCustOrders) && lastquote == old(lastquote)
    {
      ghost var b0 := State();
      var i := 0;
      while i < |trns|
        invariant 0 <= i <= |trns|
        invariant Valid() && State() == b0.(balance := b0.balance + ProfitSum(q, trns[..i]), nTrades := b0.nTrades + i)
        invariant maxCustOrders == old(maxCustOrders) && lastquote == old(lastquote)
        invariant i > 0 ==> time != birthtime
        invariant forall j :: 0 <= j < i ==> Profit(q, trns[j]) >= 0
      {
        assert trns[..i + 1][..i] == trns[..i];
        var profit := Profit(q, trns[i]);
        balance := balance + profit;
        nTrades := nTrades + 1;
        if time - birthtime == 0.0 {
          return false;
        }
        if profit < 0 {
          return false;
        }
        i := i + 1;
      }
      assert trns[..i] == trns;
      ok := true;
    }

    /** What a FILL or PART does to the customer orders and quotes once
        its transactions are booked. */
    method SettleQuote(msg: ExchMsg, q: Order) returns (ok: bool)
      requires Valid()
      modifies this
      ensures ok == Settle(old(State()), msg, q).Some?
      ensures ok ==> Valid() && State() == Settle(old(State()), msg, q).value
    {
      if msg.event == Fill {
        DelCustOrder(q.myref);
        DelExchOrder(q.orderid);
        ok := true;
      } else {
        ok := ReviseCustOrder(q.myref, msg.revo);
        if ok && q.ostyle == IOC {
          DelExchOrder(q.orderid);
        }
      }
    }

    /** `bookkeep`; `ok` is false where the source exits or raises. */
    method Bookkeep(msg: ExchMsg, time: real) returns (ok: bool)
      requires Valid()
      modifies this
      ensures ok == Bookkept(old(State()), msg, time, birthtime).Some?
      ensures ok ==> Valid() && State() == Bookkept(old(State()), msg, time, birthtime).value
    {
      if msg.event == Can {
        DelExchOrder(msg.oid);
      }
      if msg.event == Fill || msg.event == Part {
        if msg.trns == [] || !(|quotes| > 0 && quotes[0].orderid == msg.oid) {
          return false;
        }
        var exchOrder := quotes[0];
        ok := BookTrades(exchOrder, msg.trns, time);
        if !ok {
          return false;
        }
        ok := SettleQuote(msg, exchOrder);
        if !ok {
          return false;
        }
      }
      blotter := blotter + [(msg, balance)];
      ok := true;
    }

    /** Trader_Giveaway's `getorder`: quote the customer order's own limit
        price. */
    method GiveawayGetOrder(time: real) returns (order: Option<Order>)
      requires Valid()
      modifies this
      ensures Valid() && State() == old(State()) && maxCustOrders == old(maxCustOrders)
      ensures order == GiveawayQuote(tid, orders, time)
      ensures lastquote == if order.Some? then order else old(lastquote)
    {
      if |orders| < 1 {
        order := None;
      } else {
        order := Some(NewOrder(tid, orders[0], orders[0].price, time));
        lastquote := order;
      }
    }

    /** Trader_Shaver's `getorder`: one tick better than the best price on
        its own side, capped at its limit. */
    method ShaverGetOrder(time: real, lob: PublicLob) returns (order: Option<Order>)
      requires Valid()
      requires lob.bids.n > 0 ==> lob.bids.bestp.Some?
      requires lob.asks.n > 0 ==> lob.asks.bestp.Some?
      modifies this
      ensures Valid() && State() == old(State()) && maxCustOrders == old(maxCustOrders)
      ensures order == if orders == [] then None
                       else Some(NewOrder(tid, orders[0], ShaverPrice(orders[0], lob), time))
      ensures lastquote == if order.Some? then order else old(lastquote)
    {
      if |orders| < 1 {
        order := None;
      } else {
        var limitprice := orders[0].price;
        var quoteprice: int;
        if orders[0].atype == Bid {
          if lob.bids.n > 0 {
            quoteprice := lob.bids.bestp.value + 1;
            if quoteprice > limitprice {
              quoteprice := limitprice;
            }
          } else {
            quoteprice := lob.bids.worstp;
          }
        } else {
          if lob.asks.n > 0 {
            quoteprice := lob.asks.bestp.value - 1;
            if quoteprice < limitprice {
              quoteprice := limitprice;
            }
          } else {
            quoteprice := lob.asks.worstp;
          }
        }
        order := Some(NewOrder(tid, orders[0], quoteprice, time));
        lastquote := order;
      }
    }
  }

  /** `Order(tid, atype, astyle, price, qty, time, None, -1)`; the fields
      the constructor does not receive are given -1 and no legs. */
  function NewOrder(tid: string, a: Assignment, price: int, time: real): Order {
    Order(tid, a.atype, a.astyle, price, a.qty, time, -1, -1, -1, [])
  }

  function GiveawayQuote(tid: string, orders: seq<Assignment>, time: real): (r: Option<Order>)
    ensures r.None? <==> orders == []
    ensures r.Some? ==> r.value.price == orders[0].price && r.value.qty == orders[0].qty
                        && r.value.otype == orders[0].atype && r.value.tid == tid
  {
    if orders == [] then None else Some(NewOrder(tid, orders[0], orders[0].price, time))
  }

  /** The Shaver's quote price for customer order `a` against the
      published book. With bids present a Shaver bid is the smaller of one
      above the best bid and its limit; with asks present an ask is the
      larger of one below the best ask and its limit; on an empty side it
      quotes the side's worst price. So while its side has orders a Shaver
      never quotes beyond its limit; on an empty side the worst price is
      quoted whatever the limit. */
  function ShaverPrice(a: Assignment, lob: PublicLob): (p: int)
    requires lob.bids.n > 0 ==> lob.bids.bestp.Some?
    requires lob.asks.n > 0 ==> lob.asks.bestp.Some?
    ensures a.atype == Bid && lob.bids.n > 0 ==>
              p <= a.price && p <= lob.bids.bestp.value + 1
              && (p == a.price || p == lob.bids.bestp.value + 1)
    ensures a.atype == Ask && lob.asks.n > 0 ==>
              p >= a.price && p >= lob.asks.bestp.value - 1
              && (p == a.price || p == lob.asks.bestp.value - 1)
    ensures a.atype == Bid && lob.bids.n <= 0 ==> p == lob.bids.worstp
    ensures a.atype == Ask && lob.asks.n <= 0 ==> p == lob.asks.worstp
  {
    if a.atype == Bid then
      if lob.bids.n > 0 then
        if lob.bids.bestp.value + 1 > a.price then a.price else lob.bids.bestp.value + 1
      else lob.bids.worstp
    else
      if lob.asks.n > 0 then
        if lob.asks.bestp.value - 1 < a.price then a.price else lob.asks.bestp.value - 1
      else lob.asks.worstp
  }

  // ---- properties of the bookkeeping ----

  /** A cancellation only forgets the quote: the balance is unchanged and
      the message is logged with it. */
  lemma CancelKeepsBalance(b: Books, msg: ExchMsg, time: real, birthtime: real)
    requires msg.event == Can
    ensures Bookkept(b, msg, time, birthtime).Some?
    ensures var r := Bookkept(b, msg, time, birthtime).value;
            r.balance == b.balance && r.orders == b.orders && r.nTrades == b.nTrades
            && r.blotter == b.blotter + [(msg, b.balance)]
            && forall q :: q in r.quotes <==> q in b.quotes && q.orderid != msg.oid
  {
    var r := Bookkept(b, msg, time, birthtime).value;
    WithoutQuoteExact(b.quotes, msg.oid);
    forall q ensures q in r.quotes <==> q in b.quotes && q.orderid != msg.oid {
      assert q in r.quotes <==> q in multiset(r.quotes);
      assert q in b.quotes <==> q in multiset(b.quotes);
    }
  }

  /** A FILL or PART that is booked raises the balance by the profit of its
      transactions against the quote's limit, which is never negative, and
      counts one trade per transaction. */
  lemma FillBooksProfit(b: Books, msg: ExchMsg, time: real, birthtime: real)
    requires msg.event == Fill || msg.event == Part
    requires Bookkept(b, msg, time, birthtime).Some?
    ensures HeadQuote(b.quotes, msg.oid).Some?
    ensures var r := Bookkept(b, msg, time, birthtime).value;
            var q := b.quotes[0];
            r.balance == b.balance + ProfitSum(q, msg.trns)
            && r.balance >= b.balance
            && r.nTrades == b.nTrades + |msg.trns|
            && r.blotter == b.blotter + [(msg, r.balance)]
  {
    var q := b.quotes[0];
    ProfitSumNonNegative(q, msg.trns);
  }

  lemma {:induction false} ProfitSumNonNegative(q: Order, ts: seq<Transaction>)
    requires forall i :: 0 <= i < |ts| ==> Profit(q, ts[i]) >= 0
    ensures ProfitSum(q, ts) >= 0
  {
    if ts != [] {
      ProfitSumNonNegative(q, ts[..|ts| - 1]);
    }
  }

  /** A FILL or PART for the head quote with a transaction at a loss
      stops the program. */
  lemma LossIsFatal(b: Books, msg: ExchMsg, time: real, birthtime: real, i: int)
    requires msg.event == Fill || msg.event == Part
    requires HeadQuote(b.quotes, msg.oid).Some?
    requires 0 <= i < |msg.trns| && Profit(b.quotes[0], msg.trns[i]) < 0
    ensures Bookkept(b, msg, time, birthtime).None?
  {
  }

  lemma AssignmentForgotten(os: seq<Assignment>, id: int)
    ensures forall a :: a in WithoutAssignment(os, id) <==> a in os && a.assignmentid != id
  {
    WithoutAssignmentExact(os, id);
    forall a ensures a in WithoutAssignment(os, id) <==> a in os && a.assignmentid != id {
      assert a in WithoutAssignment(os, id) <==> a in multiset(WithoutAssignment(os, id));
      assert a in os <==> a in multiset(os);
    }
  }

  lemma QuoteForgotten(qs: seq<Order>, oid: int)
    ensures forall o :: o in WithoutQuote(qs, oid) <==> o in qs && o.orderid != oid
  {
    WithoutQuoteExact(qs, oid);
    forall o ensures o in WithoutQuote(qs, oid) <==> o in qs && o.orderid != oid {
      assert o in WithoutQuote(qs, oid) <==> o in multiset(WithoutQuote(qs, oid));
      assert o in qs <==> o in multiset(qs);
    }
  }

  /** A booked FILL completes the customer order and the quote: neither
      is listed afterwards, and the others remain. */
  lemma FillForgetsBoth(b: Books, msg: ExchMsg, time: real, birthtime: real)
    requires msg.event == Fill
    requires Bookkept(b, msg, time, birthtime).Some?
    ensures HeadQuote(b.quotes, msg.oid).Some?
    ensures var r := Bookkept(b, msg, time, birthtime).value;
            var q := b.quotes[0];
            (forall a :: a in r.orders <==> a in b.orders && a.assignmentid != q.myref)
            && (forall o :: o in r.quotes <==> o in b.quotes && o.orderid != q.orderid)
  {
    var q := b.quotes[0];
    AssignmentForgotten(b.orders, q.myref);
    QuoteForgotten(b.quotes, q.orderid);
  }

  /** A booked PART keeps the customer order, now with the revised
      order's quantity, and forgets the quote only when it was IOC. */
  lemma PartRevises(b: Books, msg: ExchMsg, time: real, birthtime: real)
    requires msg.event == Part
    requires Bookkept(b, msg, time, birthtime).Some?
    ensures HeadQuote(b.quotes, msg.oid).Some?
    ensures var r := Bookkept(b, msg, time, birthtime).value;
            var q := b.quotes[0];
            |r.orders| == |b.orders|
            && (forall i :: 0 <= i < |b.orders| && b.orders[i].assignmentid != q.myref ==> r.orders[i] == b.orders[i])
            && (forall i :: 0 <= i < |b.orders| && b.orders[i].assignmentid == q.myref ==>
                  msg.revo.Some? && r.orders[i] == b.orders[i].(qty := msg.revo.value.qty))
            && (q.ostyle != IOC ==> r.quotes == b.quotes)
            && (q.ostyle == IOC ==> r.quotes == WithoutQuote(b.quotes, q.orderid))
  {
    var q := b.quotes[0];
    var qty := if msg.revo.Some? then msg.revo.value.qty else 0;
    RevisedExact(b.orders, q.myref, qty);
    forall i | 0 <= i < |b.orders| && b.orders[i].assignmentid == q.myref ensures msg.revo.Some? {
      assert HasAssignment(b.orders, q.myref);
    }
  }

  /** Only the head quote is examined: a message for a quote further down
      the list stops the program even though the quote is live. */
  lemma LaterQuoteNotFound(b: Books, msg: ExchMsg, time: real, birthtime: real)
    requires msg.event == Fill || msg.event == Part
    requires |b.quotes| >= 2 && b.quotes[0].orderid != msg.oid && b.quotes[1].orderid == msg.oid
    ensures Bookkept(b, msg, time, birthtime).None?
  {
  }

  /** With at most one live quote (the traders' own bound) the head-only
      lookup finds the quote whenever a full search would. */
  lemma HeadQuoteSuffices(qs: seq<Order>, oid: int)
    requires |qs| <= 1
    ensures HeadQuote(qs, oid).Some? <==> exists q :: q in qs && q.orderid == oid
  {
    if |qs| == 1 {
      assert qs == [qs[0]];
    }
  }
}
