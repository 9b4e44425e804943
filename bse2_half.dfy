/** `Orderbook_half` in BSE2: one side of a pool's book. The dict of live
    orders is the state; `build_lob` derives the level list and its
    anonymised projection from it after every change. */
module Bse2Half {
  import opened Basics
  import opened PriceLevels
  import opened Bse2Types
  import opened Bse2Lob
  import opened Bse2Walk
  import opened Bse2Take

  // ---- the loops of build_lob ----

  /** The first loop of `build_lob`: visit the live orders in dict order,
      adding each one's quantity and entry to the level at its price. */
  method GroupByPrice(orders: Dict<int, Order>) returns (levels: Dict<int, Level>)
    requires Wf(orders)
    ensures levels == Group(RowsOf(orders))
  {
    var rows := RowsOf(orders);
    levels := EmptyDict();
    assert rows[..0] == [];
    for i := 0 to |orders.keys|
      invariant levels == Group(rows[..i])
    {
      var order := orders.vals[orders.keys[i]];
      var entry := LobEntry(order.time, order.qty, order.tid, order.orderid);
      var level := Get(levels, order.price);
      assert rows[i] == (order.price, entry);
      assert rows[..i + 1][..i] == rows[..i];
      if level.Some? {
        levels := Put(levels, order.price, Level(level.value.qty + order.qty, level.value.entries + [entry]));
      } else {
        levels := Put(levels, order.price, Level(order.qty, [entry]));
      }
    }
    assert rows[..|rows|] == rows;
  }

  /** The second loop of `build_lob`: one [price, entries sorted by arrival]
      level per price. The source lists the levels in dict order and then
      sorts them by price; the prices being distinct, that is the list taken
      in sorted-price order, which is how it is built here. */
  method ListLevels(g: Dict<int, Level>, ps: seq<int>) returns (lob: seq<LobRow>)
    ensures lob == LevelsAt(g, ps)
  {
    lob := [];
    for i := 0 to |ps|
      invariant lob == LevelsAt(g, ps)[..i]
    {
      var level := (ps[i], SortEntries(LevelEntries(g, ps[i])));
      assert level == LevelsAt(g, ps)[i];
      lob := lob + [level];
    }
  }

  /** The third loop of `build_lob`: [price, total quantity] per price, in
      sorted-price order. */
  method Anonymize(g: Dict<int, Level>, ps: seq<int>) returns (anon: seq<(int, int)>)
    ensures anon == Project(g, ps)
  {
    anon := [];
    for i := 0 to |ps|
      invariant |anon| == i
      invariant forall k :: 0 <= k < i ==> anon[k] == (ps[k], QtyAt(g, ps[k]))
    {
      anon := anon + [(ps[i], QtyAt(g, ps[i]))];
    }
  }

  /** The body of `build_lob` on a side of type `side`: the level list,
      the anonymised list and `best_price`. */
  method Build(side: Side, orders: Dict<int, Order>) returns (lob: seq<LobRow>, anon: seq<(int, int)>, best: Option<int>)
    requires Wf(orders)
    ensures lob == LobOf(side, orders) && anon == AnonOf(side, orders)
    ensures best == BestAsWritten(side, anon)
  {
    var g := GroupByPrice(orders);
    var ps := SortedPrices(side, g.keys);
    lob := ListLevels(g, ps);
    anon := Anonymize(g, ps);
    if |lob| > 0 {
      if side == Bid {
        best := Some(anon[|anon| - 1].0);
      } else {
        best := Some(anon[0].0);
      }
    } else {
      best := None;
    }
  }

  // ---- what build_lob lists ----

  /** On a ranked level list, an entry filed at price `p` is in the level
      at `p`. */
  lemma RankedHolds(side: Side, rows: seq<Row>, lob: seq<LobRow>, p: int, e: LobEntry)
    requires Ranked(side, rows, lob) && (p, e) in rows
    ensures exists i :: 0 <= i < |lob| && lob[i].0 == p && e in lob[i].1
  {
    EntriesAtPrice(rows, p, e);
    var i :| 0 <= i < |lob| && lob[i].0 == p;
    assert e in multiset(EntriesAt(rows, p));
    assert e in multiset(lob[i].1);
  }

  /** On a ranked level list, an entry of a level was filed at that
      level's price. */
  lemma RankedFiled(side: Side, rows: seq<Row>, lob: seq<LobRow>, i: int, e: LobEntry)
    requires Ranked(side, rows, lob) && 0 <= i < |lob| && e in lob[i].1
    ensures (lob[i].0, e) in rows
  {
    assert e in multiset(lob[i].1);
    assert e in multiset(EntriesAt(rows, lob[i].0));
    EntriesAtPrice(rows, lob[i].0, e);
  }

  /** Every live order is listed, in the level at its own price. */
  lemma LiveListed(side: Side, orders: Dict<int, Order>, k: int)
    requires Wf(orders) && k in orders.vals
    ensures var lob := LobOf(side, orders);
            exists i :: 0 <= i < |lob| && lob[i].0 == orders.vals[k].price && EntryOf(orders.vals[k]) in lob[i].1
  {
    var o := orders.vals[k];
    BuiltRanked(side, orders);
    var j := LiveRow(orders, k);
    RankedHolds(side, RowsOf(orders), LobOf(side, orders), o.price, EntryOf(o));
  }

  /** Nothing else is listed: an entry of a level is the entry of the live
      order filed under its id, and that order has the level's price. */
  lemma ListedLive(side: Side, orders: Dict<int, Order>, i: int, e: LobEntry)
    requires Wf(orders) && KeyedById(orders)
    requires 0 <= i < |LobOf(side, orders)| && e in LobOf(side, orders)[i].1
    ensures e.id in orders.vals
    ensures EntryOf(orders.vals[e.id]) == e && orders.vals[e.id].price == LobOf(side, orders)[i].0
  {
    var rows := RowsOf(orders);
    var lob := LobOf(side, orders);
    BuiltRanked(side, orders);
    RankedFiled(side, rows, lob, i, e);
    var j :| 0 <= j < |rows| && rows[j] == (lob[i].0, e);
    var k := orders.keys[j];
    assert rows[j] == (orders.vals[k].price, EntryOf(orders.vals[k]));
  }

  /** On a side with live orders, the first anonymised price is the price
      of a live order, and it is at least as good as every live order's. */
  lemma AnonFrontBest(side: Side, orders: Dict<int, Order>)
    requires Wf(orders) && KeyedById(orders) && |orders.keys| > 0
    ensures AnonOf(side, orders) != []
    ensures exists k :: k in orders.vals && orders.vals[k].price == AnonOf(side, orders)[0].0
    ensures forall k :: k in orders.vals ==> side.AtLeast(AnonOf(side, orders)[0].0, orders.vals[k].price)
  {
    BuiltLevels(side, orders);
    FrontPriority(side, orders);
    var e := LobOf(side, orders)[0].1[0];
    assert orders.vals[e.id].price == AnonOf(side, orders)[0].0;
  }

  /** The first anonymised price of a side with live orders, which is its
      best live price. */
  method FrontPrice(side: Side, orders: Dict<int, Order>, anon: seq<(int, int)>) returns (best: int)
    requires Wf(orders) && KeyedById(orders) && |orders.keys| > 0
    requires anon == AnonOf(side, orders)
    ensures anon != [] && best == anon[0].0
    ensures forall k :: k in orders.vals ==> side.AtLeast(best, orders.vals[k].price)
  {
    AnonFrontBest(side, orders);
    best := anon[0].0;
  }

  /** A new key's order is listed after all the others. */
  lemma AppendedEntries(d: Dict<int, Order>, k: int, o: Order)
    requires Wf(d) && k !in d.vals
    ensures BookEntries(Put(d, k, o)) == BookEntries(d) + [EntryOf(o)]
  {
    var r := Put(d, k, o);
    var es := BookEntries(d);
    assert |BookEntries(r)| == |es| + 1;
    forall j | 0 <= j < |es| + 1 ensures BookEntries(r)[j] == (es + [EntryOf(o)])[j] {
      EntryAt(r, j);
      if j < |es| {
        EntryAt(d, j);
      }
    }
  }

  /** `book_add` puts the order's quantity on the side, less that of the
      order it replaces under the same id, if any. */
  lemma AddedQty(d: Dict<int, Order>, o: Order)
    requires Wf(d)
    ensures BookQty(Put(d, o.orderid, o))
            == BookQty(d) - (if o.orderid in d.vals then d.vals[o.orderid].qty else 0) + o.qty
  {
    if o.orderid in d.vals {
      UpdatedEntries(d, o.orderid, o);
    } else {
      var es := BookEntries(d);
      AppendedEntries(d, o.orderid, o);
      assert (es + [EntryOf(o)])[..|es|] == es;
    }
  }

  // ---- the loops of book_take ----

  /** The `depth` loop: add up the anonymised levels from the front while
      their price is acceptable, stopping at the first that is not. */
  method MeasureDepth(side: Side, anon: seq<(int, int)>, p: int) returns (depth: int)
    ensures depth == Depth(side, anon, p)
  {
    depth := 0;
    var i := 0;
    while i < |anon|
      invariant 0 <= i <= |anon|
      invariant depth + Depth(side, anon[i..], p) == Depth(side, anon, p)
    {
      assert anon[i..][1..] == anon[i + 1..];
      if side.AtLeast(anon[i].0, p) {
        depth := depth + anon[i].1;
        i := i + 1;
      } else {
        break;
      }
    }
  }

  /** One trade of the walk against the front entry of the best level, as
      the two branches of the `while` body write it. */
  method TradeFront(taker: Order, poolId: string, time: real, w: Walk) returns (r: Walk)
    requires Fronted(w)
    ensures r == Match(taker, poolId, time, w)
  {
    var price := w.lob[0].0;
    var best := w.lob[0].1[0];
    var seller := if taker.otype == Bid then best.tid else taker.tid;
    var buyer := if taker.otype == Bid then taker.tid else best.tid;
    if best.qty >= w.remaining {
      var t := Transaction(price, w.remaining);
      var trns := w.trns + [t];
      var msgs := w.msgs + [Msg(taker.tid, taker.orderid, Fill, trns, None)];
      var tape := w.tape + [TradeEvent(poolId, time, price, w.remaining, seller, buyer)];
      var left := best.qty - w.remaining;
      if left > 0 {
        var o := w.orders.vals[best.id].(qty := left);
        r := Walk(Put(w.orders, best.id, o), Reduce(w.lob, left), 0, w.goodPrice, trns,
                  msgs + [Msg(best.tid, best.id, Part, [t], Some(o))], tape);
      } else {
        r := Walk(Remove(w.orders, best.id), Drop(w.lob), 0, w.goodPrice, trns,
                  msgs + [Msg(best.tid, best.id, Fill, [t], None)], tape);
      }
    } else {
      var t := Transaction(price, best.qty);
      r := Walk(Remove(w.orders, best.id), Drop(w.lob), w.remaining - best.qty, w.goodPrice, w.trns + [t],
                w.msgs + [Msg(best.tid, best.id, Fill, [t], None)],
                w.tape + [TradeEvent(poolId, time, price, best.qty, seller, buyer)]);
    }
  }

  /** The `while` loop of `book_take`: recompute `good_price` at the front
      level, let an IOC order break out at an unacceptable price, and
      otherwise trade with the front entry. */
  method WalkBook(side: Side, taker: Order, poolId: string, time: real, w0: Walk) returns (w: Walk)
    requires Mirror(w0.orders, w0.lob)
    ensures w == Walked(side, taker, poolId, time, w0)
  {
    w := w0;
    while w.goodPrice && w.remaining > 0 && |w.orders.keys| > 0
      invariant Mirror(w.orders, w.lob)
      invariant Walked(side, taker, poolId, time, w) == Walked(side, taker, poolId, time, w0)
      decreases Measure(w)
    {
      StepKeeps(side, taker, poolId, time, w);
      FrontFiled(w.orders, w.lob);
      var good := side.AtLeast(w.lob[0].0, taker.price);
      if taker.ostyle == IOC && !good {
        ghost var prev := w;
        w := w.(goodPrice := false);
        assert w == Step(side, taker, poolId, time, prev);
        assert Walked(side, taker, poolId, time, w) == w;
        break;
      }
      w := TradeFront(taker, poolId, time, w.(goodPrice := good));
    }
  }

  /** `book_take` on the side's orders `orders`, whose level list and
      anonymised list are `lob` and `anon`: the early FAIL checks, the walk
      and the taker's closing message. `walked` says whether the walk ran
      (only then does the source rebuild the side). */
  method TakeSide(side: Side, orders: Dict<int, Order>, lob: seq<LobRow>, anon: seq<(int, int)>,
                  taker: Order, poolId: string, time: real) returns (t: Taken, walked: bool)
    requires Wf(orders) && KeyedById(orders)
    requires lob == LobOf(side, orders) && anon == AnonOf(side, orders)
    ensures t == Take(side, orders, taker, poolId, time)
    ensures walked <==> !Hopeless(side, orders, taker)
    ensures Wf(t.orders) && KeyedById(t.orders)
  {
    var refusal := Refuse(side, orders, lob, anon, taker);
    if refusal.Some? {
      t := Taken(Response([refusal.value], []), orders);
      walked := false;
      return;
    }
    var good := true;
    if taker.ostyle != MKT {
      good := side.AtLeast(lob[0].0, taker.price);
    }
    var w0 := Walk(orders, lob, taker.qty, good, [], [], []);
    assert w0 == Start(side, orders, taker);
    t := Conclude(side, taker, poolId, time, w0);
    walked := true;
  }

  /** The checks `book_take` makes before the walk, and the FAIL message
      of an order that fails them. */
  method Refuse(side: Side, orders: Dict<int, Order>, lob: seq<LobRow>, anon: seq<(int, int)>, taker: Order)
    returns (refusal: Option<ExchMsg>)
    requires Wf(orders) && lob == LobOf(side, orders) && anon == AnonOf(side, orders)
    ensures refusal.Some? <==> Hopeless(side, orders, taker)
    ensures refusal.Some? ==> refusal.value == Refusal(side, orders, taker)
  {
    if |lob| == 0 {
      return Some(Msg(taker.tid, taker.orderid, Fail, [], None));
    }
    var depth := MeasureDepth(side, anon, taker.price);
    if (taker.ostyle == FOK || taker.ostyle == AON) && depth < taker.qty {
      return Some(Msg(taker.tid, taker.oid, Fail, [], None));
    }
    if taker.ostyle == IOC && depth < 1 {
      return Some(Msg(taker.tid, taker.orderid, Fail, [], None));
    }
    return None;
  }

  /** The walk from `w0`, then the taker's closing message: FAIL if none of
      it traded, PART with the order revised to what remains if some did. */
  method Conclude(side: Side, taker: Order, poolId: string, time: real, w0: Walk) returns (t: Taken)
    requires Mirror(w0.orders, w0.lob)
    ensures t == Concluded(side, taker, poolId, time, w0)
    ensures Wf(t.orders) && KeyedById(t.orders)
  {
    var w := WalkBook(side, taker, poolId, time, w0);
    var closing := Closing(taker, w.remaining, w.trns);
    t := Taken(Response(w.msgs + closing, w.tape), w.orders);
  }

  /** The taker's closing message once the walk stops with `remaining`
      unfilled: FAIL if none of it traded, PART with the order revised to
      what remains if some did, none if it was filled. */
  method Closing(taker: Order, remaining: int, trns: seq<Transaction>) returns (msgs: seq<ExchMsg>)
    ensures forall w: Walk :: w.remaining == remaining && w.trns == trns ==> msgs == Finish(taker, w)
  {
    msgs := [];
    if remaining > 0 {
      if remaining == taker.qty {
        msgs := [Msg(taker.tid, taker.orderid, Fail, [], None)];
      } else {
        msgs := [Msg(taker.tid, taker.orderid, Part, trns, Some(taker.(qty := remaining)))];
      }
    }
  }

  // ---- the side's other fields ----

  /** A side's fields besides its orders: `best_price`, `n_orders`, and
      the orders waiting for the market's open and for its close. */
  datatype Cache = Cache(bestPrice: Option<int>, nOrders: Option<int>, onOpen: seq<Order>, onClose: seq<Order>)

  /** After `book_add` or `book_CAN` on a side now holding `orders`:
      `n_orders` counts them and `build_lob` writes `best_price`; the
      waiting lists are kept. */
  function Recounted(side: Side, c: Cache, orders: Dict<int, Order>): Cache
    requires Wf(orders)
  {
    c.(bestPrice := BestAsWritten(side, AnonOf(side, orders)), nOrders := Some(|orders.keys|))
  }

  /** After `add_lim_order`: as after `book_add`, then `best_price`
      overwritten with the first anonymised price. */
  function Repriced(side: Side, c: Cache, orders: Dict<int, Order>): Cache
    requires Wf(orders) && KeyedById(orders) && |orders.keys| > 0
  {
    AnonFrontBest(side, orders);
    Recounted(side, c, orders).(bestPrice := Some(AnonOf(side, orders)[0].0))
  }

  /** After `book_take` of `taker` from a side holding `orders`: unless the
      order fails before the walk, `build_lob` writes `best_price` from
      what the walk leaves; `n_orders` and the waiting lists are kept. */
  function Retaken(side: Side, c: Cache, orders: Dict<int, Order>, taker: Order, poolId: string, time: real): Cache
    requires Wf(orders) && KeyedById(orders)
  {
    if Hopeless(side, orders, taker) then c
    else
      TakeConserves(side, orders, taker, poolId, time);
      c.(bestPrice := BestAsWritten(side, AnonOf(side, Take(side, orders, taker, poolId, time).orders)))
  }

  // ---- the side ----

  class OrderbookHalf {
    const bookType: Side
    const worstPrice: int
    /** Live orders keyed by order id, in arrival order. */
    var orders: Dict<int, Order>
    var bestPrice: Option<int>
    /** `n_orders`: None until the first `book_add`; `book_take` leaves it
        as it was. */
    var nOrders: Option<int>
    /** Orders waiting for the market to open or close. */
    var onOpen: seq<Order>
    var onClose: seq<Order>

    /** Every live order is filed under its own order id. */
    ghost predicate Valid()
      reads this
    {
      Wf(orders) && KeyedById(orders)
    }

    /** The fields besides `orders`. */
    function Cached(): Cache
      reads this
    {
      Cache(bestPrice, nOrders, onOpen, onClose)
    }

    /** `lob`: every method that changes `orders` rebuilds it, so it is
        always the level list of the live orders. */
    function Lob(): seq<LobRow>
      reads this
      requires Valid()
    {
      LobOf(bookType, orders)
    }

    /** `lob_anon`, likewise always that of the live orders. */
    function LobAnon(): seq<(int, int)>
      reads this
      requires Valid()
    {
      AnonOf(bookType, orders)
    }

    constructor(bookType: Side, worstPrice: int)
      ensures Valid()
      ensures this.bookType == bookType && this.worstPrice == worstPrice
      ensures orders == EmptyDict() && Lob() == [] && LobAnon() == []
      ensures bestPrice == None && nOrders == None && onOpen == [] && onClose == []
    {
      this.bookType := bookType;
      this.worstPrice := worstPrice;
      orders := EmptyDict();
      bestPrice := None;
      nOrders := None;
      onOpen := [];
      onClose := [];
      new;
      assert RowsOf(orders) == [];
    }

    /** `build_lob`: regroup the live orders by price, list the levels best
        price first, anonymise them, and record `best_price` (the last
        anonymised price for bids, the first for asks). */
    method BuildLob()
      requires Valid()
      modifies this
      ensures Valid() && orders == old(orders) && nOrders == old(nOrders)
      ensures bestPrice == BestAsWritten(bookType, LobAnon())
      ensures onOpen == old(onOpen) && onClose == old(onClose)
    {
      var _, _, best := Build(bookType, orders);
      bestPrice := best;
    }

    /** `book_add`: file the order under its order id (replacing one filed
        there already, in place) and rebuild. */
    method BookAdd(order: Order)
      requires Valid()
      modifies this
      ensures Valid()
      ensures orders == Put(old(orders), order.orderid, order)
      ensures nOrders == Some(|orders.keys|) && bestPrice == BestAsWritten(bookType, LobAnon())
      ensures onOpen == old(onOpen) && onClose == old(onClose)
    {
      File(order);
      BuildLob();
    }

    /** The filing half of `book_add`: `orders[orderid] = order`, then
        `n_orders` recounted. */
    method File(order: Order)
      requires Valid()
      modifies this
      ensures Valid()
      ensures orders == Put(old(orders), order.orderid, order) && nOrders == Some(|orders.keys|)
      ensures bestPrice == old(bestPrice) && onOpen == old(onOpen) && onClose == old(onClose)
    {
      var d := Put(orders, order.orderid, order);
      assert Wf(d) && KeyedById(d);
      orders := d;
      nOrders := Some(|d.keys|);
    }

    /** This side's part of `add_lim_order`: `book_add`, then `best_price`
        overwritten with the first anonymised price, the best live one. */
    method AddAndPrice(order: Order)
      requires Valid()
      modifies this
      ensures Valid()
      ensures orders == Put(old(orders), order.orderid, order) && nOrders == Some(|orders.keys|)
      ensures LobAnon() != [] && bestPrice == Some(LobAnon()[0].0)
      ensures forall k :: k in orders.vals ==> bookType.AtLeast(bestPrice.value, orders.vals[k].price)
      ensures onOpen == old(onOpen) && onClose == old(onClose)
    {
      BookAdd(order);
      var best := FrontPrice(bookType, orders, AnonOf(bookType, orders));
      bestPrice := Some(best);
    }

    /** `book_CAN`: delete the order with the given id, rebuild, and report
        one CAN message to its trader and one CAN tape event carrying the
        deleted quantity. An id that is not live is fatal (None). */
    method BookCan(time: real, order: Order, poolId: string) returns (r: Option<Response>)
      requires Valid()
      modifies this
      ensures Valid()
      ensures r.None? <==> order.orderid !in old(orders.vals)
      ensures r.None? ==> orders == old(orders) && bestPrice == old(bestPrice) && nOrders == old(nOrders)
      ensures r.Some? ==>
                orders == Remove(old(orders), order.orderid)
                && nOrders == Some(|orders.keys|) && bestPrice == BestAsWritten(bookType, LobAnon())
                && r.value == Response([ExchMsg(order.tid, order.orderid, Can, [], None, 0, 0)],
                                       [CanEvent(poolId, time, order.orderid, bookType,
                                                 old(orders).vals[order.orderid].qty)])
      ensures onOpen == old(onOpen) && onClose == old(onClose)
    {
      var oid := order.orderid;
      if |orders.keys| > 0 && Get(orders, oid).Some? {
        var oQty := orders.vals[oid].qty;
        Delete(oid);
        var tmsg := ExchMsg(order.tid, oid, Can, [], None, 0, 0);
        r := Some(Response([tmsg], [CanEvent(poolId, time, oid, bookType, oQty)]));
      } else {
        r := None;
      }
    }

    /** The deletion in `book_CAN`: `del orders[oid]`, recount, rebuild. */
    method Delete(oid: int)
      requires Valid() && oid in orders.vals
      modifies this
      ensures Valid()
      ensures orders == Remove(old(orders), oid)
      ensures nOrders == Some(|orders.keys|) && bestPrice == BestAsWritten(bookType, LobAnon())
      ensures onOpen == old(onOpen) && onClose == old(onClose)
    {
      var d := Remove(orders, oid);
      assert Wf(d) && KeyedById(d);
      orders := d;
      nOrders := Some(|d.keys|);
      BuildLob();
    }

    /** `book_take`: the taking order walks this side; the side keeps what
        the walk leaves and is rebuilt, unless the order failed before the
        walk, which leaves the side untouched. */
    method BookTake(time: real, order: Order, poolId: string) returns (response: Response)
      requires Valid()
      modifies this
      ensures Valid()
      ensures response == Take(bookType, old(orders), order, poolId, time).response
      ensures orders == Take(bookType, old(orders), order, poolId, time).orders
      ensures bestPrice == if Hopeless(bookType, old(orders), order) then old(bestPrice)
                           else BestAsWritten(bookType, LobAnon())
      ensures nOrders == old(nOrders) && onOpen == old(onOpen) && onClose == old(onClose)
    {
      var t, walked := TakeSide(bookType, orders, LobOf(bookType, orders), AnonOf(bookType, orders), order, poolId, time);
      response := t.response;
      if walked {
        orders := t.orders;
        BuildLob();
      }
    }
  }
}
