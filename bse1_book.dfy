/** One side of the single-instrument book of the threaded lineage
    (`OrderbookHalf` in tbse_exchange.py, TBSE_exchange.py and BSE.py): at most
    one order per trader, kept in a dict keyed by trader id, from which the
    price levels, the anonymised view and the best price are rebuilt after
    every change. */
module Bse1Book {
  import opened Basics
  import opened PriceLevels

  /** A trader's quote: `toid` is stamped by the exchange, `coid` is the id of
      the customer order it works. */
  datatype Order = Order(tid: string, otype: Side, price: int, qty: int, time: real, coid: int, toid: int)

  datatype AddResponse = Addition | Overwrite

  type Orders = Dict<string, Order>

  // ---- specification functions over the orders dict ----

  /** The orders dict is keyed by each order's trader id. */
  ghost predicate KeyedByTid(orders: Orders) {
    forall k :: k in orders.vals ==> orders.vals[k].tid == k
  }

  /** The `i`-th order in dict order. */
  function OrderAt(orders: Orders, i: int): Order
    requires Wf(orders) && 0 <= i < |orders.keys|
  {
    orders.vals[orders.keys[i]]
  }

  function RowOf(o: Order): Row {
    (o.price, LobEntry(o.time, o.qty, o.tid, o.toid))
  }

  function Rows(orders: Orders): seq<Row>
    requires Wf(orders)
  {
    seq(|orders.keys|, i requires 0 <= i < |orders.keys| => RowOf(OrderAt(orders, i)))
  }

  /** The `lob` dict `build_lob` derives from the orders. */
  function LobOf(orders: Orders): Dict<int, Level>
    requires Wf(orders)
  {
    Group(Rows(orders))
  }

  /** The best price as `build_lob` reads it off the ascending anonymised
      list: its last price for bids, its first for asks. */
  function BestOf(side: Side, anon: seq<(int, int)>): Option<int> {
    if anon == [] then None
    else if side == Bid then Some(anon[|anon| - 1].0)
    else Some(anon[0].0)
  }

  function BestPriceOf(side: Side, orders: Orders): Option<int>
    requires Wf(orders)
  {
    BestOf(side, AnonAsc(LobOf(orders)))
  }

  /** The trader id of the first entry `lob` lists at price `best`. */
  function FirstTidAt(lob: Dict<int, Level>, best: Option<int>): Option<string> {
    match best
    case None => None
    case Some(p) =>
      match Get(lob, p)
      case Some(l) => if l.entries == [] then None else Some(l.entries[0].tid)
      case None => None
  }

  /** The trader id of the first entry listed at the best price. */
  function BestTidOf(side: Side, orders: Orders): Option<string>
    requires Wf(orders)
  {
    FirstTidAt(LobOf(orders), BestPriceOf(side, orders))
  }

  /** Whether `delete_best` raises: the side is empty (`lob[None]`), or the
      best level's total is 1, orders remain, yet no other price does
      (`max` or `min` of no keys). */
  ghost predicate DeleteCrashes(side: Side, orders: Orders)
    requires Wf(orders)
  {
    BestPriceOf(side, orders).None?
    || (QtyAt(LobOf(orders), BestPriceOf(side, orders).value) == 1
        && |orders.keys| > 1 && |LobOf(orders).keys| == 1)
  }

  /** Neither side is empty and the best bid is not below the best ask. */
  ghost predicate Crossed(bids: Orders, asks: Orders)
    requires Wf(bids) && Wf(asks)
  {
    BestPriceOf(Bid, bids).Some? && BestPriceOf(Ask, asks).Some?
    && BestPriceOf(Bid, bids).value >= BestPriceOf(Ask, asks).value
  }

  // ---- properties of the derived book ----

  lemma RowsAt(orders: Orders, p: int, e: LobEntry)
    requires Wf(orders)
    ensures e in EntriesAt(Rows(orders), p) <==>
              exists i :: 0 <= i < |orders.keys| && RowOf(OrderAt(orders, i)) == (p, e)
  {
    var rows := Rows(orders);
    EntriesAtPrice(rows, p, e);
    if (p, e) in rows {
      var i :| 0 <= i < |rows| && rows[i] == (p, e);
      assert RowOf(OrderAt(orders, i)) == (p, e);
    }
    if exists i :: 0 <= i < |orders.keys| && RowOf(OrderAt(orders, i)) == (p, e) {
      var i :| 0 <= i < |orders.keys| && RowOf(OrderAt(orders, i)) == (p, e);
      assert rows[i] == (p, e);
    }
  }

  /** Every live order's price is listed in the anonymised book. */
  lemma PricesListed(orders: Orders)
    requires Wf(orders)
    ensures forall k :: k in orders.vals ==> orders.vals[k].price in Prices(AnonAsc(LobOf(orders)))
  {
    var rows := Rows(orders);
    AnonOfGroup(rows);
    forall k | k in orders.vals ensures orders.vals[k].price in Prices(AnonAsc(LobOf(orders))) {
      var i :| 0 <= i < |orders.keys| && orders.keys[i] == k;
      assert rows[i] == RowOf(orders.vals[k]);
      EntriesAtPrice(rows, orders.vals[k].price, RowOf(orders.vals[k]).1);
    }
  }

  /** Over a strictly ascending anonymised list, the best price is listed and
      no listed price is better. */
  lemma BestOfBounds(side: Side, anon: seq<(int, int)>)
    requires StrictlyAscending(Prices(anon))
    ensures BestOf(side, anon).None? <==> anon == []
    ensures BestOf(side, anon).Some? ==> BestOf(side, anon).value in Prices(anon)
    ensures BestOf(side, anon).Some? ==>
              forall q :: q in Prices(anon) ==> side.AtLeast(BestOf(side, anon).value, q)
  {
  }

  /** `b` is the best price of the orders: None exactly when there are none;
      otherwise some order rests at it and no bid is higher (no ask lower). */
  ghost predicate IsBest(side: Side, orders: Orders, b: Option<int>) {
    (b.None? <==> orders.keys == [])
    && (b.Some? ==> exists k :: k in orders.vals && orders.vals[k].price == b.value)
    && (b.Some? ==> forall k :: k in orders.vals ==> side.AtLeast(b.value, orders.vals[k].price))
  }

  /** The best price `build_lob` reads off the sorted levels is the extreme
      price of the live orders. */
  lemma BestPriceIsExtreme(side: Side, orders: Orders)
    requires Wf(orders)
    ensures IsBest(side, orders, BestPriceOf(side, orders))
  {
    var anon := AnonAsc(LobOf(orders));
    AnonOfGroup(Rows(orders));
    BestOfBounds(side, anon);
    PricesListed(orders);
    if orders.keys != [] {
      assert orders.keys[0] in orders.vals;
      BestOrderExists(side, orders);
    }
  }

  lemma BestOrderExists(side: Side, orders: Orders)
    requires Wf(orders) && BestPriceOf(side, orders).Some?
    ensures exists k :: k in orders.vals && orders.vals[k].price == BestPriceOf(side, orders).value
  {
    var rows := Rows(orders);
    var p := BestPriceOf(side, orders).value;
    AnonOfGroup(rows);
    BestOfBounds(side, AnonAsc(LobOf(orders)));
    var e := EntriesAt(rows, p)[0];
    EntriesAtPrice(rows, p, e);
    var i :| 0 <= i < |rows| && rows[i] == (p, e);
    assert orders.keys[i] in orders.vals;
  }

  lemma {:induction false} FirstEntryAt(rows: seq<Row>, p: int, i: int)
    requires 0 <= i < |rows| && rows[i].0 == p
    requires forall j :: 0 <= j < i ==> rows[j].0 != p
    ensures EntriesAt(rows, p) != [] && EntriesAt(rows, p)[0] == rows[i].1
  {
    var init := rows[..|rows| - 1];
    if i == |rows| - 1 {
      if EntriesAt(init, p) != [] {
        EntriesAtPrice(init, p, EntriesAt(init, p)[0]);
        assert false;
      }
    } else {
      FirstEntryAt(init, p, i);
    }
  }

  /** The best trader id belongs to the first order, in dict order, among
      those at the best price. */
  lemma BestTidIsFirstAtBest(side: Side, orders: Orders, i: int)
    requires Wf(orders) && KeyedByTid(orders)
    requires 0 <= i < |orders.keys| && BestPriceOf(side, orders) == Some(OrderAt(orders, i).price)
    requires forall j :: 0 <= j < i ==> OrderAt(orders, j).price != OrderAt(orders, i).price
    ensures BestTidOf(side, orders) == Some(orders.keys[i])
  {
    var p := OrderAt(orders, i).price;
    FirstEntryAt(Rows(orders), p, i);
    GroupAt(Rows(orders), p);
    assert orders.keys[i] in orders.vals;
  }

  /** When only one order rests at the best price, it is the best trader id. */
  lemma SoleAtBest(side: Side, orders: Orders, t: string)
    requires Wf(orders) && KeyedByTid(orders) && t in orders.vals
    requires BestPriceOf(side, orders) == Some(orders.vals[t].price)
    requires forall k :: k in orders.vals && k != t ==> orders.vals[k].price != orders.vals[t].price
    ensures BestTidOf(side, orders) == Some(t)
  {
    var i :| 0 <= i < |orders.keys| && orders.keys[i] == t;
    forall j | 0 <= j < i ensures OrderAt(orders, j).price != OrderAt(orders, i).price {
      assert orders.keys[j] in orders.vals;
    }
    BestTidIsFirstAtBest(side, orders, i);
  }

  /** The level at the best price is listed in the book, is not empty, and
      its first entry names the best trader id, which is a key of the orders
      dict. */
  lemma BestLevel(side: Side, orders: Orders)
    requires Wf(orders) && KeyedByTid(orders)
    requires BestPriceOf(side, orders).Some?
    ensures Get(LobOf(orders), BestPriceOf(side, orders).value).Some?
    ensures Get(LobOf(orders), BestPriceOf(side, orders).value).value.entries != []
    ensures BestTidOf(side, orders)
            == Some(Get(LobOf(orders), BestPriceOf(side, orders).value).value.entries[0].tid)
    ensures BestTidOf(side, orders).value in orders.vals
  {
    var lob := LobOf(orders);
    var p := BestPriceOf(side, orders).value;
    AnonOfGroup(Rows(orders));
    BestOfBounds(side, AnonAsc(lob));
    GroupedLevels(Rows(orders));
    assert p in lob.vals by {
      GroupAt(Rows(orders), p);
    }
    EntryIsOrder(orders, p, lob.vals[p].entries[0]);
  }

  /** Every side that is not empty has a best trader id, and it is a key of
      the orders dict. */
  lemma BestTidIsKey(side: Side, orders: Orders)
    requires Wf(orders) && KeyedByTid(orders)
    ensures BestTidOf(side, orders).Some? <==> orders.keys != []
    ensures BestTidOf(side, orders).Some? ==> BestTidOf(side, orders).value in orders.vals
  {
    BestPriceIsExtreme(side, orders);
    if orders.keys != [] {
      BestLevel(side, orders);
    }
  }

  /** Every level lists at least one entry. */
  ghost predicate LevelsOccupied(lob: Dict<int, Level>) {
    forall p :: p in lob.vals ==> lob.vals[p].entries != []
  }

  /** The levels `build_lob` groups are well formed and none is empty. */
  lemma GroupedLevels(rows: seq<Row>)
    ensures Wf(Group(rows)) && LevelsOccupied(Group(rows))
  {
    GroupWf(rows);
    forall p | p in Group(rows).vals ensures Group(rows).vals[p].entries != [] {
      GroupAt(rows, p);
    }
  }

  /** Over well-formed, occupied levels, the anonymised list has one pair
      per level and its best price names a level. */
  lemma BestListed(side: Side, lob: Dict<int, Level>)
    requires Wf(lob)
    ensures |AnonAsc(lob)| == |lob.keys|
    ensures BestOf(side, AnonAsc(lob)).Some? <==> |lob.keys| > 0
    ensures BestOf(side, AnonAsc(lob)).Some? ==> BestOf(side, AnonAsc(lob)).value in lob.vals
  {
    AnonAscOrdered(lob);
    if AnonAsc(lob) != [] {
      BestAmongPrices(side, AnonAsc(lob));
    }
  }

  lemma BestAmongPrices(side: Side, anon: seq<(int, int)>)
    requires anon != []
    ensures BestOf(side, anon).value in Prices(anon)
  {
    var i := if side == Bid then |anon| - 1 else 0;
    assert Prices(anon)[i] == anon[i].0;
  }

  /** Each entry `build_lob` lists belongs to a live order. */
  lemma EntryIsOrder(orders: Orders, p: int, e: LobEntry)
    requires Wf(orders) && KeyedByTid(orders)
    requires p in LobOf(orders).vals && e in LobOf(orders).vals[p].entries
    ensures e.tid in orders.vals
  {
    GroupAt(Rows(orders), p);
    RowsAt(orders, p, e);
    var i :| 0 <= i < |orders.keys| && RowOf(OrderAt(orders, i)) == (p, e);
    assert orders.keys[i] in orders.vals;
  }

  /** Every order on the side is for at least one unit. */
  ghost predicate PositiveQty(orders: Orders) {
    forall k :: k in orders.vals ==> orders.vals[k].qty >= 1
  }

  lemma {:induction false} SumQtyAtLeastCount(es: seq<LobEntry>)
    requires forall i :: 0 <= i < |es| ==> es[i].qty >= 1
    ensures SumQty(es) >= |es|
  {
    if es != [] {
      SumQtyAtLeastCount(es[..|es| - 1]);
    }
  }

  /** The entry `build_lob` lists for each order is at that order's price,
      for that order's quantity and trader id. */
  lemma EntryOfOrder(orders: Orders, i: int)
    requires Wf(orders) && 0 <= i < |orders.keys|
    ensures RowOf(OrderAt(orders, i)).1 in EntriesAt(Rows(orders), OrderAt(orders, i).price)
  {
    assert Rows(orders)[i] == RowOf(OrderAt(orders, i));
    EntriesAtPrice(Rows(orders), OrderAt(orders, i).price, RowOf(OrderAt(orders, i)).1);
  }

  lemma {:induction false} EntriesAtAll(rows: seq<Row>, p: int)
    requires forall i :: 0 <= i < |rows| ==> rows[i].0 == p
    ensures |EntriesAt(rows, p)| == |rows|
  {
    if rows != [] {
      EntriesAtAll(rows[..|rows| - 1], p);
    }
  }

  /** When every order is for at least one unit, `delete_best` raises only
      on an empty side: the best level's total is at least its number of
      orders, and with a single level every order is in it. */
  lemma NoCrashWhenPositive(side: Side, orders: Orders)
    requires Wf(orders) && KeyedByTid(orders) && PositiveQty(orders)
    ensures DeleteCrashes(side, orders) <==> orders.keys == []
  {
    BestPriceIsExtreme(side, orders);
    if orders.keys != [] {
      var rows := Rows(orders);
      var lob := LobOf(orders);
      var p := BestPriceOf(side, orders).value;
      var es := EntriesAt(rows, p);
      GroupedLevels(rows);
      BestListed(side, lob);
      GroupAt(rows, p);
      forall i | 0 <= i < |es| ensures es[i].qty >= 1 {
        EntriesAtPrice(rows, p, es[i]);
        var j :| 0 <= j < |rows| && rows[j] == (p, es[i]);
        assert orders.keys[j] in orders.vals;
      }
      SumQtyAtLeastCount(es);
      assert QtyAt(lob, p) >= |es|;
      if |lob.keys| == 1 {
        PricesListed(orders);
        AnonAscOrdered(lob);
        forall i | 0 <= i < |rows| ensures rows[i].0 == p {
          assert orders.keys[i] in orders.vals;
        }
        EntriesAtAll(rows, p);
      }
    }
  }

  // ---- the book half ----

  class OrderbookHalf {
    const bookType: Side
    const worstPrice: int
    /** Live orders, keyed by trader id, in insertion order. */
    var orders: Orders
    var lob: Dict<int, Level>
    var lobAnon: seq<(int, int)>
    var bestPrice: Option<int>
    var bestTid: Option<string>
    var nOrders: int
    var lobDepth: int

    /** Everything but `orders` (and `lobDepth`) is derived from `orders`. */
    ghost predicate Valid()
      reads this
    {
      Wf(orders) && KeyedByTid(orders) && nOrders == |orders.keys|
      && lob == LobOf(orders) && lobAnon == AnonAsc(lob)
      && bestPrice == BestOf(bookType, lobAnon)
      && bestTid == FirstTidAt(lob, bestPrice)
    }

    constructor(bookType: Side, worstPrice: int)
      ensures Valid()
      ensures this.bookType == bookType && this.worstPrice == worstPrice
      ensures orders == EmptyDict() && lobDepth == 0
    {
      this.bookType := bookType;
      this.worstPrice := worstPrice;
      orders := EmptyDict();
      lob := EmptyDict();
      lobAnon := [];
      bestPrice := None;
      bestTid := None;
      nOrders := 0;
      lobDepth := 0;
      new;
      assert Rows(orders) == [];
    }

    /** `anonymize_lob`: the [price, qty] pairs of `lob` by ascending price. */
    method AnonymizeLob()
      modifies this
      ensures lobAnon == AnonAsc(lob)
      ensures orders == old(orders) && lob == old(lob) && nOrders == old(nOrders)
      ensures lobDepth == old(lobDepth) && bestPrice == old(bestPrice) && bestTid == old(bestTid)
    {
      var prices := SortAsc(lob.keys);
      var anon := [];
      for i := 0 to |prices|
        invariant |anon| == i
        invariant forall k :: 0 <= k < i ==> anon[k] == (prices[k], QtyAt(lob, prices[k]))
      {
        anon := anon + [(prices[i], QtyAt(lob, prices[i]))];
      }
      assert anon == Project(lob, prices);
      lobAnon := anon;
    }

    /** `build_lob`: regroup the orders by price, re-anonymise, and read the
        best price and its first trader id off the result. */
    method BuildLob()
      modifies this
      requires Wf(orders)
      ensures orders == old(orders) && nOrders == old(nOrders) && lobDepth == old(lobDepth)
      ensures lob == LobOf(orders) && lobAnon == AnonAsc(lob)
      ensures bestPrice == BestOf(bookType, lobAnon) && bestTid == FirstTidAt(lob, bestPrice)
    {
      lob := GroupByPrice(orders);
      AnonymizeLob();
      GroupedLevels(Rows(orders));
      bestPrice, bestTid := ReadBest(bookType, lob, lobAnon);
    }

    /** `book_add`: store the order under its trader id, replacing that
        trader's previous order in place, and rebuild. */
    method BookAdd(order: Order) returns (response: AddResponse)
      requires Valid()
      modifies this
      ensures Valid()
      ensures orders == Put(old(orders), order.tid, order)
      ensures response == if order.tid in old(orders.vals) then Overwrite else Addition
      ensures lobDepth == old(lobDepth)
    {
      var n := nOrders;
      orders := Put(orders, order.tid, order);
      nOrders := |orders.keys|;
      BuildLob();
      if n != nOrders {
        response := Addition;
      } else {
        response := Overwrite;
      }
    }

    /** `book_del`: drop the trader's order from this side, if it has one. */
    method BookDel(order: Order)
      requires Valid()
      modifies this
      ensures Valid()
      ensures orders == Remove(old(orders), order.tid)
      ensures lobDepth == old(lobDepth)
    {
      if Get(orders, order.tid).Some? {
        orders := Remove(orders, order.tid);
        nOrders := |orders.keys|;
        BuildLob();
      }
    }

    /** The lines of `add_order` and `del_order` that re-read the best price
        and its trader id off the rebuilt book: the last anonymised pair for
        bids, the first for asks, or None for an empty side. They write back
        what `build_lob` already derived. */
    method RefreshBest()
      requires Valid()
      modifies this
      ensures Valid()
      ensures orders == old(orders) && lobDepth == old(lobDepth)
    {
      if nOrders > 0 {
        GroupedLevels(Rows(orders));
        var best, tid := ReadBest(bookType, lob, lobAnon);
        bestPrice := best;
        bestTid := tid;
      } else {
        BestPriceIsExtreme(bookType, orders);
        bestPrice := None;
        bestTid := None;
      }
    }

    /** `delete_best`: remove the first order at the best price and return
        its trader id; None where the source raises. */
    method DeleteBest() returns (counterparty: Option<string>)
      requires Valid()
      modifies this
      ensures counterparty.None? <==> DeleteCrashes(bookType, old(orders))
      ensures counterparty.Some? ==>
                counterparty == BestTidOf(bookType, old(orders)) && Valid()
                && orders == Remove(old(orders), counterparty.value)
                && |orders.keys| == |old(orders.keys)| - 1
      ensures counterparty.Some? ==>
                lobDepth == if QtyAt(old(lob), old(bestPrice).value) != 1 then old(lobDepth)
                            else if old(nOrders) > 1 then |old(lob.keys)| - 1
                            else 0
    {
      CrashFromFields();
      if bestPrice.None? {
        return None;
      }
      BestLevelListed();
      var level := Get(lob, bestPrice.value).value;
      if level.qty == 1 && nOrders - 1 > 0 && |lob.keys| - 1 == 0 {
        return None;
      }
      var cp := TakeBest();
      counterparty := Some(cp);
    }

    /** The cached fields say what the specification functions say of the
        orders. */
    lemma CrashFromFields()
      requires Valid()
      ensures bestPrice == BestPriceOf(bookType, orders) && bestTid == BestTidOf(bookType, orders)
      ensures DeleteCrashes(bookType, orders) <==>
                bestPrice.None? || (QtyAt(lob, bestPrice.value) == 1 && nOrders > 1 && |lob.keys| == 1)
    {
    }

    /** The best level exists in `lob` and lists at least one entry. */
    lemma BestLevelListed()
      requires Valid() && bestPrice.Some?
      ensures Wf(lob) && LevelsOccupied(lob) && bestPrice.value in lob.vals
    {
      GroupedLevels(Rows(orders));
      BestListed(bookType, lob);
    }

    /** The successful path of `delete_best`. */
    method TakeBest() returns (cp: string)
      requires Valid() && Wf(lob) && bestPrice.Some? && bestPrice.value in lob.vals
      requires lob.vals[bestPrice.value].entries != []
      requires !(QtyAt(lob, bestPrice.value) == 1 && nOrders - 1 > 0 && |lob.keys| - 1 == 0)
      modifies this
      ensures Some(cp) == old(bestTid) && Valid()
      ensures orders == Remove(old(orders), cp) && |orders.keys| == |old(orders.keys)| - 1
      ensures lobDepth == if QtyAt(old(lob), old(bestPrice).value) != 1 then old(lobDepth)
                          else if old(nOrders) > 1 then |old(lob.keys)| - 1
                          else 0
    {
      var best := bestPrice.value;
      var level := lob.vals[best];
      cp := level.entries[0].tid;
      EntryIsOrder(orders, best, level.entries[0]);
      // the levels and best price this leaves are recomputed by `BuildLob`
      var _, _, depth := ShrinkBest(bookType, lob, best, nOrders, worstPrice, lobDepth);
      DropOrder(cp, depth);
    }

    /** `del(self.orders[counterparty])`, the count, the depth and the
        rebuilt levels. */
    method DropOrder(cp: string, depth: int)
      requires Valid() && cp in orders.vals
      modifies this
      ensures Valid() && lobDepth == depth
      ensures orders == Remove(old(orders), cp) && |orders.keys| == |old(orders.keys)| - 1
    {
      var rest := Remove(orders, cp);
      assert Wf(rest) && KeyedByTid(rest) && |rest.keys| == nOrders - 1;
      lobDepth := depth;
      nOrders := nOrders - 1;
      orders := rest;
      BuildLob();
    }
  }

  /** The middle of `delete_best`: take one unit off the best level, dropping
      the level when it held one unit and then re-reading the best price (or
      the worst price once the side is empty) and the depth. `build_lob`
      recomputes the levels and best price afterwards, so only the depth
      outlives the call. */
  method ShrinkBest(side: Side, lob: Dict<int, Level>, best: int, n: int, worst: int, depth: int)
    returns (levels: Dict<int, Level>, price: Option<int>, newDepth: int)
    requires Wf(lob) && best in lob.vals && lob.vals[best].entries != []
    requires !(lob.vals[best].qty == 1 && n - 1 > 0 && |lob.keys| - 1 == 0)
    ensures newDepth == if lob.vals[best].qty != 1 then depth
                        else if n - 1 > 0 then |lob.keys| - 1
                        else 0
  {
    var level := lob.vals[best];
    levels, price, newDepth := lob, Some(best), depth;
    if level.qty == 1 {
      levels := Remove(lob, best);
      if n - 1 > 0 {
        price := Some(if side == Bid then Largest(levels.keys) else Smallest(levels.keys));
        newDepth := |levels.keys|;
      } else {
        price := Some(worst);
        newDepth := 0;
      }
    } else {
      levels := Put(lob, best, Level(level.qty - 1, level.entries[1..]));
    }
  }

  /** The tail of `build_lob`: the best price off the anonymised list (its
      last pair for bids, its first for asks) and the trader id of the first
      entry at that price; both None when there are no levels. */
  method ReadBest(side: Side, lob: Dict<int, Level>, anon: seq<(int, int)>)
    returns (best: Option<int>, tid: Option<string>)
    requires Wf(lob) && LevelsOccupied(lob) && anon == AnonAsc(lob)
    ensures best == BestOf(side, anon) && tid == FirstTidAt(lob, best)
    ensures best.Some? <==> tid.Some?
  {
    BestListed(side, lob);
    if |lob.keys| > 0 {
      if side == Bid {
        best := Some(anon[|anon| - 1].0);
      } else {
        best := Some(anon[0].0);
      }
      tid := Some(Get(lob, best.value).value.entries[0].tid);
    } else {
      best, tid := None, None;
    }
  }

  /** The first loop of `build_lob`: group the orders, in dict order, into
      price levels. */
  method GroupByPrice(orders: Orders) returns (levels: Dict<int, Level>)
    requires Wf(orders)
    ensures levels == LobOf(orders)
  {
    var rows := Rows(orders);
    levels := EmptyDict();
    assert rows[..0] == [];
    for i := 0 to |orders.keys|
      invariant levels == Group(rows[..i])
    {
      var order := orders.vals[orders.keys[i]];
      var entry := LobEntry(order.time, order.qty, order.tid, order.toid);
      var level := Get(levels, order.price);
      assert rows[i] == (order.price, entry);
      assert rows[..i + 1][..i] == rows[..i];
      if level.Some? {
        levels := Put(levels, order.price, Level(level.value.qty + order.qty, level.value.entries + [entry]));
      } else {
        levels := Put(levels, order.price, Level(order.qty, [entry]));
      }
    }
    assert rows[..|rows|] == rows;
  }

  function Largest(s: seq<int>): (m: int)
    requires s != []
    ensures m in s && forall x :: x in s ==> x <= m
  {
    if |s| == 1 then s[0]
    else
      var t := Largest(s[1..]);
      assert s == [s[0]] + s[1..];
      if s[0] >= t then s[0] else t
  }

  function Smallest(s: seq<int>): (m: int)
    requires s != []
    ensures m in s && forall x :: x in s ==> m <= x
  {
    if |s| == 1 then s[0]
    else
      var t := Smallest(s[1..]);
      assert s == [s[0]] + s[1..];
      if s[0] <= t then s[0] else t
  }
}
