/** `Orderbook_half.book_take` as a whole: the checks that fail an order
    before it touches the book, the walk, and the message that tells the
    taker how it ended. */
module Bse2Take {
  import opened Basics
  import opened PriceLevels
  import opened Bse2Types
  import opened Bse2Lob
  import opened Bse2Walk

  /** The cumulative quantity of the levels of `lob_anon`, from the front,
      whose price is acceptable for a taker limited to `p`: the `depth`
      loop, which stops at the first unacceptable level. */
  function Depth(side: Side, anon: seq<(int, int)>, p: int): int {
    if anon == [] || !side.AtLeast(anon[0].0, p) then 0
    else anon[0].1 + Depth(side, anon[1..], p)
  }

  lemma {:induction false} DepthOfLevels(side: Side, anon: seq<(int, int)>, lob: seq<LobRow>, p: int)
    requires |anon| == |lob|
    requires forall i :: 0 <= i < |lob| ==> anon[i] == (lob[i].0, SumQty(lob[i].1))
    ensures Depth(side, anon, p) == GoodQty(side, lob, p)
  {
    if anon != [] {
      DepthOfLevels(side, anon[1..], lob[1..], p);
    }
  }

  /** Measured on the published levels, the depth is the quantity resting
      at acceptable prices in the level list. */
  lemma DepthOfBook(side: Side, orders: Dict<int, Order>, p: int)
    requires Wf(orders)
    ensures Depth(side, AnonOf(side, orders), p) == GoodQty(side, LobOf(side, orders), p)
  {
    BuiltLevels(side, orders);
    DepthOfLevels(side, AnonOf(side, orders), LobOf(side, orders), p);
  }

  /** The taker's closing message after the walk: FAIL if nothing was
      filled, PART with the order revised to what remains if some was,
      nothing more if the FILL was already sent. */
  function Finish(taker: Order, w: Walk): seq<ExchMsg> {
    if w.remaining > 0 then
      if w.remaining == taker.qty then [Msg(taker.tid, taker.orderid, Fail, [], None)]
      else [Msg(taker.tid, taker.orderid, Part, w.trns, Some(taker.(qty := w.remaining)))]
    else []
  }

  /** What `book_take` returns, and the side's orders afterwards. */
  datatype Taken = Taken(response: Response, orders: Dict<int, Order>)

  /** The order fails before the walk: the side is empty, a FOK or AON
      order cannot be filled completely at acceptable prices, or an IOC
      order cannot be filled at all. */
  predicate Hopeless(side: Side, orders: Dict<int, Order>, taker: Order)
    requires Wf(orders)
  {
    LobOf(side, orders) == []
    || ((taker.ostyle == FOK || taker.ostyle == AON) && Depth(side, AnonOf(side, orders), taker.price) < taker.qty)
    || (taker.ostyle == IOC && Depth(side, AnonOf(side, orders), taker.price) < 1)
  }

  /** The FAIL message of a hopeless order; the FOK/AON one names the
      order's `oid` attribute rather than its `orderid`. */
  function Refusal(side: Side, orders: Dict<int, Order>, taker: Order): ExchMsg
    requires Wf(orders)
  {
    if LobOf(side, orders) != [] && (taker.ostyle == FOK || taker.ostyle == AON)
       && Depth(side, AnonOf(side, orders), taker.price) < taker.qty
    then Msg(taker.tid, taker.oid, Fail, [], None)
    else Msg(taker.tid, taker.orderid, Fail, [], None)
  }

  /** The walk's starting state: the side as built, the whole quantity to
      fill, and `good_price` as first computed (always true for MKT). */
  function Start(side: Side, orders: Dict<int, Order>, taker: Order): (w: Walk)
    requires Wf(orders) && KeyedById(orders)
    ensures Mirror(w.orders, w.lob)
  {
    BuiltMirrors(side, orders);
    var lob := LobOf(side, orders);
    var good := taker.ostyle == MKT || (lob != [] && side.AtLeast(lob[0].0, taker.price));
    Walk(orders, lob, taker.qty, good, [], [], [])
  }

  /** The walk from `w0` to its end, and the taker's closing message. */
  function Concluded(side: Side, taker: Order, poolId: string, time: real, w0: Walk): Taken
    requires Mirror(w0.orders, w0.lob)
  {
    var w := Walked(side, taker, poolId, time, w0);
    Taken(Response(w.msgs + Finish(taker, w), w.tape), w.orders)
  }

  /** `book_take` on a side of type `side`. */
  function Take(side: Side, orders: Dict<int, Order>, taker: Order, poolId: string, time: real): Taken
    requires Wf(orders) && KeyedById(orders)
  {
    if Hopeless(side, orders, taker) then
      Taken(Response([Refusal(side, orders, taker)], []), orders)
    else
      Concluded(side, taker, poolId, time, Start(side, orders, taker))
  }

  /** The side's level list is empty exactly when the side has no order. */
  lemma EmptySide(side: Side, orders: Dict<int, Order>)
    requires Wf(orders) && KeyedById(orders)
    ensures LobOf(side, orders) == [] <==> |orders.keys| == 0
  {
    BuiltMirrors(side, orders);
    FlatEmpty(LobOf(side, orders));
  }

  /** An order fails untouched, with one FAIL message, no tape event and
      the side unchanged, when the side is empty, when it is FOK or AON and
      the quantity at acceptable prices is short of it, or when it is IOC and
      there is none. */
  lemma TakeRefused(side: Side, orders: Dict<int, Order>, taker: Order, poolId: string, time: real)
    requires Wf(orders) && KeyedById(orders)
    requires var depth := GoodQty(side, LobOf(side, orders), taker.price);
             |orders.keys| == 0
             || ((taker.ostyle == FOK || taker.ostyle == AON) && depth < taker.qty)
             || (taker.ostyle == IOC && depth < 1)
    ensures var r := Take(side, orders, taker, poolId, time);
            r.orders == orders && r.response.tape == []
            && |r.response.msgs| == 1 && r.response.msgs[0].event == Fail
            && r.response.msgs[0].tid == taker.tid && r.response.msgs[0].trns == []
  {
    EmptySide(side, orders);
    DepthOfBook(side, orders, taker.price);
  }

  /** A walk from a fresh start takes off the side exactly the quantity it
      trades, keeps no order the side did not have, keeps the side well
      formed, and puts only trades on the tape. */
  lemma ConcludedConserves(side: Side, taker: Order, poolId: string, time: real, w0: Walk)
    requires Mirror(w0.orders, w0.lob) && w0.trns == [] && w0.tape == []
    ensures var r := Concluded(side, taker, poolId, time, w0);
            Wf(r.orders) && KeyedById(r.orders)
            && (forall k :: k in r.orders.vals ==> k in w0.orders.vals)
            && BookQty(r.orders) == BookQty(w0.orders) - TapeQty(r.response.tape)
            && forall i :: 0 <= i < |r.response.tape| ==> r.response.tape[i].TradeEvent?
  {
    var w := Walked(side, taker, poolId, time, w0);
    WalkedConserves(side, taker, poolId, time, w0);
    MatchesQty(w.tape, w.trns);
  }

  /** The side loses exactly the quantity traded, keeps no order it did not
      have, stays well formed, and every tape event is a trade. */
  lemma TakeConserves(side: Side, orders: Dict<int, Order>, taker: Order, poolId: string, time: real)
    requires Wf(orders) && KeyedById(orders)
    ensures var r := Take(side, orders, taker, poolId, time);
            Wf(r.orders) && KeyedById(r.orders)
            && (forall k :: k in r.orders.vals ==> k in orders.vals)
            && BookQty(r.orders) == BookQty(orders) - TapeQty(r.response.tape)
            && forall i :: 0 <= i < |r.response.tape| ==> r.response.tape[i].TradeEvent?
  {
    if !Hopeless(side, orders, taker) {
      ConcludedConserves(side, taker, poolId, time, Start(side, orders, taker));
    }
  }

  /** The taker hears about itself exactly once: FILL when all of it
      traded, FAIL when none did, otherwise PART with the order revised to
      what remains; FILL and PART carry every transaction. */
  ghost predicate ToldOnce(taker: Order, r: Taken) {
    var m := About(r.response.msgs, taker.orderid);
    var filled := TapeQty(r.response.tape);
    |m| == 1 && m[0].tid == taker.tid
    && (m[0].event == Fill || m[0].event == Part || m[0].event == Fail)
    && (m[0].event == Fill <==> filled == taker.qty)
    && (m[0].event == Fail <==> filled == 0)
    && (m[0].event == Part ==> m[0].revo == Some(taker.(qty := taker.qty - filled)))
    && (m[0].event != Fail ==> SumTrns(m[0].trns) == filled)
  }

  lemma FinishTold(taker: Order, w: Walk)
    requires TakerTold(taker, w) && taker.qty > 0
    requires SumTrns(w.trns) + w.remaining == taker.qty && TapeQty(w.tape) == SumTrns(w.trns)
    ensures ToldOnce(taker, Taken(Response(w.msgs + Finish(taker, w), w.tape), w.orders))
  {
    var fin := Finish(taker, w);
    if fin != [] {
      assert w.msgs + fin == w.msgs + [fin[0]];
      AboutSnoc(w.msgs, fin[0], taker.orderid);
    } else {
      assert w.msgs + fin == w.msgs;
    }
  }

  lemma ConcludedTold(side: Side, taker: Order, poolId: string, time: real, w0: Walk)
    requires Mirror(w0.orders, w0.lob) && w0.trns == [] && w0.tape == [] && w0.msgs == []
    requires w0.remaining == taker.qty > 0 && taker.orderid !in w0.orders.vals
    ensures ToldOnce(taker, Concluded(side, taker, poolId, time, w0))
  {
    var w := Walked(side, taker, poolId, time, w0);
    WalkedConserves(side, taker, poolId, time, w0);
    MatchesQty(w.tape, w.trns);
    WalkedTold(side, taker, poolId, time, w0);
    FinishTold(taker, w);
  }

  /** An order with a fresh id and a positive quantity that gets past the
      initial checks receives exactly one message about itself. */
  lemma TakeTold(side: Side, orders: Dict<int, Order>, taker: Order, poolId: string, time: real)
    requires Wf(orders) && KeyedById(orders) && !Hopeless(side, orders, taker)
    requires taker.qty > 0 && taker.orderid !in orders.vals
    ensures ToldOnce(taker, Take(side, orders, taker, poolId, time))
  {
    ConcludedTold(side, taker, poolId, time, Start(side, orders, taker));
  }

  /** Every trade on the tape is at a price acceptable to the taker,
      except possibly the last one. */
  ghost predicate FairTape(side: Side, taker: Order, tape: seq<TapeEvent>, all: bool) {
    forall i :: 0 <= i < |tape| && (all || i < |tape| - 1) ==>
      tape[i].TradeEvent? && side.AtLeast(tape[i].price, taker.price)
  }

  lemma ConcludedPriced(side: Side, taker: Order, poolId: string, time: real, w0: Walk)
    requires Mirror(w0.orders, w0.lob) && w0.trns == [] && w0.tape == []
    ensures var r := Concluded(side, taker, poolId, time, w0);
            FairTape(side, taker, r.response.tape, taker.ostyle == IOC)
  {
    var w := Walked(side, taker, poolId, time, w0);
    WalkedConserves(side, taker, poolId, time, w0);
    WalkedPriced(side, taker, poolId, time, w0);
  }

  /** Only the last trade of a walk can be at a price the taker would not
      accept, and for an IOC order (which a crossing limit order becomes)
      none is. */
  lemma TakePriced(side: Side, orders: Dict<int, Order>, taker: Order, poolId: string, time: real)
    requires Wf(orders) && KeyedById(orders)
    ensures FairTape(side, taker, Take(side, orders, taker, poolId, time).response.tape, taker.ostyle == IOC)
  {
    if !Hopeless(side, orders, taker) {
      ConcludedPriced(side, taker, poolId, time, Start(side, orders, taker));
    }
  }

  /** A covered walk ends with the whole quantity on the tape. */
  lemma WalkFilled(side: Side, taker: Order, poolId: string, time: real, w0: Walk)
    requires Mirror(w0.orders, w0.lob) && w0.trns == [] && w0.tape == []
    requires Covered(side, taker, w0) && w0.remaining == taker.qty
    ensures TapeQty(Walked(side, taker, poolId, time, w0).tape) == taker.qty
  {
    var w := Walked(side, taker, poolId, time, w0);
    WalkedConserves(side, taker, poolId, time, w0);
    MatchesQty(w.tape, w.trns);
    WalkedCovered(side, taker, poolId, time, w0);
    CoveredFilled(side, taker, w);
  }

  /** The tape of a walk whose transactions were all at acceptable prices
      is fair. */
  lemma PricedTapeFair(side: Side, taker: Order, w: Walk)
    requires Matches(w.tape, w.trns) && Priced(side, taker, w) && w.goodPrice
    ensures FairTape(side, taker, w.tape, true)
  {
  }

  /** A walk that starts at an acceptable price trades only at acceptable
      prices. */
  lemma WalkFair(side: Side, taker: Order, poolId: string, time: real, w0: Walk)
    requires Mirror(w0.orders, w0.lob) && w0.trns == [] && w0.tape == []
    requires Covered(side, taker, w0)
    ensures FairTape(side, taker, Walked(side, taker, poolId, time, w0).tape, true)
  {
    WalkedConserves(side, taker, poolId, time, w0);
    WalkedPriced(side, taker, poolId, time, w0);
    WalkedCovered(side, taker, poolId, time, w0);
    PricedTapeFair(side, taker, Walked(side, taker, poolId, time, w0));
  }

  lemma ConcludedFilled(side: Side, taker: Order, poolId: string, time: real, w0: Walk)
    requires Mirror(w0.orders, w0.lob) && w0.trns == [] && w0.tape == []
    requires Covered(side, taker, w0) && w0.remaining == taker.qty
    ensures var r := Concluded(side, taker, poolId, time, w0);
            TapeQty(r.response.tape) == taker.qty && FairTape(side, taker, r.response.tape, true)
  {
    WalkFilled(side, taker, poolId, time, w0);
    WalkFair(side, taker, poolId, time, w0);
  }

  /** FOK and AON are all or nothing: short of acceptable depth the side
      is untouched and nothing trades; otherwise the whole quantity trades,
      every trade at an acceptable price. */
  lemma TakeAllOrNothing(side: Side, orders: Dict<int, Order>, taker: Order, poolId: string, time: real)
    requires Wf(orders) && KeyedById(orders)
    requires (taker.ostyle == FOK || taker.ostyle == AON) && taker.qty > 0
    ensures var r := Take(side, orders, taker, poolId, time);
            var depth := GoodQty(side, LobOf(side, orders), taker.price);
            (depth < taker.qty ==> r.orders == orders && r.response.tape == [])
            && (depth >= taker.qty ==>
                  TapeQty(r.response.tape) == taker.qty && FairTape(side, taker, r.response.tape, true))
  {
    DepthOfBook(side, orders, taker.price);
    if GoodQty(side, LobOf(side, orders), taker.price) >= taker.qty {
      ConcludedFilled(side, taker, poolId, time, Start(side, orders, taker));
    }
  }

  /** `book_take` leaves only orders the side had, at their prices. */
  lemma TakeKeptPrices(side: Side, orders: Dict<int, Order>, taker: Order, poolId: string, time: real)
    requires Wf(orders) && KeyedById(orders)
    ensures KeptPrices(orders, Take(side, orders, taker, poolId, time).orders)
  {
    if !Hopeless(side, orders, taker) {
      WalkedKeptPrices(side, taker, poolId, time, Start(side, orders, taker));
    }
  }
}
