/** `Orderbook_half.book_take` in BSE2: a liquidity-taking order walks the
    front of one side of the book, trading with the oldest order at the best
    price until it is filled, the side is empty, or (for IOC) the price is no
    longer acceptable. */
module Bse2Walk {
  import opened Basics
  import opened PriceLevels
  import opened Bse2Types
  import opened Bse2Lob

  /** `add_msg`: every message `book_take` sends carries the taker fee and
      a zero balance. */
  function Msg(tid: string, oid: int, event: MsgEvent, trns: seq<Transaction>, revo: Option<Order>): ExchMsg {
    ExchMsg(tid, oid, event, trns, revo, TakeFee, 0)
  }

  /** The walk's working state: the side's orders and level list as the
      loop edits them, `qty_remaining`, `good_price`, and what has been
      collected so far. */
  datatype Walk = Walk(
    orders: Dict<int, Order>, lob: seq<LobRow>, remaining: int, goodPrice: bool,
    trns: seq<Transaction>, msgs: seq<ExchMsg>, tape: seq<TapeEvent>)

  /** The `while` condition. */
  predicate Continues(w: Walk) {
    w.goodPrice && w.remaining > 0 && |w.orders.keys| > 0
  }

  function Measure(w: Walk): nat {
    |w.orders.keys| + if w.goodPrice && w.remaining > 0 then 1 else 0
  }

  /** The level list with its front entry deleted, and the front level with
      it once that level is empty. */
  function Drop(lob: seq<LobRow>): seq<LobRow>
    requires lob != [] && lob[0].1 != []
  {
    if |lob[0].1| == 1 then lob[1..] else [(lob[0].0, lob[0].1[1..])] + lob[1..]
  }

  /** The level list with the front entry's quantity set to `q`. */
  function Reduce(lob: seq<LobRow>, q: int): seq<LobRow>
    requires lob != [] && lob[0].1 != []
  {
    [(lob[0].0, [lob[0].1[0].(qty := q)] + lob[0].1[1..])] + lob[1..]
  }

  lemma Cons3<T>(x: T, a: seq<T>, b: seq<T>)
    ensures ([x] + a) + b == [x] + (a + b)
  {
  }

  /** Both edits leave the tail of the front level ahead of the rest. */
  lemma FlatTail(lob: seq<LobRow>)
    requires lob != [] && lob[0].1 != []
    ensures Flat(lob) == lob[0].1 + Flat(lob[1..])
    ensures Flat(Drop(lob)) == lob[0].1[1..] + Flat(lob[1..])
  {
    if |lob[0].1| == 1 {
      assert lob[0].1[1..] == [];
    } else {
      assert Drop(lob)[1..] == lob[1..];
    }
  }

  lemma FlatDrop(lob: seq<LobRow>)
    requires lob != [] && lob[0].1 != []
    ensures Flat(lob) == [lob[0].1[0]] + Flat(Drop(lob))
  {
    var level := lob[0].1;
    FlatTail(lob);
    assert level == [level[0]] + level[1..];
    Cons3(level[0], level[1..], Flat(lob[1..]));
  }

  lemma FlatReduce(lob: seq<LobRow>, q: int)
    requires lob != [] && lob[0].1 != []
    ensures Flat(Reduce(lob, q)) == [lob[0].1[0].(qty := q)] + Flat(Drop(lob))
  {
    var level := lob[0].1;
    var red := Reduce(lob, q);
    var x := level[0].(qty := q);
    FlatTail(lob);
    assert red[1..] == lob[1..];
    assert Flat(red) == ([x] + level[1..]) + Flat(lob[1..]);
    Cons3(x, level[1..], Flat(lob[1..]));
  }

  /** An entry of the live orders is the entry of the order filed under
      its id. */
  lemma Filed(orders: Dict<int, Order>, e: LobEntry)
    requires Wf(orders) && KeyedById(orders) && e in multiset(BookEntries(orders))
    ensures e.id in orders.vals && EntryOf(orders.vals[e.id]) == e
  {
    var es := BookEntries(orders);
    var i :| 0 <= i < |es| && es[i] == e;
    EntryAt(orders, i);
    var k := orders.keys[i];
    assert orders.vals[k].orderid == k;
  }

  /** The front entry of a mirrored, non-empty side is a live order filed
      under its own id. */
  lemma FrontFiled(orders: Dict<int, Order>, lob: seq<LobRow>)
    requires Mirror(orders, lob) && |orders.keys| > 0
    ensures lob != [] && lob[0].1 != []
    ensures lob[0].1[0].id in orders.vals && EntryOf(orders.vals[lob[0].1[0].id]) == lob[0].1[0]
  {
    EntryAt(orders, 0);
    assert |multiset(Flat(lob))| > 0;
    assert lob != [];
    assert Flat(lob) == lob[0].1 + Flat(lob[1..]);
    var e := lob[0].1[0];
    assert e in multiset(Flat(lob));
    Filed(orders, e);
  }

  /** The front level holds an entry, and its order is live. */
  predicate Fronted(w: Walk) {
    w.lob != [] && w.lob[0].1 != [] && w.lob[0].1[0].id in w.orders.vals
  }

  /** One pass of the `while` body: recompute `good_price` at the front
      level; an IOC order stops there if it is not acceptable, any other
      order trades with the front entry. */
  function Step(side: Side, taker: Order, poolId: string, time: real, w: Walk): Walk
    requires Mirror(w.orders, w.lob) && Continues(w)
  {
    FrontFiled(w.orders, w.lob);
    var good := side.AtLeast(w.lob[0].0, taker.price);
    if taker.ostyle == IOC && !good then w.(goodPrice := false)
    else Match(taker, poolId, time, w.(goodPrice := good))
  }

  /** The trade between the taker and the front entry, at the front
      level's price: the taker is filled if the entry holds enough (the
      entry is then reduced, or deleted when nothing is left of it);
      otherwise the entry is consumed and deleted. */
  function Match(taker: Order, poolId: string, time: real, w: Walk): Walk
    requires Fronted(w)
  {
    var price := w.lob[0].0;
    var e := w.lob[0].1[0];
    var seller := if taker.otype == Bid then e.tid else taker.tid;
    var buyer := if taker.otype == Bid then taker.tid else e.tid;
    if e.qty >= w.remaining then
      var t := Transaction(price, w.remaining);
      var trns := w.trns + [t];
      var fill := Msg(taker.tid, taker.orderid, Fill, trns, None);
      var tape := w.tape + [TradeEvent(poolId, time, price, w.remaining, seller, buyer)];
      var left := e.qty - w.remaining;
      if left > 0 then
        var o := w.orders.vals[e.id].(qty := left);
        Walk(Put(w.orders, e.id, o), Reduce(w.lob, left), 0, w.goodPrice, trns,
             w.msgs + [fill, Msg(e.tid, e.id, Part, [t], Some(o))], tape)
      else
        Walk(Remove(w.orders, e.id), Drop(w.lob), 0, w.goodPrice, trns,
             w.msgs + [fill, Msg(e.tid, e.id, Fill, [t], None)], tape)
    else
      var t := Transaction(price, e.qty);
      Walk(Remove(w.orders, e.id), Drop(w.lob), w.remaining - e.qty, w.goodPrice, w.trns + [t],
           w.msgs + [Msg(e.tid, e.id, Fill, [t], None)],
           w.tape + [TradeEvent(poolId, time, price, e.qty, seller, buyer)])
  }

  lemma LevelsFilled(lob: seq<LobRow>, q: int)
    requires lob != [] && forall i :: 0 <= i < |lob| ==> lob[i].1 != []
    ensures forall i :: 0 <= i < |Drop(lob)| ==> Drop(lob)[i].1 != []
    ensures forall i :: 0 <= i < |Reduce(lob, q)| ==> Reduce(lob, q)[i].1 != []
  {
    var d := Drop(lob);
    forall i | 0 <= i < |d| ensures d[i].1 != [] {
      if |lob[0].1| == 1 {
        assert d[i] == lob[i + 1];
      } else if i > 0 {
        assert d[i] == lob[i];
      }
    }
    var red := Reduce(lob, q);
    forall i | 0 < i < |red| ensures red[i].1 != [] {
      assert red[i] == lob[i];
    }
  }

  /** Deleting the front entry and the order behind it keeps the level list
      a mirror of the orders and takes the entry's quantity off the side. */
  lemma RemoveFront(orders: Dict<int, Order>, lob: seq<LobRow>)
    requires Mirror(orders, lob) && |orders.keys| > 0
    ensures lob != [] && lob[0].1 != []
    ensures var e := lob[0].1[0];
            var r := Remove(orders, e.id);
            Mirror(r, Drop(lob)) && |r.keys| == |orders.keys| - 1
            && BookQty(r) == BookQty(orders) - e.qty
            && forall k :: k in r.vals <==> k in orders.vals && k != e.id
  {
    FrontFiled(orders, lob);
    var e := lob[0].1[0];
    DroppedBag(lob);
    LevelsFilled(lob, 0);
    RemovedEntries(orders, e.id);
    RemoveKeyed(orders, e.id);
  }

  lemma RemoveKeyed(d: Dict<int, Order>, k: int)
    requires KeyedById(d)
    ensures KeyedById(Remove(d, k))
  {
  }

  lemma DroppedBag(lob: seq<LobRow>)
    requires lob != [] && lob[0].1 != []
    ensures multiset(Flat(Drop(lob))) == multiset(Flat(lob)) - multiset{lob[0].1[0]}
  {
    FlatDrop(lob);
  }

  lemma PutKeyed(d: Dict<int, Order>, k: int, o: Order)
    requires KeyedById(d) && o.orderid == k
    ensures KeyedById(Put(d, k, o))
  {
  }

  /** The entries of the level list after the front entry's quantity is set
      to `q`: the old entry out, the rewritten one in. */
  lemma ReducedBag(lob: seq<LobRow>, q: int)
    requires lob != [] && lob[0].1 != []
    ensures multiset(Flat(Reduce(lob, q)))
            == multiset(Flat(lob)) - multiset{lob[0].1[0]} + multiset{lob[0].1[0].(qty := q)}
  {
    FlatDrop(lob);
    FlatReduce(lob, q);
  }

  /** Setting the front order's quantity to `q`, in the dict and in the
      level list alike, keeps the mirror and changes the side's total by the
      difference. */
  lemma ReduceFront(orders: Dict<int, Order>, lob: seq<LobRow>, q: int)
    requires Mirror(orders, lob) && |orders.keys| > 0
    ensures lob != [] && lob[0].1 != [] && lob[0].1[0].id in orders.vals
    ensures var e := lob[0].1[0];
            var r := Put(orders, e.id, orders.vals[e.id].(qty := q));
            Mirror(r, Reduce(lob, q)) && r.keys == orders.keys
            && BookQty(r) == BookQty(orders) - e.qty + q
  {
    FrontFiled(orders, lob);
    var e := lob[0].1[0];
    var o := orders.vals[e.id].(qty := q);
    ReducedBag(lob, q);
    LevelsFilled(lob, q);
    UpdatedEntries(orders, e.id, o);
    PutKeyed(orders, e.id, o);
  }

  /** A trade with an entry that holds more than the taker needs rewrites
      that entry's quantity and fills the taker. */
  lemma PartialShape(taker: Order, poolId: string, time: real, w: Walk)
    requires Fronted(w) && w.lob[0].1[0].qty > w.remaining
    ensures var r := Match(taker, poolId, time, w);
            var e := w.lob[0].1[0];
            r.orders == Put(w.orders, e.id, w.orders.vals[e.id].(qty := e.qty - w.remaining))
            && r.lob == Reduce(w.lob, e.qty - w.remaining) && r.remaining == 0
  {
  }

  /** Any other trade deletes the front entry and its order. */
  lemma RemovalShape(taker: Order, poolId: string, time: real, w: Walk)
    requires Fronted(w) && w.lob[0].1[0].qty <= w.remaining
    ensures var r := Match(taker, poolId, time, w);
            r.orders == Remove(w.orders, w.lob[0].1[0].id) && r.lob == Drop(w.lob)
  {
  }

  /** `ReduceFront` for a dict and a level list that are known to be the
      rewritten ones. */
  lemma Reduced(orders: Dict<int, Order>, lob: seq<LobRow>, q: int, ro: Dict<int, Order>, rl: seq<LobRow>)
    requires Mirror(orders, lob) && |orders.keys| > 0
    requires lob != [] && lob[0].1 != [] && lob[0].1[0].id in orders.vals
    requires ro == Put(orders, lob[0].1[0].id, orders.vals[lob[0].1[0].id].(qty := q)) && rl == Reduce(lob, q)
    ensures Mirror(ro, rl) && ro.keys == orders.keys
    ensures BookQty(ro) == BookQty(orders) - lob[0].1[0].qty + q
  {
    ReduceFront(orders, lob, q);
  }

  /** `RemoveFront` for a dict and a level list that are known to be the
      edited ones. */
  lemma Removed(orders: Dict<int, Order>, lob: seq<LobRow>, ro: Dict<int, Order>, rl: seq<LobRow>)
    requires Mirror(orders, lob) && |orders.keys| > 0
    requires lob != [] && lob[0].1 != []
    requires ro == Remove(orders, lob[0].1[0].id) && rl == Drop(lob)
    ensures Mirror(ro, rl) && |ro.keys| < |orders.keys|
    ensures forall k :: k in ro.vals ==> k in orders.vals
    ensures BookQty(ro) == BookQty(orders) - lob[0].1[0].qty
  {
    RemoveFront(orders, lob);
  }

  /** A trade keeps the level list a mirror of the orders, never brings
      back an order, and either deletes an order or fills the taker. */
  lemma MatchKeeps(taker: Order, poolId: string, time: real, w: Walk)
    requires Mirror(w.orders, w.lob) && |w.orders.keys| > 0
    requires Fronted(w)
    ensures var r := Match(taker, poolId, time, w);
            Mirror(r.orders, r.lob)
            && (|r.orders.keys| < |w.orders.keys| || (|r.orders.keys| == |w.orders.keys| && r.remaining == 0))
            && forall k :: k in r.orders.vals ==> k in w.orders.vals
  {
    var r := Match(taker, poolId, time, w);
    if w.lob[0].1[0].qty > w.remaining {
      PartialShape(taker, poolId, time, w);
      Reduced(w.orders, w.lob, w.lob[0].1[0].qty - w.remaining, r.orders, r.lob);
    } else {
      RemovalShape(taker, poolId, time, w);
      Removed(w.orders, w.lob, r.orders, r.lob);
    }
  }

  /** One step keeps the mirror, never brings back an order, and brings
      the loop closer to its end. */
  lemma StepKeeps(side: Side, taker: Order, poolId: string, time: real, w: Walk)
    requires Mirror(w.orders, w.lob) && Continues(w)
    ensures var r := Step(side, taker, poolId, time, w);
            Mirror(r.orders, r.lob) && Measure(r) < Measure(w)
            && forall k :: k in r.orders.vals ==> k in w.orders.vals
  {
    FrontFiled(w.orders, w.lob);
    var good := side.AtLeast(w.lob[0].0, taker.price);
    if !(taker.ostyle == IOC && !good) {
      MatchKeeps(taker, poolId, time, w.(goodPrice := good));
    }
  }

  /** The walk after the `while` loop. */
  function Walked(side: Side, taker: Order, poolId: string, time: real, w: Walk): (r: Walk)
    requires Mirror(w.orders, w.lob)
    ensures Mirror(r.orders, r.lob) && !Continues(r)
    ensures forall k :: k in r.orders.vals ==> k in w.orders.vals
    decreases Measure(w)
  {
    if Continues(w) then
      StepKeeps(side, taker, poolId, time, w);
      Walked(side, taker, poolId, time, Step(side, taker, poolId, time, w))
    else w
  }

  // ---- what the walk has traded ----

  /** The quantity of a list of transactions. */
  function SumTrns(trns: seq<Transaction>): int {
    if trns == [] then 0 else SumTrns(trns[..|trns| - 1]) + trns[|trns| - 1].qty
  }

  /** The quantity of the trades on a tape. */
  function TapeQty(tape: seq<TapeEvent>): int {
    if tape == [] then 0
    else TapeQty(tape[..|tape| - 1]) + (if tape[|tape| - 1].TradeEvent? then tape[|tape| - 1].qty else 0)
  }

  /** The tape records one trade per transaction, at its price and
      quantity. */
  ghost predicate Matches(tape: seq<TapeEvent>, trns: seq<Transaction>) {
    |tape| == |trns|
    && forall i :: 0 <= i < |tape| ==>
         tape[i].TradeEvent? && tape[i].price == trns[i].price && tape[i].qty == trns[i].qty
  }

  lemma SumTrnsSnoc(trns: seq<Transaction>, t: Transaction)
    ensures SumTrns(trns + [t]) == SumTrns(trns) + t.qty
  {
    assert (trns + [t])[..|trns|] == trns;
  }

  lemma {:induction false} MatchesQty(tape: seq<TapeEvent>, trns: seq<Transaction>)
    requires Matches(tape, trns)
    ensures TapeQty(tape) == SumTrns(trns)
  {
    if tape != [] {
      var n := |tape| - 1;
      assert Matches(tape[..n], trns[..n]);
      MatchesQty(tape[..n], trns[..n]);
    }
  }

  lemma MatchesSnoc(tape: seq<TapeEvent>, trns: seq<Transaction>, e: TapeEvent, t: Transaction)
    requires Matches(tape, trns) && e.TradeEvent? && e.price == t.price && e.qty == t.qty
    ensures Matches(tape + [e], trns + [t])
  {
  }

  /** A trade adds one transaction at the front level's price, takes its
      quantity off what remains to fill, and puts one matching trade on the
      tape. */
  lemma MatchCounts(taker: Order, poolId: string, time: real, w: Walk)
    requires Fronted(w)
    ensures var r := Match(taker, poolId, time, w);
            SumTrns(r.trns) + r.remaining == SumTrns(w.trns) + w.remaining
            && (Matches(w.tape, w.trns) ==> Matches(r.tape, r.trns))
            && |r.trns| == |w.trns| + 1 && (forall i :: 0 <= i < |w.trns| ==> r.trns[i] == w.trns[i])
            && r.trns[|w.trns|].price == w.lob[0].0 && r.goodPrice == w.goodPrice
  {
    var r := Match(taker, poolId, time, w);
    var t := r.trns[|w.trns|];
    assert r.trns == w.trns + [t];
    SumTrnsSnoc(w.trns, t);
    if Matches(w.tape, w.trns) {
      assert r.tape == w.tape + [r.tape[|w.tape|]];
      MatchesSnoc(w.tape, w.trns, r.tape[|w.tape|], t);
    }
  }

  /** The side loses exactly the quantity the trade fills. */
  lemma MatchBookQty(taker: Order, poolId: string, time: real, w: Walk)
    requires Mirror(w.orders, w.lob) && |w.orders.keys| > 0
    ensures Fronted(w)
    ensures var r := Match(taker, poolId, time, w);
            BookQty(r.orders) + SumTrns(r.trns) == BookQty(w.orders) + SumTrns(w.trns)
  {
    FrontFiled(w.orders, w.lob);
    var r := Match(taker, poolId, time, w);
    MatchCounts(taker, poolId, time, w);
    if w.lob[0].1[0].qty > w.remaining {
      PartialShape(taker, poolId, time, w);
      Reduced(w.orders, w.lob, w.lob[0].1[0].qty - w.remaining, r.orders, r.lob);
    } else {
      RemovalShape(taker, poolId, time, w);
      Removed(w.orders, w.lob, r.orders, r.lob);
    }
  }

  /** What a trade sends: the taker's FILL then the maker's message when
      the taker is filled, otherwise only the maker's FILL. */
  lemma MatchMsgs(taker: Order, poolId: string, time: real, w: Walk)
    requires Fronted(w)
    ensures var r := Match(taker, poolId, time, w);
            var e := w.lob[0].1[0];
            if e.qty >= w.remaining then
              r.remaining == 0 && |r.msgs| == |w.msgs| + 2
              && r.msgs == w.msgs + [Msg(taker.tid, taker.orderid, Fill, r.trns, None), r.msgs[|w.msgs| + 1]]
              && r.msgs[|w.msgs| + 1].oid == e.id
            else
              r.remaining == w.remaining - e.qty
              && r.msgs == w.msgs + [Msg(e.tid, e.id, Fill, [r.trns[|w.trns|]], None)]
  {
  }

  // ---- the messages addressed to one order ----

  /** The messages about order `id`, in order. */
  function About(msgs: seq<ExchMsg>, id: int): (r: seq<ExchMsg>)
    ensures forall i :: 0 <= i < |r| ==> r[i].oid == id
  {
    if msgs == [] then []
    else About(msgs[..|msgs| - 1], id) + if msgs[|msgs| - 1].oid == id then [msgs[|msgs| - 1]] else []
  }

  lemma AboutSnoc(msgs: seq<ExchMsg>, m: ExchMsg, id: int)
    ensures About(msgs + [m], id) == About(msgs, id) + if m.oid == id then [m] else []
  {
    assert (msgs + [m])[..|msgs|] == msgs;
  }

  /** Before the taker is filled no message is about it; once it is, the
      only one is its FILL carrying every transaction. The taker is never
      one of the resting orders. */
  ghost predicate TakerTold(taker: Order, w: Walk) {
    taker.orderid !in w.orders.vals
    && ((w.remaining > 0 && About(w.msgs, taker.orderid) == [])
        || (w.remaining == 0 && About(w.msgs, taker.orderid) == [Msg(taker.tid, taker.orderid, Fill, w.trns, None)]))
  }

  lemma MatchTold(taker: Order, poolId: string, time: real, w: Walk)
    requires Fronted(w) && TakerTold(taker, w) && w.remaining > 0
    ensures var r := Match(taker, poolId, time, w);
            (r.remaining > 0 && About(r.msgs, taker.orderid) == [])
            || (r.remaining == 0 && About(r.msgs, taker.orderid) == [Msg(taker.tid, taker.orderid, Fill, r.trns, None)])
  {
    var r := Match(taker, poolId, time, w);
    var e := w.lob[0].1[0];
    MatchMsgs(taker, poolId, time, w);
    if e.qty >= w.remaining {
      var fill := Msg(taker.tid, taker.orderid, Fill, r.trns, None);
      var m := r.msgs[|w.msgs| + 1];
      assert r.msgs == (w.msgs + [fill]) + [m];
      AboutSnoc(w.msgs, fill, taker.orderid);
      AboutSnoc(w.msgs + [fill], m, taker.orderid);
    } else {
      AboutSnoc(w.msgs, r.msgs[|w.msgs|], taker.orderid);
    }
  }

  lemma StepTold(side: Side, taker: Order, poolId: string, time: real, w: Walk)
    requires Mirror(w.orders, w.lob) && Continues(w) && TakerTold(taker, w)
    ensures TakerTold(taker, Step(side, taker, poolId, time, w))
  {
    FrontFiled(w.orders, w.lob);
    StepKeeps(side, taker, poolId, time, w);
    var good := side.AtLeast(w.lob[0].0, taker.price);
    if !(taker.ostyle == IOC && !good) {
      MatchTold(taker, poolId, time, w.(goodPrice := good));
    }
  }

  lemma {:induction false} WalkedTold(side: Side, taker: Order, poolId: string, time: real, w: Walk)
    requires Mirror(w.orders, w.lob) && TakerTold(taker, w)
    ensures TakerTold(taker, Walked(side, taker, poolId, time, w))
    decreases Measure(w)
  {
    if Continues(w) {
      StepKeeps(side, taker, poolId, time, w);
      StepTold(side, taker, poolId, time, w);
      WalkedTold(side, taker, poolId, time, Step(side, taker, poolId, time, w));
    }
  }

  // ---- conservation ----

  /** What a walk keeps while it trades: the filled quantity and what
      remains add up to the same total, the side loses exactly what is
      filled, and the tape has one matching trade per transaction. */
  ghost predicate Conserves(w0: Walk, w: Walk)
    requires Wf(w0.orders) && Wf(w.orders)
  {
    SumTrns(w.trns) + w.remaining == SumTrns(w0.trns) + w0.remaining
    && BookQty(w.orders) + SumTrns(w.trns) == BookQty(w0.orders) + SumTrns(w0.trns)
    && (Matches(w0.tape, w0.trns) ==> Matches(w.tape, w.trns))
  }

  lemma StepConserves(side: Side, taker: Order, poolId: string, time: real, w: Walk)
    requires Mirror(w.orders, w.lob) && Continues(w)
    ensures var r := Step(side, taker, poolId, time, w);
            Mirror(r.orders, r.lob) && Conserves(w, r)
  {
    FrontFiled(w.orders, w.lob);
    StepKeeps(side, taker, poolId, time, w);
    var good := side.AtLeast(w.lob[0].0, taker.price);
    if !(taker.ostyle == IOC && !good) {
      var w' := w.(goodPrice := good);
      MatchCounts(taker, poolId, time, w');
      MatchBookQty(taker, poolId, time, w');
    }
  }

  lemma {:induction false} WalkedConserves(side: Side, taker: Order, poolId: string, time: real, w: Walk)
    requires Mirror(w.orders, w.lob)
    ensures Conserves(w, Walked(side, taker, poolId, time, w))
    decreases Measure(w)
  {
    if Continues(w) {
      var s := Step(side, taker, poolId, time, w);
      StepKeeps(side, taker, poolId, time, w);
      StepConserves(side, taker, poolId, time, w);
      WalkedConserves(side, taker, poolId, time, s);
    }
  }

  // ---- prices ----

  /** Every transaction but the last is at a price acceptable to the
      taker, and so is the last one while `good_price` holds, or always for
      an IOC order. */
  ghost predicate Priced(side: Side, taker: Order, w: Walk) {
    (forall i :: 0 <= i < |w.trns| - 1 ==> side.AtLeast(w.trns[i].price, taker.price))
    && (w.goodPrice || taker.ostyle == IOC ==>
          forall i :: 0 <= i < |w.trns| ==> side.AtLeast(w.trns[i].price, taker.price))
  }

  lemma StepPriced(side: Side, taker: Order, poolId: string, time: real, w: Walk)
    requires Mirror(w.orders, w.lob) && Continues(w) && Priced(side, taker, w)
    ensures Priced(side, taker, Step(side, taker, poolId, time, w))
  {
    FrontFiled(w.orders, w.lob);
    var good := side.AtLeast(w.lob[0].0, taker.price);
    if !(taker.ostyle == IOC && !good) {
      var w' := w.(goodPrice := good);
      MatchCounts(taker, poolId, time, w');
    }
  }

  lemma {:induction false} WalkedPriced(side: Side, taker: Order, poolId: string, time: real, w: Walk)
    requires Mirror(w.orders, w.lob) && Priced(side, taker, w)
    ensures Priced(side, taker, Walked(side, taker, poolId, time, w))
    decreases Measure(w)
  {
    if Continues(w) {
      StepKeeps(side, taker, poolId, time, w);
      StepPriced(side, taker, poolId, time, w);
      WalkedPriced(side, taker, poolId, time, Step(side, taker, poolId, time, w));
    }
  }

  // ---- the orders the walk leaves ----

  /** Every order of `after` was in `before`, at the same price. */
  ghost predicate KeptPrices(before: Dict<int, Order>, after: Dict<int, Order>) {
    forall k :: k in after.vals ==> k in before.vals && after.vals[k].price == before.vals[k].price
  }

  lemma StepKeptPrices(side: Side, taker: Order, poolId: string, time: real, w: Walk)
    requires Mirror(w.orders, w.lob) && Continues(w)
    ensures KeptPrices(w.orders, Step(side, taker, poolId, time, w).orders)
  {
    FrontFiled(w.orders, w.lob);
    var good := side.AtLeast(w.lob[0].0, taker.price);
    var r := Step(side, taker, poolId, time, w);
    if taker.ostyle == IOC && !good {
      assert r.orders == w.orders;
    } else {
      var w' := w.(goodPrice := good);
      assert r == Match(taker, poolId, time, w');
      MatchKeptPrices(taker, poolId, time, w');
    }
  }

  lemma MatchKeptPrices(taker: Order, poolId: string, time: real, w: Walk)
    requires Fronted(w)
    ensures KeptPrices(w.orders, Match(taker, poolId, time, w).orders)
  {
    var e := w.lob[0].1[0];
    if e.qty > w.remaining {
      PartialShape(taker, poolId, time, w);
      KeptRequantified(w.orders, e.id, e.qty - w.remaining);
    } else {
      RemovalShape(taker, poolId, time, w);
      KeptRemoved(w.orders, e.id);
    }
  }

  lemma KeptRequantified(d: Dict<int, Order>, k: int, q: int)
    requires k in d.vals
    ensures KeptPrices(d, Put(d, k, d.vals[k].(qty := q)))
  {
  }

  lemma KeptRemoved(d: Dict<int, Order>, k: int)
    ensures KeptPrices(d, Remove(d, k))
  {
  }

  /** The walk only deletes orders and lowers quantities: no price changes. */
  lemma {:induction false} WalkedKeptPrices(side: Side, taker: Order, poolId: string, time: real, w: Walk)
    requires Mirror(w.orders, w.lob)
    ensures KeptPrices(w.orders, Walked(side, taker, poolId, time, w).orders)
    decreases Measure(w)
  {
    if Continues(w) {
      var s := Step(side, taker, poolId, time, w);
      StepKeeps(side, taker, poolId, time, w);
      StepKeptPrices(side, taker, poolId, time, w);
      WalkedKeptPrices(side, taker, poolId, time, s);
    }
  }

  // ---- enough depth at acceptable prices ----

  /** The quantity resting at the levels, from the front, whose price is
      acceptable for a taker limited to `p`. */
  function GoodQty(side: Side, lob: seq<LobRow>, p: int): int {
    if lob == [] || !side.AtLeast(lob[0].0, p) then 0
    else SumQty(lob[0].1) + GoodQty(side, lob[1..], p)
  }

  lemma GoodQtyDrop(side: Side, lob: seq<LobRow>, p: int)
    requires lob != [] && lob[0].1 != [] && side.AtLeast(lob[0].0, p)
    ensures GoodQty(side, Drop(lob), p) == GoodQty(side, lob, p) - lob[0].1[0].qty
  {
    var level := lob[0].1;
    assert level == [level[0]] + level[1..];
    SumQtyCons(level[0], level[1..]);
    if |level| > 1 {
      assert Drop(lob)[1..] == lob[1..];
    }
  }

  /** The price stays acceptable and the acceptable depth still covers
      what remains. */
  ghost predicate Covered(side: Side, taker: Order, w: Walk) {
    w.goodPrice && w.remaining >= 0 && (w.remaining > 0 ==> GoodQty(side, w.lob, taker.price) >= w.remaining)
  }

  lemma StepCovered(side: Side, taker: Order, poolId: string, time: real, w: Walk)
    requires Mirror(w.orders, w.lob) && Continues(w) && Covered(side, taker, w)
    ensures Covered(side, taker, Step(side, taker, poolId, time, w))
  {
    FrontFiled(w.orders, w.lob);
    assert side.AtLeast(w.lob[0].0, taker.price);
    var w' := w.(goodPrice := true);
    MatchCounts(taker, poolId, time, w');
    MatchMsgs(taker, poolId, time, w');
    if w.lob[0].1[0].qty < w.remaining {
      RemovalShape(taker, poolId, time, w');
      GoodQtyDrop(side, w.lob, taker.price);
    }
  }

  lemma {:induction false} WalkedCovered(side: Side, taker: Order, poolId: string, time: real, w: Walk)
    requires Mirror(w.orders, w.lob) && Covered(side, taker, w)
    ensures Covered(side, taker, Walked(side, taker, poolId, time, w))
    decreases Measure(w)
  {
    if Continues(w) {
      StepKeeps(side, taker, poolId, time, w);
      StepCovered(side, taker, poolId, time, w);
      WalkedCovered(side, taker, poolId, time, Step(side, taker, poolId, time, w));
    }
  }

  /** A finished walk that stayed covered has nothing left to fill. */
  lemma CoveredFilled(side: Side, taker: Order, w: Walk)
    requires Mirror(w.orders, w.lob) && Covered(side, taker, w) && !Continues(w)
    ensures w.remaining == 0
  {
    FlatEmpty(w.lob);
  }

  /** Levels that are all non-empty hold no entry only when there are
      none. */
  lemma FlatEmpty(lob: seq<LobRow>)
    requires forall i :: 0 <= i < |lob| ==> lob[i].1 != []
    ensures |Flat(lob)| == 0 ==> lob == []
  {
    if lob != [] {
      assert Flat(lob) == lob[0].1 + Flat(lob[1..]);
    }
  }
}
