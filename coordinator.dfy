/** The exchange thread's loop body in tbse.py (`run_exchange`), as one
    sequential step: apply the queued kills, drop an order whose customer
    order is already resolved, process it, and on a trade mark both customer
    orders resolved and send the trade to every trader. */
module Coordinator {
  import opened Basics
  import opened Bse1Book
  import opened Bse1Exchange

  /** `[trade, order, lob]`, as put on a trader's queue. The order is the
      object `add_order` stamped with its quote id (`toid`). */
  datatype Broadcast = Broadcast(trade: TapeEvent, order: Order, lob: LobView)

  /** How the step ended: the order was dropped as resolved, processed
      without or with a trade, or the exchange raised. */
  datatype StepOutcome = Dropped | NoTrade | Traded | Raised

  /** The exchange after `del_order` for each kill in queue order. */
  function Killed(m: Market, time: real, kills: seq<Order>): Market {
    if kills == [] then m
    else Deleted(Killed(m, time, kills[..|kills| - 1]), time, kills[|kills| - 1])
  }

  /** `completed_coid[coid]` is True. */
  predicate Resolved(c: map<int, bool>, coid: int) {
    coid in c && c[coid]
  }

  /** A customer order seen for the first time is recorded as unresolved. */
  function Sighted(c: map<int, bool>, coid: int): map<int, bool> {
    if coid in c then c else c[coid := false]
  }

  /** After a trade, the order's and the counterparty's customer orders
      are resolved. */
  function Marked(c: map<int, bool>, coid: int, trade: Option<TapeEvent>): map<int, bool> {
    if trade.Some? && trade.value.Trade? then c[coid := true][trade.value.counter := true] else c
  }

  /** Every trader queue with `item` put at its end. */
  function Broadcasted(qs: seq<seq<Broadcast>>, item: Broadcast): (r: seq<seq<Broadcast>>)
    ensures |r| == |qs|
  {
    if qs == [] then [] else Broadcasted(qs[..|qs| - 1], item) + [qs[|qs| - 1] + [item]]
  }

  lemma KilledKept(m: Market, time: real, kills: seq<Order>)
    requires Kept(m)
    ensures Kept(Killed(m, time, kills))
  {
    if kills != [] {
      KilledKept(m, time, kills[..|kills| - 1]);
    }
  }

  /** The tape gets one Cancel record per kill, in queue order. */
  lemma {:induction false} KillsTaped(m: Market, time: real, kills: seq<Order>)
    ensures |Killed(m, time, kills).tape| == |m.tape| + |kills|
    ensures Killed(m, time, kills).tape[..|m.tape|] == m.tape
    ensures forall i :: 0 <= i < |kills| ==> Killed(m, time, kills).tape[|m.tape| + i] == Cancel(time, kills[i])
  {
    if kills != [] {
      var init := kills[..|kills| - 1];
      KillsTaped(m, time, init);
      var t0 := Killed(m, time, init).tape;
      var t := Killed(m, time, kills).tape;
      assert t == t0 + [Cancel(time, kills[|kills| - 1])];
      forall i | 0 <= i < |kills|
        ensures t[|m.tape| + i] == Cancel(time, kills[i])
      {
        if i < |init| {
          assert kills[i] == init[i];
          assert t[|m.tape| + i] == t0[|m.tape| + i];
        }
      }
    }
  }

  /** Deleting an order leaves no order of its trader on its side, and a
      deletion never brings a trader back on either side. */
  lemma DeletedGone(m: Market, time: real, order: Order, side: Side, tid: string)
    ensures order.otype == side ==> order.tid !in SideOf(Deleted(m, time, order), side).vals
    ensures tid !in SideOf(m, side).vals ==> tid !in SideOf(Deleted(m, time, order), side).vals
  {
  }

  /** No killed trader's order is left on the side it was killed from. */
  lemma {:induction false} KillsRemoved(m: Market, time: real, kills: seq<Order>)
    ensures forall i :: 0 <= i < |kills| ==> kills[i].tid !in SideOf(Killed(m, time, kills), kills[i].otype).vals
  {
    if kills != [] {
      var init := kills[..|kills| - 1];
      var last := kills[|kills| - 1];
      KillsRemoved(m, time, init);
      var before := Killed(m, time, init);
      forall i | 0 <= i < |kills|
        ensures kills[i].tid !in SideOf(Killed(m, time, kills), kills[i].otype).vals
      {
        if i < |init| {
          assert kills[i] == init[i];
          DeletedGone(before, time, last, kills[i].otype, kills[i].tid);
        } else {
          DeletedGone(before, time, last, last.otype, last.tid);
        }
      }
    }
  }

  /** Resolved customer orders stay resolved through a step. */
  lemma ResolvedStays(c: map<int, bool>, coid: int, trade: Option<TapeEvent>, k: int)
    requires Resolved(c, k)
    ensures Resolved(Sighted(c, coid), k)
    ensures Resolved(Marked(Sighted(c, coid), coid, trade), k)
  {
  }

  /** A first sighting without a trade leaves the customer order recorded
      as unresolved; a trade resolves both customer orders. */
  lemma MarkingRule(c: map<int, bool>, coid: int, trade: Option<TapeEvent>)
    ensures trade.None? && coid !in c ==>
              coid in Marked(Sighted(c, coid), coid, trade) && !Marked(Sighted(c, coid), coid, trade)[coid]
    ensures trade.Some? && trade.value.Trade? ==>
              Resolved(Marked(Sighted(c, coid), coid, trade), coid)
              && Resolved(Marked(Sighted(c, coid), coid, trade), trade.value.counter)
    ensures forall k :: k != coid && (trade.None? || !trade.value.Trade? || k != trade.value.counter) ==>
              (k in Marked(Sighted(c, coid), coid, trade) <==> k in c)
  {
  }

  /** Each trader's queue receives the item exactly once, at its end. */
  lemma {:induction false} BroadcastOnce(qs: seq<seq<Broadcast>>, item: Broadcast)
    ensures forall i :: 0 <= i < |qs| ==> Broadcasted(qs, item)[i] == qs[i] + [item]
  {
    if qs != [] {
      BroadcastOnce(qs[..|qs| - 1], item);
    }
  }

  class Coordinator {
    const exchange: Exchange
    var completed: map<int, bool>
    var queues: seq<seq<Broadcast>>

    constructor(exchange: Exchange, traders: nat)
      ensures this.exchange == exchange && completed == map[]
      ensures queues == seq(traders, i => [])
    {
      this.exchange := exchange;
      completed := map[];
      queues := seq(traders, i => []);
    }

    /** `while kill_q.empty() is False: exchange.del_order(...)`. */
    method ApplyKills(time: real, kills: seq<Order>)
      requires exchange.Valid()
      modifies exchange, exchange.bids, exchange.asks
      ensures exchange.Valid() && exchange.State() == Killed(old(exchange.State()), time, kills)
    {
      ghost var m0 := exchange.State();
      var i := 0;
      while i < |kills|
        invariant 0 <= i <= |kills|
        invariant exchange.Valid() && exchange.State() == Killed(m0, time, kills[..i])
      {
        assert kills[..i + 1][..i] == kills[..i];
        exchange.DelOrder(time, kills[i]);
        i := i + 1;
      }
      assert kills[..i] == kills;
    }

    /** `for q in trader_qs: q.put([trade, order, lob])`. */
    method Send(item: Broadcast)
      modifies this
      ensures queues == Broadcasted(old(queues), item) && completed == old(completed)
    {
      var sent: seq<seq<Broadcast>> := [];
      var i := 0;
      while i < |queues|
        invariant 0 <= i <= |queues|
        invariant sent == Broadcasted(queues[..i], item)
      {
        assert queues[..i + 1][..i] == queues[..i];
        sent := sent + [queues[i] + [item]];
        i := i + 1;
      }
      assert queues[..i] == queues;
      queues := sent;
    }

    /** The tail of the loop body: on a trade, resolve both customer
        orders and put `[trade, order, lob]` on every trader's queue. */
    method Record(order: Order, trade: Option<TapeEvent>, lob: LobView)
      modifies this
      ensures completed == Marked(old(completed), order.coid, trade)
      ensures queues == if trade.Some? then Broadcasted(old(queues), Broadcast(trade.value, order, lob)) else old(queues)
    {
      if trade.Some? {
        if trade.value.Trade? {
          completed := completed[order.coid := true];
          completed := completed[trade.value.counter := true];
        }
        Send(Broadcast(trade.value, order, lob));
      }
    }

    /** `if completed_coid[order.coid] == True: continue`, else note a
        first sighting as unresolved. */
    method Admit(coid: int) returns (dropped: bool)
      modifies this
      ensures dropped <==> Resolved(old(completed), coid)
      ensures completed == if dropped then old(completed) else Sighted(old(completed), coid)
      ensures queues == old(queues)
    {
      dropped := false;
      if coid in completed {
        dropped := completed[coid];
      } else {
        completed := completed[coid := false];
      }
    }

    /** Process an admitted order and record its trade, if any; the order
      broadcast carries the quote id the exchange gave it. */
    method Forward(time: real, order: Order) returns (outcome: StepOutcome)
      requires exchange.Valid()
      modifies this, exchange, exchange.bids, exchange.asks
      ensures outcome != Dropped
      ensures outcome == Raised <==> Process(old(exchange.State()), time, order).None?
      ensures outcome == NoTrade || outcome == Traded ==>
                var r := Process(old(exchange.State()), time, order).value;
                exchange.Valid() && exchange.State() == r.0
                && (outcome == Traded <==> r.1.Some?)
                && completed == Marked(old(completed), order.coid, r.1)
                && queues == if r.1.Some? then Broadcasted(old(queues), Broadcast(r.1.value, order.(toid := old(exchange.State()).qid), exchange.PublishLob(time)))
                             else old(queues)
    {
      var stamped := order.(toid := exchange.quoteId);
      var result := exchange.ProcessOrder2(time, order);
      if result.Crashed? {
        return Raised;
      }
      Record(stamped, result.trade, result.lob);
      outcome := if result.trade.Some? then Traded else NoTrade;
    }

    /** One pass of the loop body for the queued `kills` and the next
        `order`. */
    method Step(time: real, kills: seq<Order>, order: Order) returns (outcome: StepOutcome)
      requires exchange.Valid()
      modifies this, exchange, exchange.bids, exchange.asks
      ensures Kept(Killed(old(exchange.State()), time, kills))
      ensures outcome == Dropped <==> Resolved(old(completed), order.coid)
      ensures outcome == Raised <==>
                !Resolved(old(completed), order.coid)
                && Process(Killed(old(exchange.State()), time, kills), time, order).None?
      ensures outcome == Dropped ==>
                exchange.Valid() && exchange.State() == Killed(old(exchange.State()), time, kills)
                && completed == old(completed) && queues == old(queues)
      ensures outcome == NoTrade || outcome == Traded ==>
                var r := Process(Killed(old(exchange.State()), time, kills), time, order).value;
                exchange.Valid() && exchange.State() == r.0
                && (outcome == Traded <==> r.1.Some?)
                && completed == Marked(Sighted(old(completed), order.coid), order.coid, r.1)
                && queues == if r.1.Some? then Broadcasted(old(queues), Broadcast(r.1.value, order.(toid := Killed(old(exchange.State()), time, kills).qid), exchange.PublishLob(time)))
                             else old(queues)
    {
      ghost var m0 := exchange.State();
      KilledKept(m0, time, kills);
      ApplyKills(time, kills);
      var dropped := Admit(order.coid);
      if dropped {
        return Dropped;
      }
      outcome := Forward(time, order);
    }
  }
}
