/** The records BSE2's exchange and traders pass around: orders, the
    exchange's messages to traders, tape events and the published book.
    Their classes live in a module outside this model; the fields below are
    the ones the modelled code reads or writes. */
module Bse2Types {
  import opened Basics

  /** `order.ostyle`. `Other` stands for any string the exchange does not
      recognise. */
  datatype Style =
    | LIM | GFD | MKT | AON | FOK | IOC | LOC | MOC | LOO | MOO | OCO | OSO | ICE | CAN | XXX
    | Other(name: string)

  /** An order. `orderid` is assigned by the exchange; `oid` is the separate
      attribute that the FOK/AON failure message reads; `myref` is the
      trader's customer order id; `legs` are the styles of the two sub-orders
      an OCO/OSO order carries in its `styleparams`. */
  datatype Order = Order(
    tid: string, otype: Side, ostyle: Style, price: int, qty: int, time: real,
    orderid: int, oid: int, myref: int, legs: seq<Style>)

  /** `{'Price': p, 'Qty': q}`. */
  datatype Transaction = Transaction(price: int, qty: int)

  /** `msg.event`. */
  datatype MsgEvent = Ack | Fill | Part | Fail | Can

  /** `ExchMsg(tid, oid, event, trns, revo, fee, balance)`. */
  datatype ExchMsg = ExchMsg(
    tid: string, oid: int, event: MsgEvent, trns: seq<Transaction>,
    revo: Option<Order>, fee: int, balance: int)

  /** A tape record: a cancellation or a trade between `party1` (the seller)
      and `party2` (the buyer). */
  datatype TapeEvent =
    | CanEvent(poolId: string, time: real, oid: int, otype: Side, oQty: int)
    | TradeEvent(poolId: string, time: real, price: int, qty: int, party1: string, party2: string)

  /** The dict a pool operation returns: messages for traders and events
      for the tape. */
  datatype Response = Response(msgs: seq<ExchMsg>, tape: seq<TapeEvent>)

  /** One side of the published book. */
  datatype SideView = SideView(bestp: Option<int>, worstp: int, n: int, lob: seq<(int, int)>)

  /** `publish_lob`'s dict, without the float mid- and micro-prices. */
  datatype PublicLob = PublicLob(
    time: real, bids: SideView, asks: SideView,
    lastT: Option<real>, lastP: Option<int>, lastQ: Option<int>,
    tape: seq<TapeEvent>)

  /** The exchange fee on every message `book_take` sends. */
  const TakeFee := 333

  /** Orders of at least this quantity go to the dark pool. */
  const BlockSize := 300
}
