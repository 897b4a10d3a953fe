/** The trader's main loop: read the book ring, read the trade ring, decide; and what its orders are
    worth on the exchange. */
module Trader {
  import opened Words
  import opened PriceLevels
  import opened MarketData
  import opened OrderBook
  import opened BookSync
  import opened TraderBook
  import opened BookProcessor
  import opened TradeFlowWindow
  import opened Strategy
  import opened SpscRingBuffer

  /** One read of the trade ring, with the steady clock just after it. */
  datatype TradeReading = NoTrade | TradesDisabled | TradeRead(trade: Trade, now: u64)

  function FlowAfter(flow: seq<Entry>, window: u64, r: TradeReading): seq<Entry> {
    if !r.TradeRead? then flow
    else Slid(flow, window, EntryFor(r.trade.eventTime, r.trade.isBuyerMaker, r.trade.quantity))
  }

  function StampsWithTrade(s: Stamps, r: TradeReading): Stamps {
    if !r.TradeRead? then s else StampsAfter(s, r.trade.feederRead, r.trade.feederWrite, r.now)
  }

  /** What the trader knows when it decides. */
  datatype Turn = Turn(view: View, flow: seq<Entry>)

  /** One pass of the loop up to the decision; it ends the loop when either ring fails. */
  ghost function TurnAfter(t: Turn, depth: nat, window: u64, r: TradeReading): (bool, Turn) {
    var (ok, v) := Processed(t.view, depth);
    if !ok then (false, Turn(v, t.flow))
    else (!r.TradesDisabled?, Turn(v.(stamps := StampsWithTrade(v.stamps, r)), FlowAfter(t.flow, window, r)))
  }

  ghost function Turns(t: Turn, depth: nat, window: u64, rs: seq<TradeReading>): (ts: seq<Turn>)
    ensures |ts| <= |rs|
    decreases |rs|
  {
    if rs == [] then []
    else
      var (ok, t') := TurnAfter(t, depth, window, rs[0]);
      if ok then [t'] + Turns(t', depth, window, rs[1..]) else []
  }

  function MomentOf(t: Turn): Moment {
    Moment(t.view.book, Wrap64(BuyTotal(t.flow)), Wrap64(SellTotal(t.flow)))
  }

  function MomentsOf(ts: seq<Turn>): (ms: seq<Moment>)
    ensures |ms| == |ts|
    ensures forall i :: 0 <= i < |ts| ==> ms[i] == MomentOf(ts[i])
  {
    seq(|ts|, i requires 0 <= i < |ts| => MomentOf(ts[i]))
  }

  /** The orders of a run, each with the moment it was made at. */
  ghost function OrdersOf(t: Turn, last: Order, depth: nat, window: u64, rs: seq<TradeReading>): seq<Placement> {
    Placements(last, MomentsOf(Turns(t, depth, window, rs)))
  }

  /** The order made at a moment, if any. */
  function PlacedAt(m: Moment, last: Order): seq<Placement> {
    match DecidedAt(m)
    case None => []
    case Some(w) => if SameOrder(w, last) then [] else [Placement(w, m)]
  }

  function JustOrders(ps: seq<Placement>): (os: seq<Order>)
    ensures |os| == |ps| && forall i :: 0 <= i < |ps| ==> os[i] == ps[i].order
  {
    seq(|ps|, i requires 0 <= i < |ps| => ps[i].order)
  }

  lemma OrdersUnfold(t: Turn, last: Order, depth: nat, window: u64, rs: seq<TradeReading>)
    requires rs != []
    ensures var (ok, t') := TurnAfter(t, depth, window, rs[0]);
            var now := PlacedAt(MomentOf(t'), last);
            OrdersOf(t, last, depth, window, rs) ==
            if !ok then [] else now + OrdersOf(t', LastOrder(last, now), depth, window, rs[1..])
  {
    var (ok, t') := TurnAfter(t, depth, window, rs[0]);
    if ok {
      var ms, rest := MomentsOf(Turns(t, depth, window, rs)), MomentsOf(Turns(t', depth, window, rs[1..]));
      assert ms == [MomentOf(t')] + rest;
      assert ms[1..] == rest;
    }
  }

  /** The same for the orders alone, after those already written. */
  lemma WrittenUnfold(t: Turn, last: Order, depth: nat, window: u64, rs: seq<TradeReading>, done: seq<Order>)
    requires rs != []
    ensures var (ok, t') := TurnAfter(t, depth, window, rs[0]);
            var now := PlacedAt(MomentOf(t'), last);
            done + JustOrders(OrdersOf(t, last, depth, window, rs)) ==
            if !ok then done
            else (done + JustOrders(now)) + JustOrders(OrdersOf(t', LastOrder(last, now), depth, window, rs[1..]))
  {
    OrdersUnfold(t, last, depth, window, rs);
  }

  lemma RestOfTrades(rs: seq<TradeReading>, i: nat)
    requires i < |rs|
    ensures rs[i..] != [] && rs[i..][0] == rs[i] && rs[i..][1..] == rs[i + 1..]
  {}

  class TradeProcessor {
    const flow: TradeFlowWindow
    const stamps: TimestampHandler

    constructor (flow: TradeFlowWindow, stamps: TimestampHandler)
      ensures this.flow == flow && this.stamps == stamps
    {
      this.flow, this.stamps := flow, stamps;
    }

    method ProcessTrade(r: TradeReading) returns (ok: bool)
      requires flow.Valid() && flow.Settled()
      modifies flow, flow.ring, stamps
      ensures flow.Valid() && flow.Settled()
      ensures flow.Window() == FlowAfter(old(flow.Window()), flow.window, r)
      ensures stamps.Value() == StampsWithTrade(old(stamps.Value()), r)
      ensures ok == !r.TradesDisabled?
    {
      ok := !r.TradesDisabled?;
      if r.TradeRead? {
        stamps.Update(r.trade.feederRead, r.trade.feederWrite, r.now);
        flow.OnTrade(r.trade.eventTime, r.trade.isBuyerMaker, r.trade.quantity);
      }
    }
  }

  class Trader {
    const books: OrderBookProcessor
    const trades: TradeProcessor
    const orders: OrderProcessor

    ghost predicate Valid()
      reads this, books, books.book, books.book.bids, books.book.bids.rows, books.book.asks, books.book.asks.rows,
            trades.flow, trades.flow.ring
    {
      && books.Valid() && trades.flow.Valid() && trades.flow.Settled()
      && trades.stamps == books.stamps
      && orders.book == books.book && orders.flow == trades.flow
    }

    ghost function Value(): Turn
      requires Valid()
      reads this, books, books.stamps, books.book, books.book.bids, books.book.bids.rows, books.book.asks,
            books.book.asks.rows, trades.flow, trades.flow.ring
    {
      Turn(books.Value(), trades.flow.Window())
    }

    constructor (books: OrderBookProcessor, flow: TradeFlowWindow)
      requires books.Valid() && flow.Valid() && flow.Settled()
      ensures Valid() && this.books == books && trades.flow == flow
      ensures Value() == Turn(books.Value(), flow.Window()) && orders.last == Order(Buy, 0, 0)
    {
      this.books := books;
      trades := new TradeProcessor(flow, books.stamps);
      orders := new OrderProcessor(books.book, flow);
    }

    /** The decision of a pass: no order or one. */
    method Decide() returns (made: seq<Order>)
      requires Valid()
      modifies orders`last
      ensures Valid() && Value() == old(Value())
      ensures var now := PlacedAt(MomentOf(Value()), old(orders.last));
              orders.last == LastOrder(old(orders.last), now) && made == JustOrders(now)
    {
      assert orders.Decision() == DecidedAt(MomentOf(Value()));
      var isMade, order := orders.CreateOrder();
      made := if isMade then [order] else [];
    }

    /** The book ring's part of a pass. */
    method ReadBook() returns (ok: bool)
      requires Valid()
      modifies books`feed, books`replies, books.stamps, books.book`lastUpdateId,
               books.book.bids`count, books.book.bids.rows, books.book.asks`count, books.book.asks.rows
      ensures Valid()
      ensures (ok, books.Value()) == Processed(old(books.Value()), books.book.depth)
      ensures trades.flow.Window() == old(trades.flow.Window())
    {
      ok := books.ProcessUpdate();
    }

    /** The trade ring's part of a pass. */
    method ReadTrade(r: TradeReading) returns (ok: bool)
      requires Valid()
      modifies books.stamps, trades.flow, trades.flow.ring
      ensures Valid() && ok == !r.TradesDisabled?
      ensures var was := old(Value());
              Value() == Turn(was.view.(stamps := StampsWithTrade(was.view.stamps, r)), FlowAfter(was.flow, trades.flow.window, r))
    {
      ok := trades.ProcessTrade(r);
    }

    /** Both rings: everything of a pass but the decision. */
    method ReadRings(r: TradeReading) returns (ok: bool)
      requires Valid()
      modifies books`feed, books`replies, books.stamps, books.book`lastUpdateId,
               books.book.bids`count, books.book.bids.rows, books.book.asks`count, books.book.asks.rows,
               trades.flow, trades.flow.ring
      ensures Valid()
      ensures (ok, Value()) == TurnAfter(old(Value()), books.book.depth, trades.flow.window, r)
    {
      ghost var before := Value();
      ok := ReadBook();
      assert Processed(before.view, books.book.depth) == (ok, Value().view) && Value().flow == before.flow;
      if ok {
        ok := ReadTrade(r);
      }
    }

    /** One pass: false ends the loop. */
    method Pass(r: TradeReading) returns (ok: bool, made: seq<Order>)
      requires Valid()
      modifies books`feed, books`replies, books.stamps, books.book`lastUpdateId,
               books.book.bids`count, books.book.bids.rows, books.book.asks`count, books.book.asks.rows,
               trades.flow, trades.flow.ring, orders`last
      ensures Valid()
      ensures (ok, Value()) == TurnAfter(old(Value()), books.book.depth, trades.flow.window, r)
      ensures !ok ==> made == [] && orders.last == old(orders.last)
      ensures ok ==> var now := PlacedAt(MomentOf(Value()), old(orders.last));
                     orders.last == LastOrder(old(orders.last), now) && made == JustOrders(now)
    {
      ok := ReadRings(r);
      made := [];
      if ok {
        made := Decide();
      }
    }

    /** The loop, over what the trade ring shows in each pass. */
    method Run(rs: seq<TradeReading>) returns (written: seq<Order>)
      requires Valid()
      modifies books`feed, books`replies, books.stamps, books.book`lastUpdateId,
               books.book.bids`count, books.book.bids.rows, books.book.asks`count, books.book.asks.rows,
               trades.flow, trades.flow.ring, orders`last
      ensures Valid()
      ensures written == JustOrders(OrdersOf(old(Value()), old(orders.last), books.book.depth, trades.flow.window, rs))
    {
      written := [];
      var i := 0;
      ghost var all := JustOrders(OrdersOf(Value(), orders.last, books.book.depth, trades.flow.window, rs));
      assert rs[0..] == rs && [] + all == all;
      while i < |rs|
        invariant Valid() && i <= |rs|
        invariant all == written + JustOrders(OrdersOf(Value(), orders.last, books.book.depth, trades.flow.window, rs[i..]))
      {
        RestOfTrades(rs, i);
        WrittenUnfold(Value(), orders.last, books.book.depth, trades.flow.window, rs[i..], written);
        var ok, made := Pass(rs[i]);
        if !ok {
          return;
        }
        written := written + made;
        i := i + 1;
      }
      assert rs[i..] == [] && written + [] == written;
    }
  }

  /** A trader as it starts: an empty book, an empty window, no order yet. */
  method StartTrader(depth: nat, window: u64, feed: seq<Reading>, replies: seq<Reply>) returns (t: Trader)
    requires depth > 0
    requires forall i :: 0 <= i < |replies| ==> WellOrdered(replies[i])
    ensures t.Valid() && t.books.book.depth == depth && t.trades.flow.window == window
    ensures t.Value() == Turn(Start(feed, replies), []) && t.orders.last == Order(Buy, 0, 0)
  {
    var books := new OrderBookProcessor(depth, feed, replies);
    var flow := new TradeFlowWindow(window);
    t := new Trader(books, flow);
  }
}
