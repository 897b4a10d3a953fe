/** The records that travel through the rings. */
module MarketData {
  import opened Words
  import opened PriceLevels

  datatype Symbol = Unknown | BtcUsdt | EthUsdt

  datatype Side = Bid | Ask

  datatype OrderBookUpdate = OrderBookUpdate(
    eventTime: u64, feederRead: u64, feederWrite: u64, firstId: u64, lastId: u64,
    price: u64, quantity: u64, side: Side, symbol: Symbol, hasMore: bool)

  /** An update without the stamps that the feeder puts on it. */
  function Plain(u: OrderBookUpdate): OrderBookUpdate {
    u.(feederRead := 0, feederWrite := 0)
  }

  datatype Trade = Trade(
    eventTime: u64, feederRead: u64, feederWrite: u64, price: u64, quantity: u64,
    symbol: Symbol, isBuyerMaker: bool)

  /** What the snapshot service and its parser answer. */
  datatype Reply = Snapshot(lastUpdateId: u64, bids: seq<Row>, asks: seq<Row>) | Unusable

  /** A depth event: the levels that changed between two update ids, with their final quantities. */
  datatype DepthMessage = DepthMessage(
    eventTime: u64, firstId: u64, lastId: u64, symbol: Symbol, bids: seq<Row>, asks: seq<Row>)

  function LevelCount(m: DepthMessage): nat {
    |m.bids| + |m.asks|
  }

  /** The `i`-th update of an event: bids first, flagged unless it is the last one. */
  function UpdateAt(m: DepthMessage, i: nat): OrderBookUpdate
    requires i < LevelCount(m)
  {
    var (side, row) := if i < |m.bids| then (Bid, m.bids[i]) else (Ask, m.asks[i - |m.bids|]);
    OrderBookUpdate(m.eventTime, 0, 0, m.firstId, m.lastId, row.price, row.quantity, side, m.symbol,
                    i + 1 < LevelCount(m))
  }

  function UpdatesOf(m: DepthMessage): (us: seq<OrderBookUpdate>)
    ensures |us| == LevelCount(m)
    ensures forall i :: 0 <= i < |us| ==> us[i] == UpdateAt(m, i)
  {
    seq(LevelCount(m), i requires 0 <= i < LevelCount(m) => UpdateAt(m, i))
  }

  /** The rows that the updates carry for a side. */
  function RowsOn(us: seq<OrderBookUpdate>, side: Side): seq<Row> {
    if us == [] then []
    else (if us[0].side == side then [Row(us[0].price, us[0].quantity)] else []) + RowsOn(us[1..], side)
  }

  /** What a reader can put together from the updates of one event. */
  function Reassembled(us: seq<OrderBookUpdate>): DepthMessage
    requires us != []
  {
    DepthMessage(us[0].eventTime, us[0].firstId, us[0].lastId, us[0].symbol, RowsOn(us, Bid), RowsOn(us, Ask))
  }

  /** The updates of an event from the `i`-th on, as rows. */
  lemma {:induction false} RowsFrom(m: DepthMessage, i: nat)
    requires i <= LevelCount(m)
    ensures RowsOn(UpdatesOf(m)[i..], Bid) == m.bids[Min(i, |m.bids|)..]
    ensures RowsOn(UpdatesOf(m)[i..], Ask) == m.asks[Max(0, i - |m.bids|)..]
    decreases LevelCount(m) - i
  {
    var us := UpdatesOf(m);
    if i < LevelCount(m) {
      RowsFrom(m, i + 1);
      assert us[i..][0] == UpdateAt(m, i) && us[i..][1..] == us[i + 1..];
      if i < |m.bids| {
        assert m.bids[i..] == [m.bids[i]] + m.bids[i + 1..];
      } else {
        assert m.asks[i - |m.bids|..] == [m.asks[i - |m.bids|]] + m.asks[i + 1 - |m.bids|..];
      }
    }
  }

  /** Nothing of an event is lost in its updates: its header is in each of them, the rows come back side
      by side in order, and exactly the last update says that no more follow. */
  lemma UpdatesReassemble(m: DepthMessage)
    requires LevelCount(m) > 0
    ensures Reassembled(UpdatesOf(m)) == m
    ensures forall i :: 0 <= i < LevelCount(m) ==>
              var u := UpdatesOf(m)[i];
              && (u.eventTime, u.firstId, u.lastId, u.symbol) == (m.eventTime, m.firstId, m.lastId, m.symbol)
              && (u.hasMore <==> i != LevelCount(m) - 1)
  {
    RowsFrom(m, 0);
    assert UpdatesOf(m)[0..] == UpdatesOf(m);
  }

  /** The event without its first `k` levels, as a consumer meets it that starts in its middle. */
  function Trimmed(m: DepthMessage, k: nat): DepthMessage
    requires k <= LevelCount(m)
  {
    if k <= |m.bids| then m.(bids := m.bids[k..]) else m.(bids := [], asks := m.asks[k - |m.bids|..])
  }

  lemma TrimmedUpdates(m: DepthMessage, k: nat)
    requires k <= LevelCount(m)
    ensures UpdatesOf(Trimmed(m, k)) == UpdatesOf(m)[k..]
  {
    var us, vs := UpdatesOf(m)[k..], UpdatesOf(Trimmed(m, k));
    assert |us| == |vs|;
    forall i | 0 <= i < |us| ensures us[i] == vs[i] {
      assert us[i] == UpdateAt(m, k + i) && vs[i] == UpdateAt(Trimmed(m, k), i);
    }
  }
}
