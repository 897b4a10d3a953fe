/** The trading rule: buy at the best ask under bid pressure, sell at the best bid under the mirror. */
module Strategy {
  import opened Words
  import opened PriceLevels
  import opened OrderBook
  import opened TradeFlowWindow

  datatype OrderType = Buy | Sell

  datatype Order = Order(kind: OrderType, price: u64, quantity: u64)

  const DEPTH_LEVELS: nat := 5
  const ORDER_QUANTITY: u64 := 10

  function Total(rows: seq<Row>): nat {
    if rows == [] then 0 else Total(rows[..|rows| - 1]) + rows[|rows| - 1].quantity
  }

  /** The best five rows of a side. */
  function TopFive(rows: seq<Row>): seq<Row> {
    rows[..Min(DEPTH_LEVELS, |rows|)]
  }

  function BidTotal(b: Book): nat {
    Total(TopFive(b.bids))
  }

  function AskTotal(b: Book): nat {
    Total(TopFive(b.asks))
  }

  predicate Tradable(b: Book) {
    var bid, ask := BestRow(b.bids).price, BestRow(b.asks).price;
    bid != 0 && ask != 0 && bid < ask
  }

  /** The first side's share of the quantity is above 11/20. */
  predicate Dominates(a: nat, b: nat) {
    20 * a > 11 * (a + b)
  }

  /** The code's test for it, on 64-bit sums and products. */
  predicate Heavy(a: nat, b: nat) {
    var x, y := Wrap64(a), Wrap64(b);
    (y == 0 && x > 0) || Wrap64(9 * x) > Wrap64(11 * y)
  }

  function BuyOrder(b: Book): Order {
    Order(Buy, BestRow(b.asks).price, ORDER_QUANTITY)
  }

  function SellOrder(b: Book): Order {
    Order(Sell, BestRow(b.bids).price, ORDER_QUANTITY)
  }

  /** The order the rule asks for, in exact arithmetic. */
  function Wanted(b: Book, buyVolume: u64, sellVolume: u64): Option<Order> {
    if !Tradable(b) then None
    else if Dominates(BidTotal(b), AskTotal(b)) && buyVolume > sellVolume then Some(BuyOrder(b))
    else if Dominates(AskTotal(b), BidTotal(b)) && sellVolume > buyVolume then Some(SellOrder(b))
    else None
  }

  /** The order the code asks for. */
  function Decided(b: Book, buyVolume: u64, sellVolume: u64): Option<Order> {
    if !Tradable(b) then None
    else if Heavy(BidTotal(b), AskTotal(b)) && buyVolume > sellVolume then Some(BuyOrder(b))
    else if Heavy(AskTotal(b), BidTotal(b)) && sellVolume > buyVolume then Some(SellOrder(b))
    else None
  }

  predicate SameOrder(a: Order, b: Order) {
    a.kind == b.kind && a.price == b.price
  }

  method SumQuantities(levels: seq<Row>) returns (sum: u64)
    ensures sum == Wrap64(Total(levels))
  {
    sum := 0;
    for i := 0 to |levels|
      invariant sum == Wrap64(Total(levels[..i]))
    {
      assert levels[..i + 1][..i] == levels[..i];
      WrapOfSum(Total(levels[..i]), levels[i].quantity);
      sum := Wrap64(sum + levels[i].quantity);
    }
    assert levels[..|levels|] == levels;
  }

  class OrderProcessor {
    const book: OrderBook
    const flow: TradeFlowWindow
    var last: Order

    constructor (book: OrderBook, flow: TradeFlowWindow)
      ensures this.book == book && this.flow == flow && last == Order(Buy, 0, 0)
    {
      this.book, this.flow := book, flow;
      last := Order(Buy, 0, 0);
    }

    /** What the book and the trade window ask for now. */
    ghost function Decision(): Option<Order>
      requires book.Valid() && flow.Valid()
      reads this, book, book.bids, book.bids.rows, book.asks, book.asks.rows, flow, flow.ring
    {
      Decided(book.Contents(), Wrap64(BuyTotal(flow.Window())), Wrap64(SellTotal(flow.Window())))
    }

    method CompareSums() returns (bidHeavy: bool, askHeavy: bool)
      requires book.Valid()
      ensures bidHeavy == Heavy(BidTotal(book.Contents()), AskTotal(book.Contents()))
      ensures askHeavy == Heavy(AskTotal(book.Contents()), BidTotal(book.Contents()))
    {
      var topBids := book.bids.GetTop(DEPTH_LEVELS);
      var topAsks := book.asks.GetTop(DEPTH_LEVELS);
      var bidSum: int := SumQuantities(topBids);
      var askSum: int := SumQuantities(topAsks);
      bidHeavy := (askSum == 0 && bidSum > 0) || Wrap64(9 * bidSum) > Wrap64(11 * askSum);
      askHeavy := (bidSum == 0 && askSum > 0) || Wrap64(9 * askSum) > Wrap64(11 * bidSum);
    }

    /** A new order is made exactly when one is asked for that does not repeat the last. */
    method CreateOrder() returns (made: bool, order: Order)
      requires book.Valid() && flow.Valid()
      modifies this`last
      ensures Decision() == old(Decision())
      ensures made <==> Decision().Some? && (Decision().value.kind != old(last).kind || Decision().value.price != old(last).price)
      ensures made ==> Decision() == Some(order)
      ensures last == if made then order else old(last)
    {
      order := last;
      var bestBid := book.bids.GetBest();
      var bestAsk := book.asks.GetBest();
      if bestBid.price == 0 || bestAsk.price == 0 || bestBid.price >= bestAsk.price {
        return false, order;
      }
      var bidHeavy, askHeavy := CompareSums();
      var buyVolume := flow.AggressiveBuyVolume();
      var sellVolume := flow.AggressiveSellVolume();
      if bidHeavy && buyVolume > sellVolume {
        order := Order(Buy, bestAsk.price, ORDER_QUANTITY);
      } else if askHeavy && sellVolume > buyVolume {
        order := Order(Sell, bestBid.price, ORDER_QUANTITY);
      } else {
        return false, order;
      }
      if last.kind == order.kind && last.price == order.price {
        return false, order;
      }
      last := order;
      return true, order;
    }
  }

  // ---- Exactly when the wrapped test is right ----

  function Laps(x: nat): nat {
    x / 0x1_0000_0000_0000_0000
  }

  lemma LapsAndRest(x: nat)
    ensures x == 0x1_0000_0000_0000_0000 * Laps(x) + Wrap64(x)
  {}

  /** The products lose the same number of laps, or the one that loses more keeps more. */
  predicate JudgedRight(a: nat, b: nat) {
    Laps(9 * a) == Laps(11 * b) || (Laps(9 * a) > Laps(11 * b) <==> Wrap64(9 * a) > Wrap64(11 * b))
  }

  lemma SameRest(x: nat, y: nat, q: int)
    requires x == y + 0x1_0000_0000_0000_0000 * q
    ensures Wrap64(x) == Wrap64(y)
  {}

  lemma WrapBeforeProduct(a: nat)
    ensures Wrap64(9 * Wrap64(a)) == Wrap64(9 * a) && Wrap64(11 * Wrap64(a)) == Wrap64(11 * a)
  {
    LapsAndRest(a);
    SameRest(9 * a, 9 * Wrap64(a), 9 * Laps(a));
    SameRest(11 * a, 11 * Wrap64(a), 11 * Laps(a));
  }

  /** Nine is odd, so only zero is sent to zero. */
  lemma NineTimesIsNotZero(x: u64)
    requires x > 0
    ensures Wrap64(9 * x) != 0
  {
    LapsAndRest(9 * x);
    assert 0 <= Laps(9 * x) < 9;
  }

  /** The zero-sum clause of the test is redundant: all of it is the wrapped comparison. */
  lemma HeavyCompares(a: nat, b: nat)
    ensures Heavy(a, b) <==> Wrap64(9 * a) > Wrap64(11 * b)
  {
    WrapBeforeProduct(a);
    WrapBeforeProduct(b);
    if Wrap64(b) == 0 && Wrap64(a) > 0 {
      NineTimesIsNotZero(Wrap64(a));
    }
  }

  lemma HeavyExactly(a: nat, b: nat)
    ensures (Heavy(a, b) <==> Dominates(a, b)) <==> JudgedRight(a, b)
  {
    HeavyCompares(a, b);
    LapsAndRest(9 * a);
    LapsAndRest(11 * b);
  }

  lemma {:induction false} TotalAdds(xs: seq<Row>, ys: seq<Row>)
    ensures Total(xs + ys) == Total(xs) + Total(ys)
    ensures forall r :: Total([r]) == r.quantity
    decreases |ys|
  {
    assert forall r: Row :: [r][..0] == [];
    if ys == [] {
      assert xs + ys == xs;
    } else {
      var n := |ys| - 1;
      assert (xs + ys)[..|xs + ys| - 1] == xs + ys[..n];
      TotalAdds(xs, ys[..n]);
    }
  }

  /** What the code decides, on the fields of the book and the flow: five rows a side, 64-bit products
      by nine and eleven, ten units at the first row of the other side. */
  lemma DecidedOnFields(b: Book, buyVolume: u64, sellVolume: u64)
    ensures var o := Decided(b, buyVolume, sellVolume);
            var bids, asks := Total(b.bids[..Min(5, |b.bids|)]), Total(b.asks[..Min(5, |b.asks|)]);
            && (o.Some? <==>
                 && b.bids != [] && b.asks != [] && 0 < b.bids[0].price < b.asks[0].price
                 && (if buyVolume > sellVolume then Wrap64(9 * bids) > Wrap64(11 * asks)
                     else sellVolume > buyVolume && Wrap64(9 * asks) > Wrap64(11 * bids)))
            && (o.Some? && buyVolume > sellVolume ==> o.value == Order(Buy, b.asks[0].price, 10))
            && (o.Some? && sellVolume > buyVolume ==> o.value == Order(Sell, b.bids[0].price, 10))
  {
    HeavyCompares(BidTotal(b), AskTotal(b));
    HeavyCompares(AskTotal(b), BidTotal(b));
  }

  /** The flow leaves only one of the two tests to matter. */
  predicate BookJudgedRight(b: Book, buyVolume: u64, sellVolume: u64) {
    && (buyVolume > sellVolume ==> JudgedRight(BidTotal(b), AskTotal(b)))
    && (sellVolume > buyVolume ==> JudgedRight(AskTotal(b), BidTotal(b)))
  }

  /** For every book and flow: the code decides as the rule does exactly when the book is not
      tradable or the test that the flow leaves to matter is judged right. */
  lemma DecidedExactly(b: Book, buyVolume: u64, sellVolume: u64)
    ensures Decided(b, buyVolume, sellVolume) == Wanted(b, buyVolume, sellVolume)
            <==> !Tradable(b) || BookJudgedRight(b, buyVolume, sellVolume)
  {
    HeavyExactly(BidTotal(b), AskTotal(b));
    HeavyExactly(AskTotal(b), BidTotal(b));
  }

  /** The rule is followed on every book whose top fives hold no more than the limit. */
  ghost predicate RightUpTo(limit: nat) {
    forall b, buyVolume, sellVolume {:trigger Decided(b, buyVolume, sellVolume)} ::
      BidTotal(b) <= limit && AskTotal(b) <= limit ==>
        Decided(b, buyVolume, sellVolume) == Wanted(b, buyVolume, sellVolume)
  }

  lemma SmallIsJudgedRight(a: nat, b: nat)
    requires 11 * a < U64_LIMIT && 11 * b < U64_LIMIT
    ensures JudgedRight(a, b)
  {
    assert Laps(9 * a) == 0 && Laps(11 * b) == 0;
  }

  const THIN_BID := Book(0, [Row(1, 1)], [Row(2, 1676976733973595602)])

  lemma OneRow(r: Row)
    ensures Total(TopFive([r])) == r.quantity
  {
    assert TopFive([r]) == [r] && [r][..0] == [];
  }

  /** A wrapped comparison can buy against a book that is almost all asks. */
  lemma BuysAgainstTheBook()
    ensures Tradable(THIN_BID) && BidTotal(THIN_BID) == 1 && AskTotal(THIN_BID) == 1676976733973595602
    ensures Decided(THIN_BID, 1, 0) == Some(Order(Buy, 2, ORDER_QUANTITY)) && Wanted(THIN_BID, 1, 0) == None
    ensures Dominates(AskTotal(THIN_BID), BidTotal(THIN_BID))
  {
    OneRow(Row(1, 1));
    OneRow(Row(2, 1676976733973595602));
    assert Wrap64(11 * 1676976733973595602) == 6 && Wrap64(9 * 1) == 9;
  }

  const THIN_ASK := Book(0, [Row(1, 2049638230412172402)], [Row(2, 1)])

  /** And it can miss a book that is almost all bids. */
  lemma MissesTheBook()
    ensures Tradable(THIN_ASK) && BidTotal(THIN_ASK) == 2049638230412172402 && AskTotal(THIN_ASK) == 1
    ensures Decided(THIN_ASK, 1, 0) == None && Wanted(THIN_ASK, 1, 0) == Some(Order(Buy, 2, ORDER_QUANTITY))
  {
    OneRow(Row(1, 2049638230412172402));
    OneRow(Row(2, 1));
    assert Wrap64(9 * 2049638230412172402) == 2 && Wrap64(11 * 1) == 11;
  }

  /** As a bound on the quantities: the rule is followed everywhere below it exactly when eleven
      times the bound fits in 64 bits. */
  lemma BoundExactly(limit: nat)
    ensures RightUpTo(limit) <==> 11 * limit < U64_LIMIT
  {
    if 11 * limit < U64_LIMIT {
      forall b, buyVolume: u64, sellVolume: u64 | BidTotal(b) <= limit && AskTotal(b) <= limit
        ensures Decided(b, buyVolume, sellVolume) == Wanted(b, buyVolume, sellVolume)
      {
        SmallIsJudgedRight(BidTotal(b), AskTotal(b));
        SmallIsJudgedRight(AskTotal(b), BidTotal(b));
        DecidedExactly(b, buyVolume, sellVolume);
      }
    } else {
      BuysAgainstTheBook();
    }
  }

  // ---- Whole runs of the code's decisions ----

  datatype Moment = Moment(book: Book, buyVolume: u64, sellVolume: u64)

  datatype Placement = Placement(order: Order, at: Moment)

  function DecidedAt(m: Moment): Option<Order> {
    Decided(m.book, m.buyVolume, m.sellVolume)
  }

  /** The orders that `CreateOrder` makes, call after call. */
  function Placements(last: Order, ms: seq<Moment>): seq<Placement>
    decreases |ms|
  {
    if ms == [] then []
    else
      var w := DecidedAt(ms[0]);
      if w.Some? && !SameOrder(w.value, last) then [Placement(w.value, ms[0])] + Placements(w.value, ms[1..])
      else Placements(last, ms[1..])
  }

  /** The order made before the `i`-th one. */
  function OrderBefore(last: Order, ps: seq<Placement>, i: nat): Order
    requires i <= |ps|
  {
    if i == 0 then last else ps[i - 1].order
  }

  function LastOrder(last: Order, ps: seq<Placement>): Order {
    OrderBefore(last, ps, |ps|)
  }

  /** A buy lifts the best ask of an uncrossed book while buyers lead, and its share of the top five
      is above 11/20 exactly when the test was judged right; a sell is the mirror. */
  predicate Sound(p: Placement) {
    var b := p.at.book;
    && b.bids != [] && b.asks != [] && 0 < b.bids[0].price < b.asks[0].price
    && p.order.quantity == 10
    && match p.order.kind
       case Buy =>
         && p.order.price == b.asks[0].price && p.at.buyVolume > p.at.sellVolume
         && (Dominates(BidTotal(b), AskTotal(b)) <==> JudgedRight(BidTotal(b), AskTotal(b)))
       case Sell =>
         && p.order.price == b.bids[0].price && p.at.sellVolume > p.at.buyVolume
         && (Dominates(AskTotal(b), BidTotal(b)) <==> JudgedRight(AskTotal(b), BidTotal(b)))
  }

  lemma DecidedIsSound(m: Moment)
    requires DecidedAt(m).Some?
    ensures Sound(Placement(DecidedAt(m).value, m))
  {
    HeavyExactly(BidTotal(m.book), AskTotal(m.book));
    HeavyExactly(AskTotal(m.book), BidTotal(m.book));
  }

  /** Another kind or another price. */
  predicate Differs(a: Order, b: Order) {
    a.kind != b.kind || a.price != b.price
  }

  /** The `i`-th order is sound, is made at one of the moments, and differs from the one before. */
  predicate SoundAt(last: Order, ps: seq<Placement>, ms: seq<Moment>, i: nat) {
    i < |ps| && Sound(ps[i]) && ps[i].at in ms && Differs(ps[i].order, OrderBefore(last, ps, i))
  }

  ghost predicate SoundRun(last: Order, ps: seq<Placement>, ms: seq<Moment>) {
    forall i :: 0 <= i < |ps| ==> SoundAt(last, ps, ms, i)
  }

  lemma SoundLater(last: Order, p: Placement, rest: seq<Placement>, m: Moment, ms: seq<Moment>, i: nat)
    requires SoundAt(p.order, rest, ms, i)
    ensures SoundAt(last, [p] + rest, [m] + ms, i + 1)
  {
    var ps := [p] + rest;
    assert ps[i + 1] == rest[i];
    assert OrderBefore(last, ps, i + 1) == OrderBefore(p.order, rest, i);
    assert rest[i].at in [m] + ms;
  }

  lemma SoundRunCons(last: Order, p: Placement, rest: seq<Placement>, ms: seq<Moment>)
    requires Sound(p) && Differs(p.order, last) && SoundRun(p.order, rest, ms)
    ensures SoundRun(last, [p] + rest, [p.at] + ms)
  {
    assert p.at in [p.at] + ms;
    forall i | 0 < i < |[p] + rest| ensures SoundAt(last, [p] + rest, [p.at] + ms, i) {
      SoundLater(last, p, rest, p.at, ms, i - 1);
    }
  }

  lemma MoreMoments(last: Order, ps: seq<Placement>, m: Moment, ms: seq<Moment>)
    requires SoundRun(last, ps, ms)
    ensures SoundRun(last, ps, [m] + ms)
  {
    forall i | 0 <= i < |ps| ensures SoundAt(last, ps, [m] + ms, i) {
      assert SoundAt(last, ps, ms, i);
      assert ps[i].at in [m] + ms;
    }
  }

  /** Over any run of books and flows. */
  lemma {:induction false} EveryOrderIsSound(last: Order, ms: seq<Moment>)
    ensures SoundRun(last, Placements(last, ms), ms)
    decreases |ms|
  {
    if ms != [] {
      var w := DecidedAt(ms[0]);
      if w.Some? && !SameOrder(w.value, last) {
        DecidedIsSound(ms[0]);
        EveryOrderIsSound(w.value, ms[1..]);
        SoundRunCons(last, Placement(w.value, ms[0]), Placements(w.value, ms[1..]), ms[1..]);
      } else {
        EveryOrderIsSound(last, ms[1..]);
        MoreMoments(last, Placements(last, ms[1..]), ms[0], ms[1..]);
      }
      assert [ms[0]] + ms[1..] == ms;
    }
  }

  lemma {:induction false} PlacementsNext(last: Order, ms: seq<Moment>, m: Moment)
    ensures var ps := Placements(last, ms);
            Placements(last, ms + [m]) ==
            match DecidedAt(m)
            case None => ps
            case Some(w) => if SameOrder(w, LastOrder(last, ps)) then ps else ps + [Placement(w, m)]
    decreases |ms|
  {
    if ms == [] {
      assert (ms + [m])[1..] == [];
    } else {
      assert (ms + [m])[1..] == ms[1..] + [m];
      var w := DecidedAt(ms[0]);
      if w.Some? && !SameOrder(w.value, last) {
        PlacementsNext(w.value, ms[1..], m);
      } else {
        PlacementsNext(last, ms[1..], m);
      }
    }
  }

  /** Nothing is missed: whenever the code asks for an order, the latest order made has its kind and
      its price. */
  lemma LatestOrderIsDecided(last: Order, ms: seq<Moment>, n: nat)
    requires n < |ms| && DecidedAt(ms[n]).Some?
    ensures var latest := LastOrder(last, Placements(last, ms[..n + 1]));
            latest.kind == DecidedAt(ms[n]).value.kind && latest.price == DecidedAt(ms[n]).value.price
  {
    assert ms[..n + 1] == ms[..n] + [ms[n]];
    PlacementsNext(last, ms[..n], ms[n]);
  }

  /** The calls that make the orders, as positions in the run. */
  function Passes(last: Order, ms: seq<Moment>): (passes: seq<nat>)
    decreases |ms|
  {
    if ms == [] then []
    else
      var n := |ms| - 1;
      var w := DecidedAt(ms[n]);
      if w.Some? && !SameOrder(w.value, LastOrder(last, Placements(last, ms[..n]))) then Passes(last, ms[..n]) + [n]
      else Passes(last, ms[..n])
  }

  /** The `k`-th order is made by the call at `i`: before it the first `k` orders have been made, and
      it decides this one. */
  predicate MadeBy(last: Order, ms: seq<Moment>, k: nat, i: nat) {
    var ps := Placements(last, ms);
    && k < |ps| && i < |ms|
    && Placements(last, ms[..i]) == ps[..k]
    && ps[k].at == ms[i] && DecidedAt(ms[i]) == Some(ps[k].order)
  }

  lemma MadeByLater(last: Order, ms: seq<Moment>, m: Moment, k: nat, i: nat)
    requires MadeBy(last, ms, k, i)
    ensures MadeBy(last, ms + [m], k, i)
  {
    PlacementsNext(last, ms, m);
    assert (ms + [m])[..i] == ms[..i];
    assert Placements(last, ms + [m])[..k] == Placements(last, ms)[..k];
  }

  /** Each order is made by one call, and later orders by later calls. */
  lemma {:induction false} PassesMakeOrders(last: Order, ms: seq<Moment>)
    ensures |Passes(last, ms)| == |Placements(last, ms)|
    ensures forall k :: 0 <= k < |Passes(last, ms)| ==> MadeBy(last, ms, k, Passes(last, ms)[k])
    ensures forall j, k :: 0 <= j < k < |Passes(last, ms)| ==> Passes(last, ms)[j] < Passes(last, ms)[k]
    decreases |ms|
  {
    if ms != [] {
      var n := |ms| - 1;
      var before, m := ms[..n], ms[n];
      assert ms == before + [m];
      PassesMakeOrders(last, before);
      PlacementsNext(last, before, m);
      forall k | 0 <= k < |Passes(last, before)| ensures MadeBy(last, ms, k, Passes(last, before)[k]) {
        MadeByLater(last, before, m, k, Passes(last, before)[k]);
      }
      if |Placements(last, ms)| > |Placements(last, before)| {
        assert Placements(last, ms)[..|Placements(last, before)|] == Placements(last, before);
      }
    }
  }
}
