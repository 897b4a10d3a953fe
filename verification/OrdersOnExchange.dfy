/** What the trader's book and orders are worth on the exchange, pass by pass. */
module OrdersOnExchange {
  import opened Words
  import opened PriceLevels
  import opened MarketData
  import opened OrderBook
  import opened BookSync
  import opened TraderBook
  import opened BookProcessor
  import opened TradeFlowWindow
  import opened Strategy
  import opened SpscRingBuffer
  import opened Trader

  /** How many readings have been consumed on the way to a later state. */
  function Consumed(v: View, v': View): int {
    |v.feed| - |v'.feed|
  }

  ghost predicate ReachedTurn(v: View, depth: nat, v': View) {
    Consumed(v, v') >= 0 && Reached(v, depth, v', Consumed(v, v'))
  }

  lemma TurnReaches(t: Turn, depth: nat, window: u64, r: TradeReading)
    requires TurnAfter(t, depth, window, r).0
    ensures ReachedTurn(t.view, depth, TurnAfter(t, depth, window, r).1.view)
  {
    var c := CallReaches(t.view, depth);
    CountedReach(t.view, depth, Processed(t.view, depth).1, c);
    SameReadings(t.view, depth, Processed(t.view, depth).1, TurnAfter(t, depth, window, r).1.view);
  }

  lemma CountedReach(v: View, depth: nat, v': View, c: nat)
    requires Reached(v, depth, v', c)
    ensures ReachedTurn(v, depth, v')
  {
    assert Consumed(v, v') == c;
  }

  /** The stamps of a trade do not matter for what has been reached. */
  lemma SameReadings(v: View, depth: nat, v': View, w: View)
    requires ReachedTurn(v, depth, v') && w.book == v'.book && w.feed == v'.feed && w.replies == v'.replies
    ensures ReachedTurn(v, depth, w)
  {}

  lemma ReachedTurnAgain(v: View, depth: nat, mid: View, v': View)
    requires ReachedTurn(v, depth, mid) && ReachedTurn(mid, depth, v')
    ensures ReachedTurn(v, depth, v')
  {
    ReachedAgain(v, depth, mid, v', Consumed(v, mid), Consumed(mid, v'));
  }

  lemma LaterTurn(t: Turn, depth: nat, window: u64, rs: seq<TradeReading>, i: nat)
    requires i < |Turns(t, depth, window, rs)|
    ensures rs != [] && TurnAfter(t, depth, window, rs[0]).0
    ensures var t' := TurnAfter(t, depth, window, rs[0]).1;
            var later := Turns(t', depth, window, rs[1..]);
            if i == 0 then Turns(t, depth, window, rs)[i] == t'
            else i - 1 < |later| && Turns(t, depth, window, rs)[i] == later[i - 1]
  {}

  /** The loop runs until a ring fails it: the book ring in a call that fails, or the trade ring when its
      consumer is disabled; no pass is counted that did. */
  lemma {:induction false} LoopRunsUntilFailure(t: Turn, depth: nat, window: u64, rs: seq<TradeReading>)
    ensures var ts := Turns(t, depth, window, rs);
            && (forall i :: 0 <= i < |ts| ==> !rs[i].TradesDisabled?)
            && (|ts| < |rs| ==>
                  var v := if ts == [] then t.view else ts[|ts| - 1].view;
                  !Processed(v, depth).0 || rs[|ts|].TradesDisabled?)
    decreases |rs|
  {
    if rs != [] && TurnAfter(t, depth, window, rs[0]).0 {
      var t' := TurnAfter(t, depth, window, rs[0]).1;
      LoopRunsUntilFailure(t', depth, window, rs[1..]);
      var ts, later := Turns(t, depth, window, rs), Turns(t', depth, window, rs[1..]);
      assert ts == [t'] + later;
      forall i | 0 <= i < |ts| ensures !rs[i].TradesDisabled? {
        assert i > 0 ==> rs[i] == rs[1..][i - 1];
      }
    }
  }

  /** In every pass the book has taken the updates read so far, in order, each once. */
  lemma {:induction false} TurnsReach(t: Turn, depth: nat, window: u64, rs: seq<TradeReading>, i: nat)
    requires i < |Turns(t, depth, window, rs)|
    ensures ReachedTurn(t.view, depth, Turns(t, depth, window, rs)[i].view)
    decreases |rs|
  {
    LaterTurn(t, depth, window, rs, i);
    var t' := TurnAfter(t, depth, window, rs[0]).1;
    TurnReaches(t, depth, window, rs[0]);
    if i > 0 {
      TurnsReach(t', depth, window, rs[1..], i - 1);
      ReachedTurnAgain(t.view, depth, t'.view, Turns(t, depth, window, rs)[i].view);
    }
  }

  /** The records of one pass: those of the book ring, then the trade. */
  ghost function RecordsIn(v: View, v': View, r: TradeReading): seq<Stamps>
    requires 0 <= Consumed(v, v') <= |v.feed|
  {
    RecordsOf(v.feed[..Consumed(v, v')])
      + (if r.TradeRead? then [Stamps(r.trade.feederRead, r.trade.feederWrite, r.now)] else [])
  }

  lemma PassStampsLatest(t: Turn, depth: nat, window: u64, r: TradeReading)
    requires TurnAfter(t, depth, window, r).0
    ensures var v' := TurnAfter(t, depth, window, r).1.view;
            0 <= Consumed(t.view, v') <= |t.view.feed| && Latest(t.view.stamps, RecordsIn(t.view, v', r), v'.stamps)
  {
    var c := CallStampsLatest(t.view, depth);
    var mid := Processed(t.view, depth).1;
    assert c == Consumed(t.view, mid);
    var records := RecordsOf(t.view.feed[..c]);
    if r.TradeRead? {
      LatestOfOne(mid.stamps, r.trade.feederRead, r.trade.feederWrite, r.now);
      LatestAgain(t.view.stamps, records, mid.stamps, [Stamps(r.trade.feederRead, r.trade.feederWrite, r.now)],
                  TurnAfter(t, depth, window, r).1.view.stamps);
    } else {
      assert records + [] == records;
    }
  }

  /** The records read up to the `i`-th decision, from both rings. */
  ghost function RecordsBefore(t: Turn, depth: nat, window: u64, rs: seq<TradeReading>, i: nat): seq<Stamps>
    requires i < |Turns(t, depth, window, rs)|
    decreases |rs|
  {
    LaterTurn(t, depth, window, rs, i);
    PassStampsLatest(t, depth, window, rs[0]);
    var t' := TurnAfter(t, depth, window, rs[0]).1;
    RecordsIn(t.view, t'.view, rs[0]) + (if i == 0 then [] else RecordsBefore(t', depth, window, rs[1..], i - 1))
  }

  /** At every decision the stamps that its order would carry are the greatest read and write stamps
      of all records read so far, and the time of the last reading. */
  lemma {:induction false} DecisionsStampLatest(t: Turn, depth: nat, window: u64, rs: seq<TradeReading>, i: nat)
    requires i < |Turns(t, depth, window, rs)|
    ensures Latest(t.view.stamps, RecordsBefore(t, depth, window, rs, i), Turns(t, depth, window, rs)[i].view.stamps)
    decreases |rs|
  {
    LaterTurn(t, depth, window, rs, i);
    var t' := TurnAfter(t, depth, window, rs[0]).1;
    PassStampsLatest(t, depth, window, rs[0]);
    var first := RecordsIn(t.view, t'.view, rs[0]);
    if i == 0 {
      assert first + [] == first;
    } else {
      DecisionsStampLatest(t', depth, window, rs[1..], i - 1);
      LatestAgain(t.view.stamps, first, t'.view.stamps, RecordsBefore(t', depth, window, rs[1..], i - 1),
                  Turns(t, depth, window, rs)[i].view.stamps);
    }
  }

  /** The trades read in a number of passes. */
  function EntriesOf(rs: seq<TradeReading>): seq<Entry> {
    if rs == [] then []
    else (if !rs[0].TradeRead? then []
          else [EntryFor(rs[0].trade.eventTime, rs[0].trade.isBuyerMaker, rs[0].trade.quantity)]) + EntriesOf(rs[1..])
  }

  lemma FlowAfterIsWindow(window: u64, history: seq<Entry>, r: TradeReading)
    ensures FlowAfter(WindowAfter(window, history), window, r) == WindowAfter(window, history + EntriesOf([r]))
  {
    assert [r][1..] == [];
    if !r.TradeRead? {
      assert history + [] == history;
    } else {
      var e := EntryFor(r.trade.eventTime, r.trade.isBuyerMaker, r.trade.quantity);
      assert EntriesOf([r]) == [e];
      WindowAfterUnfolds(window, history + [e], history, e);
    }
  }

  lemma EntriesUnfold(rs: seq<TradeReading>, n: nat)
    requires 0 < n <= |rs|
    ensures EntriesOf(rs[..n]) == EntriesOf([rs[0]]) + EntriesOf(rs[1..][..n - 1])
  {
    assert rs[..n][1..] == rs[1..][..n - 1] && [rs[0]][1..] == [];
  }

  /** In every pass the flow is the window over all trades read so far. */
  lemma {:induction false} TurnsShowWindow(t: Turn, depth: nat, window: u64, rs: seq<TradeReading>, history: seq<Entry>, i: nat)
    requires t.flow == WindowAfter(window, history) && i < |Turns(t, depth, window, rs)|
    ensures Turns(t, depth, window, rs)[i].flow == WindowAfter(window, history + EntriesOf(rs[..i + 1]))
    decreases |rs|
  {
    LaterTurn(t, depth, window, rs, i);
    var t' := TurnAfter(t, depth, window, rs[0]).1;
    var seen, rest := history + EntriesOf([rs[0]]), EntriesOf(rs[1..][..i]);
    FlowAfterIsWindow(window, history, rs[0]);
    if i > 0 {
      TurnsShowWindow(t', depth, window, rs[1..], seen, i - 1);
    } else {
      assert rest == [] && seen + rest == seen;
    }
    EntriesUnfold(rs, i + 1);
    Regrouped(history, EntriesOf([rs[0]]), rest);
  }

  lemma Regrouped(a: seq<Entry>, b: seq<Entry>, c: seq<Entry>)
    ensures (a + b) + c == a + (b + c)
  {}

  /** The trades read in a number of passes, as the exchange sent them. */
  function TradesOf(rs: seq<TradeReading>): seq<Trade> {
    if rs == [] then [] else (if rs[0].TradeRead? then [rs[0].trade] else []) + TradesOf(rs[1..])
  }

  lemma {:induction false} EntriesOfTrades(rs: seq<TradeReading>)
    ensures EntriesOf(rs) == EntriesFor(TradesOf(rs))
  {
    if rs != [] {
      EntriesOfTrades(rs[1..]);
    }
  }

  /** The volumes are what buyers and sellers took in the last `k` trades, modulo 2^64; with time
      stamps in order those are exactly the recent ones. */
  ghost predicate Weighs(window: u64, ts: seq<Trade>, k: nat, buyVolume: u64, sellVolume: u64) {
    && k <= |ts| && k <= 2048 && (ts != [] ==> k > 0)
    && buyVolume == Wrap64(Bought(LastTrades(ts, k))) && sellVolume == Wrap64(Sold(LastTrades(ts, k)))
    && (TradesInOrder(ts) && ts != [] ==> AreRecent(window, ts, k))
  }

  lemma WindowWeighs(window: u64, ts: seq<Trade>)
    ensures var w := WindowAfter(window, EntriesFor(ts));
            Weighs(window, ts, |w|, Wrap64(BuyTotal(w)), Wrap64(SellTotal(w)))
  {
    VolumesOfTrades(window, ts);
    if TradesInOrder(ts) && ts != [] {
      WindowIsRecent(window, ts);
    }
  }

  lemma FlowOfTrades(t: Turn, depth: nat, window: u64, rs: seq<TradeReading>, i: nat)
    requires t.flow == [] && i < |Turns(t, depth, window, rs)|
    ensures Turns(t, depth, window, rs)[i].flow == WindowAfter(window, EntriesFor(TradesOf(rs[..i + 1])))
  {
    TurnsShowWindow(t, depth, window, rs, [], i);
    EntriesOfTrades(rs[..i + 1]);
    var es := EntriesOf(rs[..i + 1]);
    assert [] + es == es;
  }

  /** Every decision weighs what buyers took against what sellers took in the newest trades read so far. */
  lemma DecisionsWeighTrades(t: Turn, depth: nat, window: u64, rs: seq<TradeReading>, i: nat)
    requires t.flow == [] && i < |Turns(t, depth, window, rs)|
    ensures var turn := Turns(t, depth, window, rs)[i];
            Weighs(window, TradesOf(rs[..i + 1]), |turn.flow|, MomentOf(turn).buyVolume, MomentOf(turn).sellVolume)
  {
    FlowOfTrades(t, depth, window, rs, i);
    WindowWeighs(window, TradesOf(rs[..i + 1]));
  }

  // ---- Orders ----

  /** The order is right on the exchange's book: at its lowest ask or its highest bid, uncrossed, and
      with its side's share of the true top five above 11/20 exactly when the test was judged right. */
  ghost predicate OnExchange(h: seq<Change>, p: Placement)
    requires p.at.book.lastUpdateId <= |h|
  {
    var full := BookAt(h, p.at.book.lastUpdateId);
    var bids, asks := Top(PriceDescending, DEPTH_LEVELS, full.bids), Top(PriceAscending, DEPTH_LEVELS, full.asks);
    && bids != [] && asks != [] && 0 < bids[0].price < asks[0].price
    && bids[0].price in full.bids && (forall price :: price in full.bids ==> price <= bids[0].price)
    && asks[0].price in full.asks && (forall price :: price in full.asks ==> price >= asks[0].price)
    && match p.order.kind
       case Buy => p.order.price == asks[0].price && (Dominates(Total(bids), Total(asks)) <==> JudgedRight(Total(bids), Total(asks)))
       case Sell => p.order.price == bids[0].price && (Dominates(Total(asks), Total(bids)) <==> JudgedRight(Total(asks), Total(bids)))
  }

  predicate TopFiveTrusted(t: Trust) {
    t.bids >= DEPTH_LEVELS && t.asks >= DEPTH_LEVELS
  }

  lemma FirstOfTopFive(rows: seq<Row>)
    requires rows != []
    ensures TopFive(rows) != [] && TopFive(rows)[0] == rows[0]
  {}

  lemma SoundOrderOnMatchingBook(h: seq<Change>, depth: nat, p: Placement, t: Trust)
    requires Sound(p) && MatchesExchange(h, depth, p.at.book, t) && TopFiveTrusted(t)
    ensures OnExchange(h, p)
  {
    var b := p.at.book;
    var full := BookAt(h, b.lastUpdateId);
    assert TopFive(b.bids) == Top(PriceDescending, DEPTH_LEVELS, full.bids);
    assert TopFive(b.asks) == Top(PriceAscending, DEPTH_LEVELS, full.asks);
    FirstOfTopFive(b.bids);
    FirstOfTopFive(b.asks);
    FirstIsHighestOrLowest(PriceDescending, DEPTH_LEVELS, full.bids);
    FirstIsHighestOrLowest(PriceAscending, DEPTH_LEVELS, full.asks);
  }

  /** At most `depth - 5` deletions on each side since the last snapshot leave the top five trusted. */
  lemma FewLossesAreTrusted(depth: nat, us: seq<OrderBookUpdate>, replies: seq<Reply>)
    requires var l := LossesAfterAll(Losses(0, 0), EMPTY_BOOK, depth, us, replies);
             l.bids + DEPTH_LEVELS <= depth && l.asks + DEPTH_LEVELS <= depth
    ensures TopFiveTrusted(TrustFrom(depth, us, replies))
  {
    TrustIsDepthLessLosses(depth, Trust(depth, depth), Losses(0, 0), EMPTY_BOOK, us, replies);
  }

  /** The updates read before the `i`-th decision. */
  ghost function ReadBefore(t: Turn, depth: nat, window: u64, rs: seq<TradeReading>, i: nat): seq<OrderBookUpdate>
    requires i < |Turns(t, depth, window, rs)|
  {
    TurnsReach(t, depth, window, rs, i);
    Updates(t.view.feed[..Consumed(t.view, Turns(t, depth, window, rs)[i].view)])
  }

  ghost function FirstTurn(feed: seq<Reading>, replies: seq<Reply>): Turn {
    Turn(Start(feed, replies), [])
  }

  /** Every decision is taken on a book that shows the exchange's best levels on its trusted rows
      exactly when nothing is missing in it; and nothing is when the rest of the event that has been
      read in part is no news, or when the last event read is complete. */
  lemma DecisionsMatchExchange(h: seq<Change>, depth: nat, ms: seq<DepthMessage>, feed: seq<Reading>, replies: seq<Reply>,
                               answers: seq<u64>, window: u64, rs: seq<TradeReading>, i: nat)
    requires CanFollow(h, ms, answers) && Honest(h, depth, replies, answers)
    requires i < |Turns(FirstTurn(feed, replies), depth, window, rs)|
    requires ReadBefore(FirstTurn(feed, replies), depth, window, rs, i) <= Flattened(ms)
    ensures var us := ReadBefore(FirstTurn(feed, replies), depth, window, rs, i);
            var b, trust := Turns(FirstTurn(feed, replies), depth, window, rs)[i].view.book, TrustFrom(depth, us, replies);
            && (MatchesExchange(h, depth, b, trust) <==> NothingMissing(h, ms, answers, |us|, b, trust))
            && (NothingPending(h, ms, answers, |us|) ==> NothingMissing(h, ms, answers, |us|, b, trust))
            && (AtBoundary(us) ==> NothingPending(h, ms, answers, |us|))
  {
    var t := FirstTurn(feed, replies);
    var v := Turns(t, depth, window, rs)[i].view;
    TurnsReach(t, depth, window, rs, i);
    ReturnMatchesExactly(h, depth, ms, feed, replies, answers, v, Consumed(t.view, v));
  }

  /** The order is the one of the `i`-th pass, and sound; if nothing was missing there and the top
      fives are trusted, it is right on the exchange's book. */
  ghost predicate RightAt(h: seq<Change>, depth: nat, ms: seq<DepthMessage>, answers: seq<u64>,
                          t: Turn, window: u64, rs: seq<TradeReading>, p: Placement, i: nat) {
    && i < |Turns(t, depth, window, rs)|
    && p.at == MomentOf(Turns(t, depth, window, rs)[i])
    && Sound(p)
    && var us := ReadBefore(t, depth, window, rs, i);
       var trust := TrustFrom(depth, us, t.view.replies);
       us <= Flattened(ms) && NothingMissing(h, ms, answers, |us|, p.at.book, trust) && TopFiveTrusted(trust) ==>
         p.at.book.lastUpdateId <= |h| && OnExchange(h, p)
  }

  lemma OrderAtPass(h: seq<Change>, depth: nat, ms: seq<DepthMessage>, feed: seq<Reading>, replies: seq<Reply>,
                    answers: seq<u64>, window: u64, rs: seq<TradeReading>, p: Placement, i: nat)
    requires CanFollow(h, ms, answers) && Honest(h, depth, replies, answers)
    requires i < |Turns(FirstTurn(feed, replies), depth, window, rs)|
    requires Sound(p) && p.at == MomentOf(Turns(FirstTurn(feed, replies), depth, window, rs)[i])
    ensures RightAt(h, depth, ms, answers, FirstTurn(feed, replies), window, rs, p, i)
  {
    var us := ReadBefore(FirstTurn(feed, replies), depth, window, rs, i);
    if us <= Flattened(ms) {
      DecisionsMatchExchange(h, depth, ms, feed, replies, answers, window, rs, i);
      var trust := TrustFrom(depth, us, replies);
      if NothingMissing(h, ms, answers, |us|, p.at.book, trust) && TopFiveTrusted(trust) {
        SoundOrderOnMatchingBook(h, depth, p, trust);
      }
    }
  }

  /** The passes in which the orders of a run are made. */
  ghost function OrderPasses(t: Turn, last: Order, depth: nat, window: u64, rs: seq<TradeReading>): seq<nat> {
    Passes(last, MomentsOf(Turns(t, depth, window, rs)))
  }

  /** Over every run of the main loop: each order is made in a pass of its own, later than the orders
      before it, does not repeat the one before, and is right in the pass that makes it (and in any
      other pass that shows the same book and flow). */
  lemma OrdersFollowExchange(h: seq<Change>, depth: nat, ms: seq<DepthMessage>, feed: seq<Reading>, replies: seq<Reply>,
                             answers: seq<u64>, window: u64, rs: seq<TradeReading>, last: Order, k: nat)
    requires CanFollow(h, ms, answers) && Honest(h, depth, replies, answers)
    requires k < |OrdersOf(FirstTurn(feed, replies), last, depth, window, rs)|
    ensures var t := FirstTurn(feed, replies);
            var ts, ps, passes := Turns(t, depth, window, rs), OrdersOf(t, last, depth, window, rs), OrderPasses(t, last, depth, window, rs);
            && |passes| == |ps|
            && MadeBy(last, MomentsOf(ts), k, passes[k]) && (forall j :: 0 <= j < k ==> passes[j] < passes[k])
            && RightAt(h, depth, ms, answers, t, window, rs, ps[k], passes[k])
            && (forall i :: 0 <= i < |ts| && MomentOf(ts[i]) == ps[k].at ==> RightAt(h, depth, ms, answers, t, window, rs, ps[k], i))
            && Differs(ps[k].order, OrderBefore(last, ps, k))
  {
    var t := FirstTurn(feed, replies);
    var ts, ps := Turns(t, depth, window, rs), OrdersOf(t, last, depth, window, rs);
    EveryOrderIsSound(last, MomentsOf(ts));
    assert SoundAt(last, ps, MomentsOf(ts), k);
    PassesMakeOrders(last, MomentsOf(ts));
    assert MadeBy(last, MomentsOf(ts), k, OrderPasses(t, last, depth, window, rs)[k]);
    forall i | 0 <= i < |ts| && MomentOf(ts[i]) == ps[k].at ensures RightAt(h, depth, ms, answers, t, window, rs, ps[k], i) {
      OrderAtPass(h, depth, ms, feed, replies, answers, window, rs, ps[k], i);
    }
  }

  // ---- In the middle of an event ----

  const HISTORY := [Change(Bid, 1, 100), Change(Ask, 3, 1), Change(Bid, 1, 200), Change(Ask, 2, 1)]

  const EVENT := DepthMessage(0, 3, 4, BtcUsdt, [Row(1, 200)], [Row(2, 1)])

  const SYNCED_BOOK := Book(2, [Row(1, 100)], [Row(3, 1)])

  /** The ring shows the first update of the event, then nothing yet, then the second. */
  function SplitFeed(): seq<Reading> {
    [Reading(Success(UpdateAt(EVENT, 0)), 0), Reading(BufferIsEmpty, 0), Reading(Success(UpdateAt(EVENT, 1)), 0)]
  }

  lemma OneLevel(r: Row)
    ensures LevelsOf([r]) == map[r.price := r.quantity]
  {
    assert [r][1..] == [];
  }

  lemma ReplacedLevel(o: SideOrder, depth: nat, price: u64, old_: u64, new_: u64)
    requires depth >= 1 && new_ != 0
    ensures UpdateRows(o, depth, [Row(price, old_)], price, new_) == [Row(price, new_)]
  {
    UpdateRowsSplices(o, depth, [Row(price, old_)], price, new_);
    SplicedCases([Row(price, old_)], 0, price, new_);
  }

  lemma HistoryBooks()
    ensures BookAt(HISTORY, 2) == FullBook(map[1 := 100], map[3 := 1])
    ensures BookAt(HISTORY, 4) == FullBook(map[1 := 200], map[3 := 1, 2 := 1])
  {
    var b1 := FullBook(map[1 := 100], map[]);
    var b2 := FullBook(map[1 := 100], map[3 := 1]);
    var b3 := FullBook(map[1 := 200], map[3 := 1]);
    assert BookAt(HISTORY, 1) == b1;
    assert BookAt(HISTORY, 2) == b2;
    assert BookAt(HISTORY, 3) == b3;
  }

  lemma TwoAsks()
    ensures Top(PriceAscending, 1, map[3 := 1, 2 := 1]) == [Row(2, 1)]
  {
    var rows := [Row(2, 1), Row(3, 1)];
    assert rows[1..] == [Row(3, 1)];
    OneLevel(Row(3, 1));
    assert LevelsOf(rows) == map[3 := 1, 2 := 1];
    TopOfSorted(PriceAscending, 1, rows);
    assert rows[..1] == [Row(2, 1)];
  }

  /** A call that sees the ring empty in the middle of an event returns true with the id of the event
      and only part of its levels: here the trader buys at 3 when the exchange's best ask is 2. */
  lemma OrderInMidEvent(depth: nat)
    requires depth >= 1
    ensures LevelsOf(SYNCED_BOOK.bids) == BookAt(HISTORY, 2).bids && LevelsOf(SYNCED_BOOK.asks) == BookAt(HISTORY, 2).asks
    ensures Summarises(HISTORY, EVENT)
    ensures var (ok, v) := Processed(View(SYNCED_BOOK, Stamps(0, 0, 0), SplitFeed(), []), depth);
            && ok && v.feed == SplitFeed()[2..] && v.book == Book(4, [Row(1, 200)], [Row(3, 1)])
            && Decided(v.book, 1, 0) == Some(Order(Buy, 3, ORDER_QUANTITY))
    ensures Top(PriceAscending, 1, BookAt(HISTORY, 4).asks) == [Row(2, 1)]
  {
    OneLevel(Row(1, 100));
    OneLevel(Row(3, 1));
    HistoryBooks();
    TwoAsks();
    EventSummarisesHistory();
    var v := View(SYNCED_BOOK, Stamps(0, 0, 0), SplitFeed(), []);
    ReplacedLevel(PriceDescending, depth, 1, 100, 200);
    var next := AfterUpdate(v, depth);
    assert next.book == Book(4, [Row(1, 200)], [Row(3, 1)]);
    assert Processed(v, depth) == Processed(next, depth) == (true, next.(feed := next.feed[1..]));
    BuyAtThree();
  }

  lemma EventSummarisesHistory()
    ensures Summarises(HISTORY, EVENT)
  {
    HistoryBooks();
    var cs := ChangesOf(UpdatesOf(EVENT));
    assert cs[0] == HISTORY[2] && cs[1] == HISTORY[3];
    assert Touches(cs, Bid, 1) && Touches(cs, Ask, 2);
  }

  lemma BuyAtThree()
    ensures Decided(Book(4, [Row(1, 200)], [Row(3, 1)]), 1, 0) == Some(Order(Buy, 3, ORDER_QUANTITY))
  {
    OneRow(Row(1, 200));
    OneRow(Row(3, 1));
    SmallIsJudgedRight(200, 1);
    HeavyExactly(200, 1);
  }
}
