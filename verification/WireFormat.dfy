/** The exchange's messages as JSON documents, and the round trip through the parsers. */
module WireFormat {
  import opened Words
  import opened PriceLevels
  import opened MarketData
  import opened Json
  import opened FixedDecimal
  import D = DepthHandler
  import S = SnapshotHandler
  import C = CombinedHandler
  import M = EventMeaning

  // ---- Levels ----

  function LevelItems(r: Row): seq<Json> {
    [Str(Rendered(r.price, 8)), Str(Rendered(r.quantity, 8))]
  }

  function LevelsJson(rows: seq<Row>): seq<Json> {
    if rows == [] then [] else [Arr(LevelItems(rows[0]))] + LevelsJson(rows[1..])
  }

  lemma {:induction false} DigitsLength(n: nat, width: nat, k: nat)
    requires n < Pow10(k)
    ensures |Digits(n, width)| <= Max(width, k)
    decreases n, width
  {
    if n != 0 || width != 0 {
      DigitsLength(n / 10, if width == 0 then 0 else width - 1, if k == 0 then 0 else k - 1);
    }
  }

  lemma RenderedIsShort(v: u64)
    ensures |Rendered(v, 8)| <= D.MAX_PRICE_LENGTH
  {
    Pow10OfEighteen();
    assert Pow10(19) == 10 * Pow10(18) && Pow10(20) == 10 * Pow10(19);
    DigitsLength(v, 9, 20);
  }

  lemma RenderedIsDecimal(v: u64)
    ensures Decimal(Rendered(v, 8), 8) == Some(v)
  {
    RenderedParsesBack(v, 8);
  }

  /** One level survives both parsers. */
  lemma LevelParses(r: Row)
    ensures D.RowShape(LevelItems(r))
    ensures D.RowLevels(D.RowStrings(LevelItems(r))) == ([r], false)
    ensures S.RowLevels(D.RowStrings(LevelItems(r))) == ([r], false)
  {
    RenderedIsShort(r.price);
    RenderedIsDecimal(r.price);
    RenderedIsDecimal(r.quantity);
    StringPairParses(Rendered(r.price, 8), Rendered(r.quantity, 8), r);
  }

  lemma StringPairParses(p: string, q: string, r: Row)
    requires |p| <= D.MAX_PRICE_LENGTH
    requires Decimal(p, 8) == Some(r.price) && Decimal(q, 8) == Some(r.quantity)
    ensures D.RowShape([Str(p), Str(q)])
    ensures D.RowLevels(D.RowStrings([Str(p), Str(q)])) == ([r], false)
    ensures S.RowLevels(D.RowStrings([Str(p), Str(q)])) == ([r], false)
  {
    TwoStrings(p, q);
    PairParses(p, q, r);
  }

  /** A price is read up to 95 characters; a longer one ends the side. */
  lemma LongPriceEndsSide(p: string, rest: seq<string>)
    requires |p| > 95
    ensures D.RowLevels([p] + rest) == ([], true) && S.RowLevels([p] + rest) == ([], true)
  {}

  lemma PairParses(p: string, q: string, r: Row)
    requires |p| <= 95
    requires Decimal(p, 8) == Some(r.price) && Decimal(q, 8) == Some(r.quantity)
    ensures D.RowLevels([p, q]) == ([r], false)
    ensures S.RowLevels([p, q]) == ([r], false)
  {
    var none: seq<string> := [];
    assert [p] + ([q] + none) == [p, q];
    D.RowLevelsUnfold(p, q, none);
    S.PairUnfolds(p, q, none);
    assert [r] + [] == [r];
  }

  lemma TwoStrings(p: string, q: string)
    ensures D.RowStrings([Str(p), Str(q)]) == [p, q]
  {
    assert [Str(p), Str(q)][1..] == [Str(q)];
    assert D.RowStrings([Str(q)]) == [q];
  }

  lemma {:induction false} LevelsParse(rows: seq<Row>)
    ensures D.SideShape(LevelsJson(rows))
    ensures D.SideLevels(LevelsJson(rows)) == (rows, false)
    ensures S.SideLevels(LevelsJson(rows)) == (rows, false)
  {
    if rows == [] {
    } else {
      var first, rest := Arr(LevelItems(rows[0])), LevelsJson(rows[1..]);
      LevelsParse(rows[1..]);
      LevelParses(rows[0]);
      SideCons(first, rest);
      assert LevelsJson(rows) == [first] + rest && [rows[0]] + rows[1..] == rows;
    }
  }

  lemma SideCons(first: Json, rest: seq<Json>)
    requires first.Arr?
    ensures D.SideShape([first] + rest) == (D.RowShape(first.items) && D.SideShape(rest))
    ensures var (rows, bad) := D.RowLevels(D.RowStrings(first.items));
            !bad ==> D.SideLevels([first] + rest) == (rows + D.SideLevels(rest).0, D.SideLevels(rest).1)
    ensures var (rows, bad) := S.RowLevels(D.RowStrings(first.items));
            !bad ==> S.SideLevels([first] + rest) == (rows + S.SideLevels(rest).0, S.SideLevels(rest).1)
  {
    assert ([first] + rest)[1..] == rest;
    D.SideShapeUnfolds([first] + rest);
  }

  // ---- Depth events ----

  function SymbolName(s: Symbol): string {
    match s
    case BtcUsdt => "BTCUSDT"
    case EthUsdt => "ETHUSDT"
    case Unknown => ""
  }

  function DepthSides(m: DepthMessage): seq<Member> {
    [Member("b", Arr(LevelsJson(m.bids)))] + ([Member("a", Arr(LevelsJson(m.asks)))] + [])
  }

  function DepthIds(m: DepthMessage): seq<Member> {
    [Member("U", Natural(m.firstId))] + ([Member("u", Natural(m.lastId))] + DepthSides(m))
  }

  function DepthMembers(m: DepthMessage): seq<Member> {
    [Member("e", Str("depthUpdate"))] + ([Member("E", Natural(m.eventTime))] +
    ([Member("s", Str(SymbolName(m.symbol)))] + DepthIds(m)))
  }

  lemma DepthMeaningCons(d: D.Draft, key: string, value: Json, rest: seq<Member>, d': D.Draft)
    requires D.MemberMeaning(d, key, value) == Some(d')
    ensures D.MembersMeaning(d, [Member(key, value)] + rest) == D.MembersMeaning(d', rest)
  {
    assert ([Member(key, value)] + rest)[1..] == rest;
  }

  predicate FitsDepthEvent(m: DepthMessage) {
    |m.bids| <= 5000 && |m.asks| <= 5000
  }

  /** The event time in microseconds: from 10^15 on it is one already, below it is in milliseconds. */
  function Micros(time: u64): u64 {
    if time < 1_000_000_000_000_000 then 1000 * time else time
  }

  /** What the parser makes of a message: its time is normalised to microseconds. */
  function Received(m: DepthMessage): DepthMessage {
    m.(eventTime := Micros(m.eventTime))
  }

  /** A name is a symbol's exactly when it is the one the exchange writes for it. */
  lemma SymbolsByName(s: string)
    ensures forall symbol :: symbol != Unknown ==> (D.SymbolNamed(s) == symbol <==> s == SymbolName(symbol))
  {}

  /** What a draft becomes when the event is added to it: the sides grow, the rest is replaced. */
  function Added(d: D.Draft, m: DepthMessage): D.Draft {
    D.Draft(Received(m).(bids := d.msg.bids + m.bids, asks := d.msg.asks + m.asks), true)
  }

  predicate FitsOnto(d: D.Draft, m: DepthMessage) {
    && |d.msg.bids| + |m.bids| <= 5000
    && |d.msg.asks| + |m.asks| <= 5000
  }

  lemma BidsParse(d: D.Draft, items: seq<Json>, rows: seq<Row>)
    requires D.SideShape(items) && D.SideLevels(items) == (rows, false)
    ensures D.MemberMeaning(d, "b", Arr(items)) ==
            if |d.msg.bids| + |rows| <= D.MAX_LEVELS_PER_SIDE then Some(d.(msg := d.msg.(bids := d.msg.bids + rows))) else None
  {}

  lemma AsksParse(d: D.Draft, items: seq<Json>, rows: seq<Row>)
    requires D.SideShape(items) && D.SideLevels(items) == (rows, false)
    ensures D.MemberMeaning(d, "a", Arr(items)) ==
            if |d.msg.asks| + |rows| <= D.MAX_LEVELS_PER_SIDE then Some(d.(msg := d.msg.(asks := d.msg.asks + rows))) else None
  {}

  lemma DepthSidesParse(d: D.Draft, m: DepthMessage)
    ensures D.MembersMeaning(d, DepthSides(m)) ==
            if FitsOnto(d, m) then Some(d.(msg := d.msg.(bids := d.msg.bids + m.bids, asks := d.msg.asks + m.asks))) else None
  {
    var bids, asks := Arr(LevelsJson(m.bids)), Arr(LevelsJson(m.asks));
    LevelsParse(m.bids);
    LevelsParse(m.asks);
    BidsParse(d, LevelsJson(m.bids), m.bids);
    if |d.msg.bids| + |m.bids| <= D.MAX_LEVELS_PER_SIDE {
      var d' := d.(msg := d.msg.(bids := d.msg.bids + m.bids));
      DepthMeaningCons(d, "b", bids, [Member("a", asks)] + [], d');
      AsksParse(d', LevelsJson(m.asks), m.asks);
      if |d.msg.asks| + |m.asks| <= D.MAX_LEVELS_PER_SIDE {
        DepthMeaningCons(d', "a", asks, [], d'.(msg := d'.msg.(asks := d.msg.asks + m.asks)));
      }
    }
  }

  lemma DepthIdsParse(d: D.Draft, m: DepthMessage)
    ensures D.MembersMeaning(d, DepthIds(m)) ==
            if FitsOnto(d, m) then
              Some(d.(msg := d.msg.(firstId := m.firstId, lastId := m.lastId,
                                    bids := d.msg.bids + m.bids, asks := d.msg.asks + m.asks)))
            else None
  {
    var d1 := d.(msg := d.msg.(firstId := m.firstId));
    var d2 := d1.(msg := d1.msg.(lastId := m.lastId));
    DepthMeaningCons(d, "U", Natural(m.firstId), [Member("u", Natural(m.lastId))] + DepthSides(m), d1);
    DepthMeaningCons(d1, "u", Natural(m.lastId), DepthSides(m), d2);
    DepthSidesParse(d2, m);
  }

  /** Every depth event is added as it was sent; it is refused exactly when a side grows too long. */
  lemma DepthDocumentParses(d: D.Draft, m: DepthMessage)
    ensures D.ObjectMeaning(d, DepthMembers(m)) == if FitsOnto(d, m) then Some(Added(d, m)) else None
  {
    var d1 := d.(validEventType := true);
    var d2 := d1.(msg := d1.msg.(eventTime := D.ToMicroseconds(m.eventTime)));
    var d3 := d2.(msg := d2.msg.(symbol := m.symbol));
    var named := [Member("s", Str(SymbolName(m.symbol)))] + DepthIds(m);
    DepthMeaningCons(d, "e", Str("depthUpdate"), [Member("E", Natural(m.eventTime))] + named, d1);
    DepthMeaningCons(d1, "E", Natural(m.eventTime), named, d2);
    assert D.SymbolNamed(SymbolName(m.symbol)) == m.symbol;
    DepthMeaningCons(d2, "s", Str(SymbolName(m.symbol)), DepthIds(m), d3);
    DepthIdsParse(d3, m);
  }

  function DepthObjects(ms: seq<DepthMessage>): seq<seq<Member>> {
    if ms == [] then [] else [DepthMembers(ms[0])] + DepthObjects(ms[1..])
  }

  /** What several events in one message are merged into. */
  function AddedAll(d: D.Draft, ms: seq<DepthMessage>): D.Draft
    decreases |ms|
  {
    if ms == [] then d else AddedAll(Added(d, ms[0]), ms[1..])
  }

  predicate AllFitOnto(d: D.Draft, ms: seq<DepthMessage>)
    decreases |ms|
  {
    ms == [] || (FitsOnto(d, ms[0]) && AllFitOnto(Added(d, ms[0]), ms[1..]))
  }

  lemma {:induction false} DepthObjectsAreHandled(stream: string, d: M.Drafts, ms: seq<DepthMessage>)
    requires C.NamesDepth(stream)
    ensures M.Handled(d, M.AllData(stream, DepthObjects(ms))) ==
            if AllFitOnto(d.depth, ms) then Some(d.(depth := AddedAll(d.depth, ms))) else None
    decreases |ms|
  {
    if ms != [] {
      C.StreamsByName(stream);
      DepthDocumentParses(d.depth, ms[0]);
      assert DepthObjects(ms)[1..] == DepthObjects(ms[1..]);
      var datas := M.AllData(stream, DepthObjects(ms));
      assert datas[0] == M.Data(stream, DepthMembers(ms[0]));
      assert datas[1..] == M.AllData(stream, DepthObjects(ms[1..]));
      if FitsOnto(d.depth, ms[0]) {
        DepthObjectsAreHandled(stream, d.(depth := Added(d.depth, ms[0])), ms[1..]);
      }
    }
  }

  lemma {:induction false} AllDataStream(stream: string, objects: seq<seq<Member>>)
    requires objects != []
    ensures M.AllData(stream, objects) != [] && M.LastStream(M.AllData(stream, objects)) == stream
  {
    if |objects| > 1 {
      AllDataStream(stream, objects[1..]);
      var datas := M.AllData(stream, objects);
      assert datas[|datas| - 1] == M.AllData(stream, objects[1..])[|datas| - 2];
    } else {
      assert objects[1..] == [];
    }
  }

  /** Depth events of one message, as the wrapper releases them: with one event, that event; with
      several, one event under the last header with the levels of all, since the handler is not
      reset in between. */
  lemma DepthEventsRoundTrip(stream: string, ms: seq<DepthMessage>)
    requires C.NamesDepth(M.CutName(stream)) && ms != []
    ensures C.ParsedEvent(M.EnvelopeOf(stream, DepthObjects(ms))) ==
            if AllFitOnto(M.NO_DRAFTS.depth, ms) then Some(C.DepthUpdates(UpdatesOf(AddedAll(M.NO_DRAFTS.depth, ms).msg)))
            else None
  {
    var objects, name := DepthObjects(ms), M.CutName(stream);
    M.ParsedEventIsMeaning(M.EnvelopeOf(stream, objects));
    M.EnvelopeHolds(stream, objects);
    C.StreamsByName(name);
    AllDataStream(name, objects);
    DepthObjectsAreHandled(name, M.NO_DRAFTS, ms);
  }

  /** What a depth event releases: its updates, unless it is too long. */
  function Sent(m: DepthMessage): Option<C.Released> {
    if FitsDepthEvent(m) then Some(C.DepthUpdates(UpdatesOf(Received(m)))) else None
  }

  /** One depth event under a depth name of any length, as far as the name is kept. */
  lemma DepthEventByName(stream: string, m: DepthMessage)
    requires C.NamesDepth(M.CutName(stream))
    ensures C.ParsedEvent(M.EnvelopeOf(stream, DepthObjects([m]))) == Sent(m)
  {
    DepthEventsRoundTrip(stream, [m]);
    var d := M.NO_DRAFTS.depth;
    assert [m][1..] == [] && [] + m.bids == m.bids && [] + m.asks == m.asks;
    assert AllFitOnto(d, [m]) == FitsDepthEvent(m);
    assert AddedAll(d, [m]) == Added(d, m);
    assert Added(d, m).msg == Received(m);
  }

  /** One depth event on a stream of either name: its updates come back as they were sent. */
  lemma DepthEventRoundTrip(s: string, m: DepthMessage)
    requires |s| + 12 <= 255
    ensures C.ParsedEvent(M.EnvelopeOf(s + "@depth@100ms", DepthObjects([m]))) == Sent(m)
    ensures C.ParsedEvent(M.EnvelopeOf(s + "@depth", DepthObjects([m]))) == Sent(m)
  {
    DepthEventByName(s + "@depth@100ms", m);
    DepthEventByName(s + "@depth", m);
  }

  lemma TwoAdded(d: D.Draft, m: DepthMessage, n: DepthMessage)
    requires d.msg.bids == [] && d.msg.asks == []
    requires |m.bids| + |n.bids| <= 5000 && |m.asks| + |n.asks| <= 5000
    ensures AllFitOnto(d, [m, n])
    ensures AddedAll(d, [m, n]).msg == Received(n).(bids := m.bids + n.bids, asks := m.asks + n.asks)
  {
    var one := Added(d, m);
    assert [m, n][1..] == [n] && [n][1..] == [] && [] + m.bids == m.bids && [] + m.asks == m.asks;
    assert AddedAll(one, [n]) == Added(one, n) && AllFitOnto(one, [n]);
    assert AddedAll(d, [m, n]) == Added(one, n);
  }

  /** Two events in one message come back as one. */
  lemma TwoEventsMerge(stream: string, m: DepthMessage, n: DepthMessage)
    requires C.NamesDepth(M.CutName(stream))
    requires |m.bids| + |n.bids| <= 5000 && |m.asks| + |n.asks| <= 5000
    ensures C.ParsedEvent(M.EnvelopeOf(stream, DepthObjects([m, n]))) ==
            Some(C.DepthUpdates(UpdatesOf(Received(n).(bids := m.bids + n.bids, asks := m.asks + n.asks))))
  {
    DepthEventsRoundTrip(stream, [m, n]);
    TwoAdded(M.NO_DRAFTS.depth, m, n);
  }

  // ---- Trades ----

  function TradeFields(price: string, quantity: string, isBuyerMaker: bool): seq<Member> {
    [Member("p", Str(price))] + ([Member("q", Str(quantity))] + ([Member("m", Bool(isBuyerMaker))] + []))
  }

  function TradeMembers(t: Trade): seq<Member> {
    [Member("e", Str("trade"))] + ([Member("E", Natural(t.eventTime))] +
    ([Member("s", Str(SymbolName(t.symbol)))] +
     TradeFields(Rendered(t.price, 8), Rendered(t.quantity, 8), t.isBuyerMaker)))
  }

  lemma TradeMeaningCons(d: M.TradeDraft, key: string, value: Json, rest: seq<Member>, d': M.TradeDraft)
    requires M.TradeScalar(value) && M.TradeField(d, key, value) == Some(d')
    ensures M.TradeMembersMeaning(d, [Member(key, value)] + rest) == M.TradeMembersMeaning(d', rest)
  {
    assert ([Member(key, value)] + rest)[1..] == rest;
  }

  lemma TradeFieldsParse(d: M.TradeDraft, t: Trade, p: string, q: string)
    requires Decimal(p, 8) == Some(t.price) && Decimal(q, 8) == Some(t.quantity)
    ensures M.TradeMembersMeaning(d, TradeFields(p, q, t.isBuyerMaker)) ==
            Some(M.TradeDraft(d.validEventType, true, true, true,
                   d.out.(price := t.price, quantity := t.quantity, isBuyerMaker := t.isBuyerMaker)))
  {
    var maker := [Member("m", Bool(t.isBuyerMaker))] + [];
    var d1 := d.(out := d.out.(price := t.price), havePrice := true);
    var d2 := d1.(out := d1.out.(quantity := t.quantity), haveQuantity := true);
    TradeMeaningCons(d, "p", Str(p), [Member("q", Str(q))] + maker, d1);
    TradeMeaningCons(d1, "q", Str(q), maker, d2);
    TradeMeaningCons(d2, "m", Bool(t.isBuyerMaker), [],
                     d2.(out := d2.out.(isBuyerMaker := t.isBuyerMaker), haveBuyerMaker := true));
  }

  /** What the parser makes of a trade; the stamps are the feeder's. */
  function ReceivedTrade(t: Trade): Trade {
    t.(eventTime := Micros(t.eventTime), feederRead := 0, feederWrite := 0)
  }

  lemma TradeDocumentParses(t: Trade)
    ensures M.TradeMeaning(M.EMPTY_DRAFT, TradeMembers(t)) == Some(M.TradeDraft(true, true, true, true, ReceivedTrade(t)))
  {
    var p, q := Rendered(t.price, 8), Rendered(t.quantity, 8);
    var fields := TradeFields(p, q, t.isBuyerMaker);
    var named := [Member("s", Str(SymbolName(t.symbol)))] + fields;
    var d1 := M.EMPTY_DRAFT.(validEventType := true);
    var d2 := d1.(out := d1.out.(eventTime := D.ToMicroseconds(t.eventTime)));
    var d3 := d2.(out := d2.out.(symbol := t.symbol));
    TradeMeaningCons(M.EMPTY_DRAFT, "e", Str("trade"), [Member("E", Natural(t.eventTime))] + named, d1);
    TradeMeaningCons(d1, "E", Natural(t.eventTime), named, d2);
    assert D.SymbolNamed(SymbolName(t.symbol)) == t.symbol;
    TradeMeaningCons(d2, "s", Str(SymbolName(t.symbol)), fields, d3);
    RenderedIsDecimal(t.price);
    RenderedIsDecimal(t.quantity);
    TradeFieldsParse(d3, t, p, q);
  }

  /** One trade under a trade name of any length, as far as the name is kept. */
  lemma TradeByName(stream: string, t: Trade)
    requires C.NamesTrade(M.CutName(stream))
    ensures C.ParsedEvent(M.EnvelopeOf(stream, [TradeMembers(t)])) == Some(C.TradeRecord(ReceivedTrade(t)))
  {
    var objects, name := [TradeMembers(t)], M.CutName(stream);
    C.StreamsByName(name);
    M.ParsedEventIsMeaning(M.EnvelopeOf(stream, objects));
    M.EnvelopeHolds(stream, objects);
    AllDataStream(name, objects);
    TradeDocumentParses(t);
    OneTradeIsHandled(name, t);
  }

  lemma OneTradeIsHandled(stream: string, t: Trade)
    requires !C.IsDepthStream(stream)
    requires M.TradeMeaning(M.EMPTY_DRAFT, TradeMembers(t)) == Some(M.TradeDraft(true, true, true, true, ReceivedTrade(t)))
    ensures var res := M.Handled(M.NO_DRAFTS, M.AllData(stream, [TradeMembers(t)]));
            res.Some? && res.value.trade.out == ReceivedTrade(t)
  {
    var objects := [TradeMembers(t)];
    assert objects[1..] == [];
    assert M.AllData(stream, objects) == [M.Data(stream, TradeMembers(t))];
    assert [M.Data(stream, TradeMembers(t))][1..] == [];
  }

  /** Every trade on a stream of the trade name comes back as it was sent. */
  lemma TradeRoundTrip(s: string, t: Trade)
    requires |s| + 6 <= 255
    ensures C.ParsedEvent(M.EnvelopeOf(s + "@trade", [TradeMembers(t)])) == Some(C.TradeRecord(ReceivedTrade(t)))
  {
    TradeByName(s + "@trade", t);
  }

  /** A message under any other name is refused, whatever its data objects hold. */
  lemma OtherNamesAreRefused(stream: string, objects: seq<seq<Member>>)
    requires objects != []
    requires !C.NamesDepth(M.CutName(stream)) && !C.NamesTrade(M.CutName(stream))
    ensures C.ParsedEvent(M.EnvelopeOf(stream, objects)) == None
  {
    M.ParsedEventIsMeaning(M.EnvelopeOf(stream, objects));
    M.EnvelopeHolds(stream, objects);
  }

  // ---- Snapshots ----

  function SnapshotMembers(id: u64, bids: seq<Row>, asks: seq<Row>): seq<Member> {
    [Member("lastUpdateId", Natural(id))] + ([Member("bids", Arr(LevelsJson(bids)))] +
    ([Member("asks", Arr(LevelsJson(asks)))] + []))
  }

  lemma SnapshotMeaningCons(d: S.Draft, key: string, value: Json, rest: seq<Member>, d': S.Draft)
    requires S.MemberMeaning(d, key, value) == Some(d')
    ensures S.MembersMeaning(d, [Member(key, value)] + rest) == S.MembersMeaning(d', rest)
  {
    assert ([Member(key, value)] + rest)[1..] == rest;
  }

  lemma FilledFromEmpty(rows: seq<Row>)
    ensures S.Filled(S.EMPTY_SIDE, rows, false).rows == rows[..Min(S.BOOK_DEPTH, |rows|)]
  {
    assert [] + rows == rows;
  }

  lemma SnapshotSidesParse(d: S.Draft, bids: seq<Row>, asks: seq<Row>)
    ensures S.MembersMeaning(d, [Member("bids", Arr(LevelsJson(bids)))] + ([Member("asks", Arr(LevelsJson(asks)))] + [])) ==
            Some(d.(bids := S.Filled(d.bids, bids, false), asks := S.Filled(d.asks, asks, false)))
  {
    LevelsParse(bids);
    LevelsParse(asks);
    var d' := d.(bids := S.Filled(d.bids, bids, false));
    SnapshotMeaningCons(d, "bids", Arr(LevelsJson(bids)), [Member("asks", Arr(LevelsJson(asks)))] + [], d');
    SnapshotMeaningCons(d', "asks", Arr(LevelsJson(asks)), [], d'.(asks := S.Filled(d.asks, asks, false)));
  }

  /** A snapshot comes back with the first levels of each side, up to the depth of the book. */
  lemma SnapshotRoundTrip(id: u64, bids: seq<Row>, asks: seq<Row>)
    ensures S.Meaning(Obj(SnapshotMembers(id, bids, asks))) ==
            Snapshot(id, bids[..Min(100, |bids|)], asks[..Min(100, |asks|)])
  {
    var d0 := S.Draft(0, S.EMPTY_SIDE, S.EMPTY_SIDE);
    var d1 := d0.(lastUpdateId := id);
    var sides := [Member("bids", Arr(LevelsJson(bids)))] + ([Member("asks", Arr(LevelsJson(asks)))] + []);
    SnapshotMeaningCons(d0, "lastUpdateId", Natural(id), sides, d1);
    SnapshotSidesParse(d1, bids, asks);
    FilledFromEmpty(bids);
    FilledFromEmpty(asks);
  }
}
