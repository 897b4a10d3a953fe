/** The combined-stream parser: routes one data object to the depth or the trade handler, by the
    suffix of the stream name that came before it. */
module CombinedHandler {
  import opened Words
  import opened PriceLevels
  import opened MarketData
  import opened Json
  import opened FixedDecimal
  import D = DepthHandler

  // ---- Trades ----

  datatype TradePending = TNone | TEventType | TEventTime | TSymbol | TPrice | TQuantity | TBuyerMaker

  datatype TradeState = TradeState(
    objectDepth: nat, pending: TradePending, validEventType: bool,
    havePrice: bool, haveQuantity: bool, haveBuyerMaker: bool, out: Trade)

  const EMPTY_TRADE := Trade(0, 0, 0, 0, 0, Unknown, false)

  const INITIAL_TRADE := TradeState(0, TNone, false, false, false, false, EMPTY_TRADE)

  function TradePendingFor(key: string): TradePending {
    match key
    case "e" => TEventType
    case "E" => TEventTime
    case "s" => TSymbol
    case "p" => TPrice
    case "q" => TQuantity
    case "m" => TBuyerMaker
    case _ => TNone
  }

  ghost function TradeString(t: TradeState, s: string): Option<TradeState> {
    var next := t.(pending := TNone);
    match t.pending
    case TEventType => if s == "trade" then Some(next.(validEventType := true)) else None
    case TSymbol => Some(next.(out := t.out.(symbol := D.SymbolNamed(s))))
    case TPrice =>
      (match Decimal(s, D.PRICE_SHIFT)
       case None => None
       case Some(v) => Some(next.(out := t.out.(price := v), havePrice := true)))
    case TQuantity =>
      (match Decimal(s, D.QUANTITY_SHIFT)
       case None => None
       case Some(v) => Some(next.(out := t.out.(quantity := v), haveQuantity := true)))
    case _ => Some(next)
  }

  function TradeNumber(t: TradeState, v: u64): TradeState {
    var next := t.(pending := TNone);
    if t.pending.TEventTime? then next.(out := t.out.(eventTime := D.ToMicroseconds(v))) else next
  }

  function TradeBool(t: TradeState, b: bool): TradeState {
    var next := t.(pending := TNone);
    if t.pending.TBuyerMaker? then next.(out := t.out.(isBuyerMaker := b), haveBuyerMaker := true) else next
  }

  predicate CompleteTrade(t: TradeState) {
    t.validEventType && t.havePrice && t.haveQuantity && t.haveBuyerMaker
  }

  /** Arrays are left to the reader library's base handler, which accepts them. */
  ghost function TradeStep(t: TradeState, e: Event): Option<TradeState> {
    match e
    case NullEvent => None
    case DoubleEvent => None
    case BoolEvent(b) => Some(TradeBool(t, b))
    case IntEvent(i) => Some(TradeNumber(t, AsWord(i)))
    case UintEvent(u) => Some(TradeNumber(t, u))
    case StringEvent(s) => TradeString(t, s)
    case StartObject => if t.objectDepth > 0 then None else Some(t.(objectDepth := 1))
    case Key(k) => if t.objectDepth != 1 then None else Some(t.(pending := TradePendingFor(k)))
    case EndObject => if t.objectDepth != 1 || !CompleteTrade(t) then None else Some(t.(objectDepth := 0))
    case StartArray => Some(t)
    case EndArray => Some(t)
  }

  // ---- The wrapper ----

  const MAX_STREAM_LENGTH: nat := 255

  predicate EndsWith(s: string, suffix: string) {
    |s| >= |suffix| && s[|s| - |suffix|..] == suffix
  }

  predicate IsDepthStream(stream: string) {
    |stream| >= 6 && (EndsWith(stream, "@depth@100ms") || EndsWith(stream, "@depth"))
  }

  predicate IsTradeStream(stream: string) {
    |stream| >= 6 && EndsWith(stream, "@trade")
  }

  /** The names of depth streams, and of trade streams. */
  ghost predicate NamesDepth(stream: string) {
    (exists s: string :: stream == s + "@depth@100ms") || exists s: string :: stream == s + "@depth"
  }

  ghost predicate NamesTrade(stream: string) {
    exists s: string :: stream == s + "@trade"
  }

  lemma EndsExactly(stream: string, suffix: string)
    ensures EndsWith(stream, suffix) <==> exists s: string :: stream == s + suffix
  {
    if EndsWith(stream, suffix) {
      assert stream == stream[..|stream| - |suffix|] + suffix;
    }
    forall s: string ensures EndsWith(s + suffix, suffix) {}
  }

  lemma LastOfSuffix(s: string, suffix: string)
    requires suffix != []
    ensures EndsWith(s, suffix) ==> s != [] && s[|s| - 1] == suffix[|suffix| - 1]
  {
    if EndsWith(s, suffix) {
      assert s[|s| - 1] == s[|s| - |suffix|..][|suffix| - 1];
    }
  }

  /** The suffix decides, and no name is both. */
  lemma StreamsByName(stream: string)
    ensures IsDepthStream(stream) <==> NamesDepth(stream)
    ensures IsTradeStream(stream) <==> NamesTrade(stream)
    ensures !(NamesDepth(stream) && NamesTrade(stream))
  {
    EndsExactly(stream, "@depth@100ms");
    EndsExactly(stream, "@depth");
    EndsExactly(stream, "@trade");
    LastOfSuffix(stream, "@depth@100ms");
    LastOfSuffix(stream, "@depth");
    LastOfSuffix(stream, "@trade");
  }

  datatype State = State(
    rootDepth: nat, pendingStream: bool, haveStream: bool, stream: string,
    expectData: bool, sawData: bool, inData: bool, dataIsDepth: bool,
    pendingRelease: bool, releaseIsDepth: bool, depth: D.State, trade: TradeState)

  const INITIAL :=
    State(0, false, false, [], false, false, false, false, false, false, D.INITIAL, INITIAL_TRADE)

  /** Handing the event to the handler of the current data object. */
  ghost function Delegate(c: State, e: Event): Option<State> {
    if c.dataIsDepth then
      match D.Step(c.depth, e)
      case None => None
      case Some(d) => Some(c.(depth := d))
    else
      match TradeStep(c.trade, e)
      case None => None
      case Some(t) => Some(c.(trade := t))
  }

  ghost function OnStartObject(c: State): Option<State> {
    if c.expectData then
      if !c.haveStream || (!IsDepthStream(c.stream) && !IsTradeStream(c.stream)) then None
      else Delegate(c.(expectData := false, sawData := true, inData := true, dataIsDepth := IsDepthStream(c.stream)),
                    StartObject)
    else if c.inData then None
    else Some(c.(rootDepth := c.rootDepth + 1))
  }

  ghost function OnEndObject(c: State): Option<State> {
    if c.inData then
      match Delegate(c, EndObject)
      case None => None
      case Some(c') => Some(c'.(pendingRelease := true, releaseIsDepth := c.dataIsDepth, inData := false))
    else Some(c.(rootDepth := if c.rootDepth > 0 then c.rootDepth - 1 else 0))
  }

  ghost function Step(c: State, e: Event): Option<State> {
    match e
    case NullEvent => None
    case DoubleEvent => None
    case BoolEvent(_) => if c.expectData || !c.inData || c.dataIsDepth then None else Delegate(c, e)
    case IntEvent(_) => if c.expectData || !c.inData then None else Delegate(c, e)
    case UintEvent(_) => if c.expectData || !c.inData then None else Delegate(c, e)
    case StringEvent(s) =>
      if c.expectData then None
      else if c.inData then Delegate(c, e)
      else if c.pendingStream then
        Some(c.(pendingStream := false, stream := s[..Min(|s|, MAX_STREAM_LENGTH)], haveStream := true))
      else Some(c)
    case StartObject => OnStartObject(c)
    case Key(k) =>
      if c.inData then Delegate(c, e)
      else if k == "stream" then Some(c.(pendingStream := true))
      else if k == "data" then Some(c.(expectData := true))
      else Some(c)
    case EndObject => OnEndObject(c)
    case StartArray => if c.expectData || !c.inData then None else Delegate(c, e)
    case EndArray => if c.inData then Delegate(c, e) else None
  }

  ghost function Run(c: State, es: seq<Event>): Option<State>
    decreases |es|
  {
    if es == [] then Some(c)
    else match Step(c, es[0])
         case None => None
         case Some(c') => Run(c', es[1..])
  }

  datatype Released = Nothing | DepthUpdates(updates: seq<OrderBookUpdate>) | TradeRecord(trade: Trade)

  /** Accepted documents and what they release; `None` when the document is rejected. */
  ghost function ParsedEvent(j: Json): Option<Released> {
    match Run(INITIAL, Events(j))
    case None => None
    case Some(c) =>
      if !c.haveStream || !c.sawData then None
      else if !c.pendingRelease then Some(Nothing)
      else if c.releaseIsDepth then Some(DepthUpdates(UpdatesOf(c.depth.msg)))
      else Some(TradeRecord(c.trade.out))
  }

  // ---- What every event keeps ----

  ghost predicate Inv(c: State) {
    && (c.sawData ==> c.haveStream)
    && (c.inData ==> c.sawData && !c.expectData)
    && (c.sawData && !c.inData ==> c.pendingRelease)
    && (c.pendingRelease && !c.inData ==>
          c.releaseIsDepth == c.dataIsDepth &&
          if c.releaseIsDepth then c.depth.validEventType && c.depth.objectDepth == 0
          else CompleteTrade(c.trade) && c.trade.objectDepth == 0)
  }

  lemma StepKeepsInv(c: State, e: Event)
    requires Inv(c) && Step(c, e).Some?
    ensures Inv(Step(c, e).value)
    ensures c.inData && !e.EndObject? ==>
              Step(c, e).value.inData && Step(c, e).value.dataIsDepth == c.dataIsDepth
    ensures !c.inData && (!e.StartObject? || !c.expectData) ==>
              !Step(c, e).value.inData
  {
    if c.inData {
      InsideKeepsInv(c, e);
    } else {
      OutsideKeepsInv(c, e);
    }
  }

  lemma InsideKeepsInv(c: State, e: Event)
    requires Inv(c) && c.inData && Step(c, e).Some?
    ensures Inv(Step(c, e).value)
    ensures !e.EndObject? ==> Step(c, e).value.inData && Step(c, e).value.dataIsDepth == c.dataIsDepth
  {
    assert !e.StartObject?;
    if !e.EndObject? {
      assert Step(c, e) == Delegate(c, e);
    }
  }

  lemma OutsideKeepsInv(c: State, e: Event)
    requires Inv(c) && !c.inData && Step(c, e).Some?
    ensures Inv(Step(c, e).value)
    ensures !e.StartObject? || !c.expectData ==> !Step(c, e).value.inData
  {}

  lemma {:induction false} RunAppend(c: State, xs: seq<Event>, ys: seq<Event>)
    ensures Run(c, xs + ys) == match Run(c, xs) case None => None case Some(c') => Run(c', ys)
    decreases |xs|
  {
    if xs == [] {
      assert xs + ys == ys;
    } else {
      assert (xs + ys)[1..] == xs[1..] + ys;
      if Step(c, xs[0]).Some? {
        RunAppend(Step(c, xs[0]).value, xs[1..], ys);
      }
    }
  }

  lemma RunOne(c: State, e: Event, rest: seq<Event>)
    ensures Run(c, [e] + rest) == match Step(c, e) case None => None case Some(c') => Run(c', rest)
  {
    assert ([e] + rest)[1..] == rest;
  }

  /** A whole value leaves the wrapper where it was: inside the data object or outside. */
  lemma {:induction false} ValueIsBalanced(c: State, j: Json)
    requires Inv(c) && Run(c, Events(j)).Some?
    ensures Inv(Run(c, Events(j)).value) && Run(c, Events(j)).value.inData == c.inData
    decreases j, 1
  {
    var e := Events(j)[0];
    assert Events(j) == [e] + Events(j)[1..];
    RunOne(c, e, Events(j)[1..]);
    StepKeepsInv(c, e);
    var c1 := Step(c, e).value;
    match j
    case Arr(items) =>
      RunAppend(c1, ItemEvents(items), [EndArray]);
      ItemsAreBalanced(c1, items);
      CloseOne(Run(c1, ItemEvents(items)).value, EndArray);
    case Obj(members) =>
      RunAppend(c1, MemberEvents(members), [EndObject]);
      MembersAreBalanced(c1, members);
      CloseOne(Run(c1, MemberEvents(members)).value, EndObject);
      assert !c.inData;
    case _ =>
  }

  lemma CloseOne(c: State, e: Event)
    requires Inv(c) && Run(c, [e]).Some?
    ensures Run(c, [e]) == Step(c, e) && Inv(Step(c, e).value)
    ensures e.EndObject? ==> !Step(c, e).value.inData
    ensures e.EndArray? ==> Step(c, e).value.inData == c.inData
  {
    assert [e] == [e] + [];
    RunOne(c, e, []);
    StepKeepsInv(c, e);
  }

  lemma {:induction false} ItemsAreBalanced(c: State, items: seq<Json>)
    requires Inv(c) && Run(c, ItemEvents(items)).Some?
    ensures Inv(Run(c, ItemEvents(items)).value) && Run(c, ItemEvents(items)).value.inData == c.inData
    decreases items, 0
  {
    if items != [] {
      RunAppend(c, Events(items[0]), ItemEvents(items[1..]));
      ValueIsBalanced(c, items[0]);
      ItemsAreBalanced(Run(c, Events(items[0])).value, items[1..]);
    }
  }

  lemma {:induction false} MembersAreBalanced(c: State, members: seq<Member>)
    requires Inv(c) && Run(c, MemberEvents(members)).Some?
    ensures Inv(Run(c, MemberEvents(members)).value) && Run(c, MemberEvents(members)).value.inData == c.inData
    decreases members, 0
  {
    if members != [] {
      var m := members[0];
      var rest := Events(m.value) + MemberEvents(members[1..]);
      RunOne(c, Key(m.key), rest);
      StepKeepsInv(c, Key(m.key));
      var c1 := Step(c, Key(m.key)).value;
      RunAppend(c1, Events(m.value), MemberEvents(members[1..]));
      ValueIsBalanced(c1, m.value);
      MembersAreBalanced(Run(c1, Events(m.value)).value, members[1..]);
    }
  }

  // ---- Inside a data object ----

  /** No object is closed before one is opened. */
  ghost predicate OpensFirst(es: seq<Event>)
    decreases |es|
  {
    es == [] || es[0].StartObject? || (!es[0].EndObject? && OpensFirst(es[1..]))
  }

  lemma {:induction false} OpensFirstAppend(xs: seq<Event>, ys: seq<Event>)
    requires OpensFirst(xs) && OpensFirst(ys)
    ensures OpensFirst(xs + ys)
    decreases |xs|
  {
    if xs == [] {
      assert xs + ys == ys;
    } else {
      assert (xs + ys)[1..] == xs[1..] + ys;
      if !xs[0].StartObject? {
        OpensFirstAppend(xs[1..], ys);
      }
    }
  }

  lemma {:induction false} ValueOpensFirst(j: Json)
    ensures OpensFirst(Events(j))
    decreases j, 1
  {
    if j.Arr? {
      ItemsOpenFirst(j.items);
      OpensFirstAppend(ItemEvents(j.items), [EndArray]);
      assert Events(j)[1..] == ItemEvents(j.items) + [EndArray];
    }
  }

  lemma {:induction false} ItemsOpenFirst(items: seq<Json>)
    ensures OpensFirst(ItemEvents(items))
    decreases items, 0
  {
    if items != [] {
      ValueOpensFirst(items[0]);
      ItemsOpenFirst(items[1..]);
      OpensFirstAppend(Events(items[0]), ItemEvents(items[1..]));
    }
  }

  lemma {:induction false} MembersOpenFirst(members: seq<Member>)
    ensures OpensFirst(MemberEvents(members))
    decreases members, 0
  {
    if members != [] {
      ValueOpensFirst(members[0].value);
      MembersOpenFirst(members[1..]);
      OpensFirstAppend(Events(members[0].value), MemberEvents(members[1..]));
      assert MemberEvents(members)[1..] == Events(members[0].value) + MemberEvents(members[1..]);
    }
  }

  /** Inside a depth data object the wrapper is transparent. */
  lemma {:induction false} DepthDataIsTransparent(c: State, es: seq<Event>)
    requires c.inData && c.dataIsDepth && !c.expectData && c.depth.objectDepth == 1 && OpensFirst(es)
    ensures Run(c, es) == match D.Run(c.depth, es) case None => None case Some(d) => Some(c.(depth := d))
    ensures D.Run(c.depth, es).Some? ==> D.Run(c.depth, es).value.objectDepth == 1
    decreases |es|
  {
    if es != [] && !es[0].StartObject? {
      DepthDataStep(c, es[0]);
      if D.Step(c.depth, es[0]).Some? {
        DepthDataIsTransparent(c.(depth := D.Step(c.depth, es[0]).value), es[1..]);
      }
    }
  }

  lemma DepthDataStep(c: State, e: Event)
    requires c.inData && c.dataIsDepth && !c.expectData && c.depth.objectDepth == 1
    requires !e.StartObject? && !e.EndObject?
    ensures Step(c, e) == Delegate(c, e)
    ensures D.Step(c.depth, e).Some? ==> D.Step(c.depth, e).value.objectDepth == 1
  {}

  /** Between documents or data objects: nothing is open in the depth handler. */
  predicate DepthIdle(st: D.State) {
    && st.objectDepth == 0 && st.arrayDepth == 0 && st.first == None
    && |st.msg.bids| <= D.MAX_LEVELS_PER_SIDE && |st.msg.asks| <= D.MAX_LEVELS_PER_SIDE
  }

  /** The wrapper's state where a data object has been announced by a usable stream name. */
  predicate AwaitsData(c: State) {
    c.expectData && !c.inData && c.haveStream && (IsDepthStream(c.stream) || IsTradeStream(c.stream))
  }

  /** The wrapper after a data object, apart from its handlers. */
  predicate DataRead(c: State, c': State, isDepth: bool) {
    && !c'.inData && !c'.expectData && c'.sawData && c'.pendingRelease && c'.releaseIsDepth == isDepth
    && c'.pendingStream == c.pendingStream && c'.haveStream && c'.stream == c.stream
  }

  /** A depth data object, from whatever the handler has buffered. */
  lemma DepthObjectThroughWrapper(c: State, members: seq<Member>)
    requires AwaitsData(c) && IsDepthStream(c.stream) && DepthIdle(c.depth)
    ensures var res := Run(c, Events(Obj(members)));
            match D.ObjectMeaning(D.Draft(c.depth.msg, c.depth.validEventType), members)
            case None => res == None
            case Some(d) =>
              res.Some? && DataRead(c, res.value, true) && res.value.trade == c.trade &&
              DepthIdle(res.value.depth) && res.value.depth.msg == d.msg && res.value.depth.validEventType
  {
    var body := MemberEvents(members);
    var open := Step(c, StartObject).value;
    var d1 := c.depth.(objectDepth := 1);
    assert open.depth == d1;
    RunOne(c, StartObject, body + [EndObject]);
    RunAppend(open, body, [EndObject]);
    MembersOpenFirst(members);
    DepthDataIsTransparent(open, body);
    D.ObjectRun(c.depth, members);
    D.RunOne(c.depth, StartObject, body + [EndObject]);
    D.RunAppend(d1, body, [EndObject]);
    if Run(open, body).Some? {
      var last := Run(open, body).value;
      assert [EndObject] == [EndObject] + [];
      RunOne(last, EndObject, []);
      D.RunOne(last.depth, EndObject, []);
    }
  }

  ghost function TradeRun(t: TradeState, es: seq<Event>): Option<TradeState>
    decreases |es|
  {
    if es == [] then Some(t)
    else match TradeStep(t, es[0])
         case None => None
         case Some(t') => TradeRun(t', es[1..])
  }

  /** Inside a trade data object the wrapper is transparent too. */
  lemma {:induction false} TradeDataIsTransparent(c: State, es: seq<Event>)
    requires c.inData && !c.dataIsDepth && !c.expectData && c.trade.objectDepth == 1 && OpensFirst(es)
    ensures Run(c, es) == match TradeRun(c.trade, es) case None => None case Some(t) => Some(c.(trade := t))
    ensures TradeRun(c.trade, es).Some? ==> TradeRun(c.trade, es).value.objectDepth == 1
    decreases |es|
  {
    if es != [] && !es[0].StartObject? {
      TradeDataStep(c, es[0]);
      if TradeStep(c.trade, es[0]).Some? {
        TradeDataIsTransparent(c.(trade := TradeStep(c.trade, es[0]).value), es[1..]);
      }
    }
  }

  lemma TradeDataStep(c: State, e: Event)
    requires c.inData && !c.dataIsDepth && !c.expectData && c.trade.objectDepth == 1
    requires !e.StartObject? && !e.EndObject?
    ensures Step(c, e) == Delegate(c, e)
    ensures TradeStep(c.trade, e).Some? ==> TradeStep(c.trade, e).value.objectDepth == 1
  {}
}
