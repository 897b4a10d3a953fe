/** What a message of the combined stream means, for every JSON document: the data objects it holds,
    each with the stream name in force, and what the handlers make of them in turn. */
module EventMeaning {
  import opened Words
  import opened PriceLevels
  import opened MarketData
  import opened Json
  import opened FixedDecimal
  import opened CombinedHandler
  import D = DepthHandler

  // ---- Trades ----

  datatype TradeDraft = TradeDraft(
    validEventType: bool, havePrice: bool, haveQuantity: bool, haveBuyerMaker: bool, out: Trade)

  const EMPTY_DRAFT := TradeDraft(false, false, false, false, EMPTY_TRADE)

  predicate TradeScalar(j: Json) {
    j.Str? || j.Natural? || j.Negative? || j.Bool?
  }

  /** Arrays may nest; objects, nulls and fractions may not occur. */
  predicate TradeShape(j: Json) {
    TradeScalar(j) || (j.Arr? && forall i :: 0 <= i < |j.items| ==> TradeShape(j.items[i]))
  }

  /** The first scalar in a value, in document order. */
  function FirstScalar(j: Json): Option<Json>
    decreases j, 1
  {
    if TradeScalar(j) then Some(j) else if j.Arr? then FirstInItems(j.items) else None
  }

  function FirstInItems(items: seq<Json>): Option<Json>
    decreases items, 0
  {
    if items == [] then None
    else match FirstScalar(items[0])
         case None => FirstInItems(items[1..])
         case Some(j) => Some(j)
  }

  /** What a scalar under a key adds to the trade; `None` when it spoils it. */
  ghost function TradeField(d: TradeDraft, key: string, j: Json): Option<TradeDraft> {
    match j
    case Str(s) =>
      if key == "e" then (if s == "trade" then Some(d.(validEventType := true)) else None)
      else if key == "s" then Some(d.(out := d.out.(symbol := D.SymbolNamed(s))))
      else if key == "p" then
        (match Decimal(s, D.PRICE_SHIFT)
         case None => None
         case Some(v) => Some(d.(out := d.out.(price := v), havePrice := true)))
      else if key == "q" then
        (match Decimal(s, D.QUANTITY_SHIFT)
         case None => None
         case Some(v) => Some(d.(out := d.out.(quantity := v), haveQuantity := true)))
      else Some(d)
    case Natural(u) => Some(if key == "E" then d.(out := d.out.(eventTime := D.ToMicroseconds(u))) else d)
    case Negative(i) => Some(if key == "E" then d.(out := d.out.(eventTime := D.ToMicroseconds(AsWord(i)))) else d)
    case Bool(b) => Some(if key == "m" then d.(out := d.out.(isBuyerMaker := b), haveBuyerMaker := true) else d)
    case _ => Some(d)
  }

  /** Only the first scalar of a member counts. */
  ghost function TradeMemberMeaning(d: TradeDraft, key: string, value: Json): Option<TradeDraft> {
    if !TradeShape(value) then None
    else match FirstScalar(value)
         case None => Some(d)
         case Some(j) => TradeField(d, key, j)
  }

  ghost function TradeMembersMeaning(d: TradeDraft, members: seq<Member>): Option<TradeDraft>
    decreases |members|
  {
    if members == [] then Some(d)
    else match TradeMemberMeaning(d, members[0].key, members[0].value)
         case None => None
         case Some(d') => TradeMembersMeaning(d', members[1..])
  }

  predicate Complete(d: TradeDraft) {
    d.validEventType && d.havePrice && d.haveQuantity && d.haveBuyerMaker
  }

  ghost function TradeMeaning(d: TradeDraft, members: seq<Member>): Option<TradeDraft> {
    match TradeMembersMeaning(d, members)
    case None => None
    case Some(d') => if Complete(d') then Some(d') else None
  }

  // ---- The envelope ----

  /** What the wrapper remembers outside data objects. */
  datatype Envelope = Envelope(pendingStream: bool, stream: Option<string>, expectData: bool)

  const START := Envelope(false, None, false)

  /** A data object and the stream name that was in force when it began. */
  datatype Data = Data(stream: string, members: seq<Member>)

  function Named(w: Envelope, key: string): Envelope {
    if key == "stream" then w.(pendingStream := true)
    else if key == "data" then w.(expectData := true)
    else w
  }

  /** The data objects of a value in document order; `None` when the envelope is refused. */
  function Walk(w: Envelope, j: Json): Option<(Envelope, seq<Data>)>
    decreases j, 1
  {
    match j
    case Str(s) =>
      if w.expectData then None
      else if w.pendingStream then Some((Envelope(false, Some(s[..Min(|s|, MAX_STREAM_LENGTH)]), false), []))
      else Some((w, []))
    case Obj(members) =>
      if !w.expectData then WalkMembers(w, members)
      else if w.stream.None? || !(IsDepthStream(w.stream.value) || IsTradeStream(w.stream.value)) then None
      else Some((w.(expectData := false), [Data(w.stream.value, members)]))
    case _ => None
  }

  function WalkMembers(w: Envelope, members: seq<Member>): Option<(Envelope, seq<Data>)>
    decreases members, 0
  {
    if members == [] then Some((w, []))
    else match Walk(Named(w, members[0].key), members[0].value)
         case None => None
         case Some((w', datas)) =>
           match WalkMembers(w', members[1..])
           case None => None
           case Some((w'', more)) => Some((w'', datas + more))
  }

  /** What both handlers hold. */
  datatype Drafts = Drafts(depth: D.Draft, trade: TradeDraft)

  const NO_DRAFTS := Drafts(D.Draft(D.EMPTY_MESSAGE, false), EMPTY_DRAFT)

  /** A data object goes to the handler that the suffix of its stream name chooses. */
  ghost function HandledOne(d: Drafts, data: Data): Option<Drafts> {
    if IsDepthStream(data.stream) then
      match D.ObjectMeaning(d.depth, data.members)
      case None => None
      case Some(depth) => Some(d.(depth := depth))
    else
      match TradeMeaning(d.trade, data.members)
      case None => None
      case Some(trade) => Some(d.(trade := trade))
  }

  /** The handlers are not reset between the data objects of one message. */
  ghost function Handled(d: Drafts, datas: seq<Data>): Option<Drafts>
    decreases |datas|
  {
    if datas == [] then Some(d)
    else match HandledOne(d, datas[0])
         case None => None
         case Some(d') => Handled(d', datas[1..])
  }

  function LastStream(datas: seq<Data>): string
    requires datas != []
  {
    datas[|datas| - 1].stream
  }

  /** The data objects of a document, if its envelope is accepted. */
  function DataObjects(j: Json): Option<seq<Data>> {
    match Walk(START, j)
    case None => None
    case Some((_, datas)) => Some(datas)
  }

  /** What a message releases; `None` when it is rejected. The last data object decides which. */
  ghost function EventMeaning(j: Json): Option<Released> {
    match DataObjects(j)
    case None => None
    case Some(datas) =>
      if datas == [] then None
      else match Handled(NO_DRAFTS, datas)
           case None => None
           case Some(d) =>
             Some(if IsDepthStream(LastStream(datas)) then DepthUpdates(UpdatesOf(d.depth.msg))
                  else TradeRecord(d.trade.out))
  }

  // ---- The trade machine computes its meaning ----

  lemma {:induction false} TradeRunAppend(t: TradeState, xs: seq<Event>, ys: seq<Event>)
    ensures TradeRun(t, xs + ys) == match TradeRun(t, xs) case None => None case Some(t') => TradeRun(t', ys)
    decreases |xs|
  {
    if xs == [] {
      assert xs + ys == ys;
    } else {
      assert (xs + ys)[1..] == xs[1..] + ys;
      if TradeStep(t, xs[0]).Some? {
        TradeRunAppend(TradeStep(t, xs[0]).value, xs[1..], ys);
      }
    }
  }

  lemma TradeRunOne(t: TradeState, e: Event, rest: seq<Event>)
    ensures TradeRun(t, [e] + rest) == match TradeStep(t, e) case None => None case Some(t') => TradeRun(t', rest)
  {
    assert ([e] + rest)[1..] == rest;
  }

  lemma TradeRunSingle(t: TradeState, e: Event)
    ensures TradeRun(t, [e]) == TradeStep(t, e)
  {
    assert [e] == [e] + [];
    TradeRunOne(t, e, []);
  }

  /** The effect of the first scalar, as the machine takes it. */
  ghost function AfterFirst(t: TradeState, first: Option<Json>): Option<TradeState> {
    match first
    case None => Some(t)
    case Some(j) => TradeStep(t, Events(j)[0])
  }

  lemma FirstIsScalar(j: Json)
    ensures FirstScalar(j).Some? ==> TradeScalar(FirstScalar(j).value)
    decreases j, 1
  {
    if j.Arr? {
      FirstInItemsIsScalar(j.items);
    }
  }

  lemma FirstInItemsIsScalar(items: seq<Json>)
    ensures FirstInItems(items).Some? ==> TradeScalar(FirstInItems(items).value)
    decreases items, 0
  {
    if items != [] {
      FirstIsScalar(items[0]);
      FirstInItemsIsScalar(items[1..]);
    }
  }

  /** Once a scalar has been taken nothing is pending, and the rest of the member is ignored. */
  lemma ScalarStep(t: TradeState, j: Json)
    requires t.objectDepth == 1 && TradeScalar(j)
    ensures var res := TradeStep(t, Events(j)[0]);
            && (res.Some? ==> res.value.objectDepth == 1 && res.value.pending.TNone?)
            && (t.pending.TNone? ==> res == Some(t))
  {
    D.FirstEventOf(j);
    assert t.pending.TNone? ==> t.(pending := TNone) == t;
  }

  lemma {:induction false} TradeValueRun(t: TradeState, j: Json)
    requires t.objectDepth == 1
    ensures TradeRun(t, Events(j)) == if TradeShape(j) then AfterFirst(t, FirstScalar(j)) else None
    decreases j, 1
  {
    var e := Events(j)[0];
    D.FirstEventOf(j);
    if j.Arr? {
      TradeRunOne(t, StartArray, ItemEvents(j.items) + [EndArray]);
      TradeItemsRun(t, j.items);
      TradeRunAppend(t, ItemEvents(j.items), [EndArray]);
      if TradeRun(t, ItemEvents(j.items)).Some? {
        TradeRunSingle(TradeRun(t, ItemEvents(j.items)).value, EndArray);
      }
    } else {
      assert Events(j) == [e] + Events(j)[1..];
      TradeRunOne(t, e, Events(j)[1..]);
    }
  }

  predicate TradeShapes(items: seq<Json>) {
    forall i :: 0 <= i < |items| ==> TradeShape(items[i])
  }

  lemma TradeShapesUnfold(items: seq<Json>)
    requires items != []
    ensures TradeShapes(items) <==> TradeShape(items[0]) && TradeShapes(items[1..])
  {
    if TradeShape(items[0]) && TradeShapes(items[1..]) {
      forall i | 0 <= i < |items| ensures TradeShape(items[i]) {
        assert i > 0 ==> items[i] == items[1..][i - 1];
      }
    }
  }

  lemma {:induction false} TradeItemsRun(t: TradeState, items: seq<Json>)
    requires t.objectDepth == 1
    ensures TradeRun(t, ItemEvents(items)) == if TradeShapes(items) then AfterFirst(t, FirstInItems(items)) else None
    decreases items, 0
  {
    if items != [] {
      TradeShapesUnfold(items);
      TradeRunAppend(t, Events(items[0]), ItemEvents(items[1..]));
      TradeValueRun(t, items[0]);
      FirstIsScalar(items[0]);
      FirstInItemsIsScalar(items[1..]);
      match FirstScalar(items[0])
      case None =>
        TradeItemsRun(t, items[1..]);
      case Some(first) =>
        ScalarStep(t, first);
        if TradeStep(t, Events(first)[0]).Some? {
          var taken := TradeStep(t, Events(first)[0]).value;
          TradeItemsRun(taken, items[1..]);
          IdleIgnores(taken, FirstInItems(items[1..]));
        }
    }
  }

  lemma IdleIgnores(t: TradeState, first: Option<Json>)
    requires t.objectDepth == 1 && t.pending.TNone? && (first.Some? ==> TradeScalar(first.value))
    ensures AfterFirst(t, first) == Some(t)
  {
    if first.Some? {
      ScalarStep(t, first.value);
    }
  }

  function DraftOf(t: TradeState): TradeDraft {
    TradeDraft(t.validEventType, t.havePrice, t.haveQuantity, t.haveBuyerMaker, t.out)
  }

  /** A string under its key. */
  lemma StringFieldStep(t: TradeState, key: string, s: string)
    requires t.objectDepth == 1
    ensures var res := TradeString(t.(pending := TradePendingFor(key)), s);
            match TradeField(DraftOf(t), key, Str(s))
            case None => res == None
            case Some(d) => res.Some? && res.value.objectDepth == 1 && DraftOf(res.value) == d
  {
    match TradePendingFor(key)
    case TEventType => assert key == "e";
    case TSymbol => assert key == "s";
    case TPrice => assert key == "p";
    case TQuantity => assert key == "q";
    case _ => assert key != "e" && key != "s" && key != "p" && key != "q";
  }

  /** A scalar under its key. */
  lemma FieldStep(t: TradeState, key: string, j: Json)
    requires t.objectDepth == 1 && TradeScalar(j)
    ensures var res := TradeStep(t.(pending := TradePendingFor(key)), Events(j)[0]);
            match TradeField(DraftOf(t), key, j)
            case None => res == None
            case Some(d) => res.Some? && res.value.objectDepth == 1 && DraftOf(res.value) == d
  {
    D.FirstEventOf(j);
    if j.Str? {
      StringFieldStep(t, key, j.s);
    }
  }

  lemma TradeMemberRun(t: TradeState, key: string, value: Json)
    requires t.objectDepth == 1
    ensures var res := TradeRun(t.(pending := TradePendingFor(key)), Events(value));
            match TradeMemberMeaning(DraftOf(t), key, value)
            case None => res == None
            case Some(d) => res.Some? && res.value.objectDepth == 1 && DraftOf(res.value) == d
  {
    TradeValueRun(t.(pending := TradePendingFor(key)), value);
    FirstIsScalar(value);
    if FirstScalar(value).Some? {
      FieldStep(t, key, FirstScalar(value).value);
    }
  }

  lemma {:induction false} TradeMembersRun(t: TradeState, members: seq<Member>)
    requires t.objectDepth == 1
    ensures var res := TradeRun(t, MemberEvents(members));
            match TradeMembersMeaning(DraftOf(t), members)
            case None => res == None
            case Some(d) => res.Some? && res.value.objectDepth == 1 && DraftOf(res.value) == d
    decreases |members|
  {
    if members != [] {
      var key, value, rest := members[0].key, members[0].value, MemberEvents(members[1..]);
      var named := t.(pending := TradePendingFor(key));
      TradeRunOne(t, Key(key), Events(value) + rest);
      TradeRunAppend(named, Events(value), rest);
      TradeMemberRun(t, key, value);
      if TradeRun(named, Events(value)).Some? {
        TradeMembersRun(TradeRun(named, Events(value)).value, members[1..]);
      }
    }
  }

  /** A trade data object, from whatever the handler holds. */
  lemma TradeObjectThroughWrapper(c: State, members: seq<Member>)
    requires AwaitsData(c) && !IsDepthStream(c.stream) && c.trade.objectDepth == 0
    ensures var res := Run(c, Events(Obj(members)));
            match TradeMeaning(DraftOf(c.trade), members)
            case None => res == None
            case Some(d) =>
              res.Some? && DataRead(c, res.value, false) && res.value.depth == c.depth &&
              res.value.trade.objectDepth == 0 && DraftOf(res.value.trade) == d
  {
    var open := c.(expectData := false, sawData := true, inData := true, dataIsDepth := false,
                   trade := c.trade.(objectDepth := 1));
    assert Step(c, StartObject) == Some(open);
    RunOne(c, StartObject, MemberEvents(members) + [EndObject]);
    TradeBodyRun(open, members);
  }

  lemma TradeBodyRun(c: State, members: seq<Member>)
    requires c.inData && !c.dataIsDepth && !c.expectData && c.trade.objectDepth == 1
    ensures var res := Run(c, MemberEvents(members) + [EndObject]);
            match TradeMeaning(DraftOf(c.trade), members)
            case None => res == None
            case Some(d) =>
              res.Some? && res.value.trade.objectDepth == 0 && DraftOf(res.value.trade) == d &&
              res.value == c.(trade := res.value.trade, pendingRelease := true, releaseIsDepth := false, inData := false)
  {
    var body := MemberEvents(members);
    RunAppend(c, body, [EndObject]);
    MembersOpenFirst(members);
    TradeDataIsTransparent(c, body);
    TradeMembersRun(c.trade, members);
    if TradeRun(c.trade, body).Some? {
      EndTradeObject(c.(trade := TradeRun(c.trade, body).value));
    }
  }

  lemma EndTradeObject(c: State)
    requires c.inData && !c.dataIsDepth && c.trade.objectDepth == 1
    ensures Run(c, [EndObject]) ==
            if !Complete(DraftOf(c.trade)) then None
            else Some(c.(trade := c.trade.(objectDepth := 0), pendingRelease := true, releaseIsDepth := false, inData := false))
  {
    assert [EndObject] == [EndObject] + [];
    RunOne(c, EndObject, []);
  }

  // ---- The wrapper computes the meaning ----

  /** Outside data objects the wrapper's state is an envelope and what the handlers hold. */
  predicate Outside(c: State, w: Envelope, d: Drafts) {
    && !c.inData && c.pendingStream == w.pendingStream && c.expectData == w.expectData
    && c.haveStream == w.stream.Some? && (c.haveStream ==> c.stream == w.stream.value)
    && DepthIdle(c.depth) && d.depth == D.Draft(c.depth.msg, c.depth.validEventType)
    && c.trade.objectDepth == 0 && d.trade == DraftOf(c.trade)
  }

  /** Which release is due after these data objects. */
  predicate Due(c: State, c': State, datas: seq<Data>) {
    if datas == [] then
      c'.sawData == c.sawData && c'.pendingRelease == c.pendingRelease && c'.releaseIsDepth == c.releaseIsDepth
    else c'.sawData && c'.pendingRelease && c'.releaseIsDepth == IsDepthStream(LastStream(datas))
  }

  /** The machine agrees with a walk. */
  ghost predicate Agrees(c: State, d: Drafts, res: Option<State>, walk: Option<(Envelope, seq<Data>)>) {
    match walk
    case None => res == None
    case Some((w, datas)) =>
      match Handled(d, datas)
      case None => res == None
      case Some(d') => res.Some? && Outside(res.value, w, d') && Due(c, res.value, datas)
  }

  lemma DataObjectRun(c: State, w: Envelope, d: Drafts, members: seq<Member>)
    requires Outside(c, w, d) && w.expectData
    ensures Agrees(c, d, Run(c, Events(Obj(members))), Walk(w, Obj(members)))
  {
    if AwaitsData(c) {
      var data := Data(c.stream, members);
      assert [data][1..] == [];
      assert Handled(d, [data]) == HandledOne(d, data);
      if IsDepthStream(c.stream) {
        DepthObjectThroughWrapper(c, members);
      } else {
        TradeObjectThroughWrapper(c, members);
      }
    } else {
      RunOne(c, StartObject, MemberEvents(members) + [EndObject]);
    }
  }

  lemma {:induction false} HandledAppend(d: Drafts, xs: seq<Data>, ys: seq<Data>)
    ensures Handled(d, xs + ys) == match Handled(d, xs) case None => None case Some(d') => Handled(d', ys)
    decreases |xs|
  {
    if xs == [] {
      assert xs + ys == ys;
    } else {
      assert (xs + ys)[1..] == xs[1..] + ys;
      if HandledOne(d, xs[0]).Some? {
        HandledAppend(HandledOne(d, xs[0]).value, xs[1..], ys);
      }
    }
  }

  lemma {:induction false} ValueRun(c: State, w: Envelope, d: Drafts, j: Json)
    requires Outside(c, w, d)
    ensures Agrees(c, d, Run(c, Events(j)), Walk(w, j))
    decreases j, 1
  {
    if j.Obj? && w.expectData {
      DataObjectRun(c, w, d, j.members);
    } else if j.Obj? {
      ObjectRun(c, w, d, j.members);
    } else {
      D.FirstEventOf(j);
      assert Events(j) == [Events(j)[0]] + Events(j)[1..];
      RunOne(c, Events(j)[0], Events(j)[1..]);
    }
  }

  lemma {:induction false} ObjectRun(c: State, w: Envelope, d: Drafts, members: seq<Member>)
    requires Outside(c, w, d) && !w.expectData
    ensures Agrees(c, d, Run(c, Events(Obj(members))), Walk(w, Obj(members)))
    decreases members, 1
  {
    var open := c.(rootDepth := c.rootDepth + 1);
    RunOne(c, StartObject, MemberEvents(members) + [EndObject]);
    assert Step(c, StartObject) == Some(open);
    RunAppend(open, MemberEvents(members), [EndObject]);
    MembersRun(open, w, d, members);
    if Run(open, MemberEvents(members)).Some? {
      EndPlainObject(Run(open, MemberEvents(members)).value);
    }
  }

  /** The end of an object outside data objects. */
  lemma EndPlainObject(c: State)
    requires !c.inData
    ensures Run(c, [EndObject]) == Some(c.(rootDepth := if c.rootDepth > 0 then c.rootDepth - 1 else 0))
  {
    assert [EndObject] == [EndObject] + [];
    RunOne(c, EndObject, []);
  }

  lemma KeyStep(c: State, w: Envelope, d: Drafts, key: string)
    requires Outside(c, w, d)
    ensures Step(c, Key(key)).Some? && Outside(Step(c, Key(key)).value, Named(w, key), d)
    ensures Due(c, Step(c, Key(key)).value, [])
  {
    var c' := if key == "stream" then c.(pendingStream := true) else if key == "data" then c.(expectData := true) else c;
    assert Step(c, Key(key)) == Some(c');
  }

  /** Two walks in a row. */
  lemma AgreesTwice(c: State, d: Drafts, c1: State, d1: Drafts, res: Option<State>, datas: seq<Data>, w: Envelope, more: seq<Data>)
    requires Handled(d, datas) == Some(d1) && Due(c, c1, datas)
    requires Agrees(c1, d1, res, Some((w, more)))
    ensures Agrees(c, d, res, Some((w, datas + more)))
  {
    HandledAppend(d, datas, more);
    if more == [] {
      assert datas + more == datas;
    } else {
      assert LastStream(datas + more) == LastStream(more);
    }
  }

  lemma {:induction false} MembersRun(c: State, w: Envelope, d: Drafts, members: seq<Member>)
    requires Outside(c, w, d)
    ensures Agrees(c, d, Run(c, MemberEvents(members)), WalkMembers(w, members))
    decreases members, 0
  {
    if members != [] {
      var key, value, rest := members[0].key, members[0].value, members[1..];
      var w1, named := Named(w, key), Step(c, Key(key)).value;
      KeyStep(c, w, d, key);
      RunOne(c, Key(key), Events(value) + MemberEvents(rest));
      RunAppend(named, Events(value), MemberEvents(rest));
      ValueRun(named, w1, d, value);
      if Walk(w1, value).Some? {
        var (w2, datas) := Walk(w1, value).value;
        RestOfMembers(c, named, d, Run(named, Events(value)), w2, datas, rest);
      }
    }
  }

  lemma {:induction false} RestOfMembers(c: State, named: State, d: Drafts, mid: Option<State>, w: Envelope, datas: seq<Data>, rest: seq<Member>)
    requires Due(c, named, []) && Agrees(named, d, mid, Some((w, datas)))
    ensures Agrees(c, d, if mid.None? then None else Run(mid.value, MemberEvents(rest)),
                   match WalkMembers(w, rest) case None => None case Some((w', more)) => Some((w', datas + more)))
    decreases rest, 1
  {
    if mid.Some? {
      var d1 := Handled(d, datas).value;
      MembersRun(mid.value, w, d1, rest);
      if WalkMembers(w, rest).Some? {
        var (w', more) := WalkMembers(w, rest).value;
        AgreesTwice(c, d, mid.value, d1, Run(mid.value, MemberEvents(rest)), datas, w', more);
      }
    } else if WalkMembers(w, rest).Some? {
      HandledAppend(d, datas, WalkMembers(w, rest).value.1);
    }
  }

  /** For every document: the wrapper accepts exactly what has a meaning, and releases it. */
  lemma ParsedEventIsMeaning(j: Json)
    ensures ParsedEvent(j) == EventMeaning(j)
  {
    ValueRun(INITIAL, START, NO_DRAFTS, j);
    if Run(INITIAL, Events(j)).Some? {
      ValueIsBalanced(INITIAL, j);
    }
  }

  // ---- Routing ----

  ghost predicate Routable(stream: string) {
    |stream| <= 255 && (NamesDepth(stream) || NamesTrade(stream))
  }

  ghost predicate AllRoutable(datas: seq<Data>) {
    forall i :: 0 <= i < |datas| ==> Routable(datas[i].stream)
  }

  predicate ShortStream(w: Envelope) {
    w.stream.Some? ==> |w.stream.value| <= MAX_STREAM_LENGTH
  }

  lemma {:induction false} WalkIsRoutable(w: Envelope, j: Json)
    requires ShortStream(w) && Walk(w, j).Some?
    ensures ShortStream(Walk(w, j).value.0) && AllRoutable(Walk(w, j).value.1)
    decreases j, 1
  {
    if w.stream.Some? {
      StreamsByName(w.stream.value);
    }
    if j.Obj? && !w.expectData {
      WalkMembersIsRoutable(w, j.members);
    }
  }

  lemma {:induction false} WalkMembersIsRoutable(w: Envelope, members: seq<Member>)
    requires ShortStream(w) && WalkMembers(w, members).Some?
    ensures ShortStream(WalkMembers(w, members).value.0) && AllRoutable(WalkMembers(w, members).value.1)
    decreases members, 0
  {
    if members != [] {
      var w1 := Named(w, members[0].key);
      WalkIsRoutable(w1, members[0].value);
      WalkMembersIsRoutable(Walk(w1, members[0].value).value.0, members[1..]);
    }
  }

  lemma {:induction false} HandledIsValid(d: Drafts, datas: seq<Data>)
    requires datas != [] && Handled(d, datas).Some?
    ensures var d' := Handled(d, datas).value;
            if IsDepthStream(LastStream(datas)) then d'.depth.validEventType else Complete(d'.trade)
    decreases |datas|
  {
    if |datas| > 1 {
      HandledIsValid(HandledOne(d, datas[0]).value, datas[1..]);
    } else {
      assert datas[1..] == [];
    }
  }

  /** Every accepted message holds data objects, each after a stream name that a handler is known
      for, all ended as valid; and it releases to exactly one handler, the one that the suffix of
      the last data object's name chooses. */
  lemma AcceptedIsRouted(j: Json) returns (datas: seq<Data>)
    requires ParsedEvent(j).Some?
    ensures DataObjects(j) == Some(datas) && datas != [] && AllRoutable(datas)
    ensures Handled(NO_DRAFTS, datas).Some?
    ensures ParsedEvent(j).value == (
              var d := Handled(NO_DRAFTS, datas).value;
              if NamesDepth(LastStream(datas)) then DepthUpdates(UpdatesOf(d.depth.msg)) else TradeRecord(d.trade.out))
    ensures var d := Handled(NO_DRAFTS, datas).value;
            if NamesDepth(LastStream(datas)) then d.depth.validEventType else Complete(d.trade)
  {
    ParsedEventIsMeaning(j);
    datas := DataObjects(j).value;
    StreamsByName(LastStream(datas));
    WalkIsRoutable(START, j);
    HandledIsValid(NO_DRAFTS, datas);
  }

  // ---- The usual envelope: a stream name, then data objects ----

  function DataMembers(objects: seq<seq<Member>>): seq<Member> {
    if objects == [] then [] else [Member("data", Obj(objects[0]))] + DataMembers(objects[1..])
  }

  function EnvelopeOf(stream: string, objects: seq<seq<Member>>): Json {
    Obj([Member("stream", Str(stream))] + DataMembers(objects))
  }

  function AllData(stream: string, objects: seq<seq<Member>>): seq<Data> {
    if objects == [] then [] else [Data(stream, objects[0])] + AllData(stream, objects[1..])
  }

  lemma {:induction false} DataMembersWalk(stream: string, objects: seq<seq<Member>>)
    requires Routable(stream)
    ensures WalkMembers(Envelope(false, Some(stream), false), DataMembers(objects))
            == Some((Envelope(false, Some(stream), false), AllData(stream, objects)))
    decreases |objects|
  {
    StreamsByName(stream);
    if objects != [] {
      assert DataMembers(objects)[1..] == DataMembers(objects[1..]);
      DataMembersWalk(stream, objects[1..]);
    }
  }

  /** What the wrapper keeps of a stream name. */
  function CutName(stream: string): (name: string)
    ensures |name| <= 255 && name <= stream && (name == stream || |name| == 255)
  {
    stream[..Min(|stream|, MAX_STREAM_LENGTH)]
  }

  /** For a name of any length: the name that is kept decides whether there are data objects. */
  lemma EnvelopeHolds(stream: string, objects: seq<seq<Member>>)
    requires objects != []
    ensures DataObjects(EnvelopeOf(stream, objects)) ==
            if Routable(CutName(stream)) then Some(AllData(CutName(stream), objects)) else None
  {
    var members := [Member("stream", Str(stream))] + DataMembers(objects);
    var name := CutName(stream);
    var named := Envelope(false, Some(name), false);
    assert members[1..] == DataMembers(objects);
    assert Walk(Named(START, "stream"), Str(stream)) == Some((named, []));
    if Routable(name) {
      DataMembersWalk(name, objects);
      assert [] + AllData(name, objects) == AllData(name, objects);
      assert WalkMembers(START, members) == Some((named, AllData(name, objects)));
    } else {
      UnroutableWalk(name, objects);
      assert WalkMembers(START, members) == None;
    }
  }

  lemma UnroutableWalk(stream: string, objects: seq<seq<Member>>)
    requires |stream| <= 255 && !Routable(stream) && objects != []
    ensures WalkMembers(Envelope(false, Some(stream), false), DataMembers(objects)) == None
  {
    StreamsByName(stream);
    assert DataMembers(objects)[0] == Member("data", Obj(objects[0]));
  }
}
