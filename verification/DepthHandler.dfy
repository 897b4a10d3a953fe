/** The depth-event parser: a state machine over reader events that buffers levels and releases
    them all or not at all. */
module DepthHandler {
  import opened Words
  import opened PriceLevels
  import opened MarketData
  import opened Json
  import opened FixedDecimal

  const MAX_LEVELS_PER_SIDE: nat := 5000
  const MAX_PRICE_LENGTH: nat := 95
  const PRICE_SHIFT: nat := 8
  const QUANTITY_SHIFT: nat := 8

  datatype Pending = PNone | PEventType | PEventTime | PSymbol | PFirstUpdateId | PLastUpdateId | PBids | PAsks

  function PendingFor(key: string): Pending {
    match key
    case "e" => PEventType
    case "E" => PEventTime
    case "s" => PSymbol
    case "U" => PFirstUpdateId
    case "u" => PLastUpdateId
    case "b" => PBids
    case "a" => PAsks
    case _ => PNone
  }

  function SymbolNamed(s: string): Symbol {
    if s == "BTCUSDT" then BtcUsdt else if s == "ETHUSDT" then EthUsdt else Unknown
  }

  /** Event times come in milliseconds or microseconds. */
  function ToMicroseconds(raw: u64): u64 {
    if raw >= 1_000_000_000_000_000 then raw else raw * 1000
  }

  /** The handler's state. `first` is the row buffer while it holds the row's first string. */
  datatype State = State(
    objectDepth: nat, arrayDepth: nat, pending: Pending, validEventType: bool,
    sideIsBid: bool, stop: bool, first: Option<string>, msg: DepthMessage)

  const EMPTY_MESSAGE := DepthMessage(0, 0, 0, Unknown, [], [])

  const INITIAL := State(0, 0, PNone, false, false, false, None, EMPTY_MESSAGE)

  function SideRows(m: DepthMessage, isBid: bool): seq<Row> {
    if isBid then m.bids else m.asks
  }

  function AddRows(m: DepthMessage, isBid: bool, rows: seq<Row>): DepthMessage {
    if isBid then m.(bids := m.bids + rows) else m.(asks := m.asks + rows)
  }

  ghost function RowString(st: State, s: string): Option<State> {
    if st.stop then Some(st)
    else match st.first
         case None =>
           if |s| > MAX_PRICE_LENGTH then Some(st.(stop := true)) else Some(st.(first := Some(s)))
         case Some(p) =>
           match (Decimal(p, PRICE_SHIFT), Decimal(s, QUANTITY_SHIFT))
           case (Some(price), Some(quantity)) =>
             if |SideRows(st.msg, st.sideIsBid)| >= MAX_LEVELS_PER_SIDE then None
             else Some(st.(first := None, msg := AddRows(st.msg, st.sideIsBid, [Row(price, quantity)])))
           case _ => Some(st.(first := None, stop := true))
  }

  ghost function OnString(st: State, s: string): Option<State> {
    if st.arrayDepth == 2 then RowString(st, s)
    else
      var next := st.(pending := PNone);
      match st.pending
      case PEventType => if s == "depthUpdate" then Some(next.(validEventType := true)) else None
      case PSymbol => Some(next.(msg := st.msg.(symbol := SymbolNamed(s))))
      case _ => Some(next)
  }

  function OnNumber(st: State, v: u64): State {
    var next := st.(pending := PNone);
    match st.pending
    case PEventTime => next.(msg := st.msg.(eventTime := ToMicroseconds(v)))
    case PFirstUpdateId => next.(msg := st.msg.(firstId := v))
    case PLastUpdateId => next.(msg := st.msg.(lastId := v))
    case _ => next
  }

  function OnStartArray(st: State): Option<State> {
    if st.arrayDepth == 0 then
      if st.pending.PBids? || st.pending.PAsks?
      then Some(st.(pending := PNone, sideIsBid := st.pending.PBids?, stop := false, arrayDepth := 1))
      else None
    else if st.arrayDepth == 1 then Some(st.(arrayDepth := 2, first := None))
    else None
  }

  /** A row that ends with a price still buffered had an odd number of strings. */
  function OnEndArray(st: State): Option<State> {
    if st.arrayDepth == 2 then Some(st.(stop := st.stop || st.first.Some?, first := None, arrayDepth := 1))
    else if st.arrayDepth == 1 then Some(st.(arrayDepth := 0))
    else None
  }

  /** One event; `None` when the handler tells the reader to stop. */
  ghost function Step(st: State, e: Event): Option<State> {
    match e
    case NullEvent => None
    case BoolEvent(_) => None
    case DoubleEvent => None
    case IntEvent(i) => Some(OnNumber(st, AsWord(i)))
    case UintEvent(u) => Some(OnNumber(st, u))
    case StringEvent(s) => OnString(st, s)
    case StartObject => if st.objectDepth > 0 then None else Some(st.(objectDepth := 1))
    case Key(k) =>
      if st.objectDepth != 1 || st.arrayDepth != 0 then None else Some(st.(pending := PendingFor(k)))
    case EndObject =>
      if st.objectDepth != 1 || !st.validEventType then None else Some(st.(objectDepth := 0))
    case StartArray => OnStartArray(st)
    case EndArray => OnEndArray(st)
  }

  ghost function Run(st: State, es: seq<Event>): Option<State>
    decreases |es|
  {
    if es == [] then Some(st)
    else match Step(st, es[0])
         case None => None
         case Some(st') => Run(st', es[1..])
  }

  // ---- What a message means, read off the JSON value ----

  /** Strings of a row; numbers between them are ignored. */
  function RowStrings(items: seq<Json>): seq<string> {
    if items == [] then []
    else (if items[0].Str? then [items[0].s] else []) + RowStrings(items[1..])
  }

  /** The levels of a row, price and quantity in turn, up to the first bad one: too long, not a
      number, or without its quantity. The flag tells whether there was a bad one. */
  ghost function RowLevels(ss: seq<string>): (r: (seq<Row>, bool)) {
    if ss == [] then ([], false)
    else if |ss[0]| > MAX_PRICE_LENGTH || |ss| == 1 then ([], true)
    else match (Decimal(ss[0], PRICE_SHIFT), Decimal(ss[1], QUANTITY_SHIFT))
         case (Some(price), Some(quantity)) =>
           var (rest, bad) := RowLevels(ss[2..]);
           ([Row(price, quantity)] + rest, bad)
         case _ => ([], true)
  }

  /** The levels of a side: those of its rows, in order, up to the first bad one. */
  ghost function SideLevels(items: seq<Json>): (r: (seq<Row>, bool)) {
    if items == [] then ([], false)
    else if !items[0].Arr? then SideLevels(items[1..])
    else
      var (rows, bad) := RowLevels(RowStrings(items[0].items));
      if bad then (rows, true)
      else
        var (rest, bad') := SideLevels(items[1..]);
        (rows + rest, bad')
  }

  predicate Scalar(j: Json) {
    j.Str? || j.Natural? || j.Negative?
  }

  predicate RowShape(items: seq<Json>) {
    forall i :: 0 <= i < |items| ==> Scalar(items[i])
  }

  predicate SideShape(items: seq<Json>) {
    forall i :: 0 <= i < |items| ==> Scalar(items[i]) || (items[i].Arr? && RowShape(items[i].items))
  }

  datatype Draft = Draft(msg: DepthMessage, validEventType: bool)

  function WithNumber(m: DepthMessage, key: string, v: u64): DepthMessage {
    match key
    case "E" => m.(eventTime := ToMicroseconds(v))
    case "U" => m.(firstId := v)
    case "u" => m.(lastId := v)
    case _ => m
  }

  /** What one member adds to the message; `None` when it breaks a structural rule or a side grows
      beyond its limit. */
  ghost function MemberMeaning(d: Draft, key: string, value: Json): Option<Draft> {
    match value
    case Str(s) =>
      if key == "e" then (if s == "depthUpdate" then Some(d.(validEventType := true)) else None)
      else if key == "s" then Some(d.(msg := d.msg.(symbol := SymbolNamed(s))))
      else Some(d)
    case Natural(u) => Some(d.(msg := WithNumber(d.msg, key, u)))
    case Negative(i) => Some(d.(msg := WithNumber(d.msg, key, AsWord(i))))
    case Arr(items) =>
      if (key != "b" && key != "a") || !SideShape(items) then None
      else
        var levels := SideLevels(items).0;
        if |SideRows(d.msg, key == "b")| + |levels| > MAX_LEVELS_PER_SIDE then None
        else Some(d.(msg := AddRows(d.msg, key == "b", levels)))
    case _ => None
  }

  ghost function MembersMeaning(d: Draft, members: seq<Member>): Option<Draft>
    decreases |members|
  {
    if members == [] then Some(d)
    else match MemberMeaning(d, members[0].key, members[0].value)
         case None => None
         case Some(d') => MembersMeaning(d', members[1..])
  }

  /** The message an object stands for, starting from what is already buffered. */
  ghost function ObjectMeaning(d: Draft, members: seq<Member>): Option<Draft> {
    match MembersMeaning(d, members)
    case None => None
    case Some(d') => if d'.validEventType then Some(d') else None
  }

  /** The updates a document releases, or `None` when it is rejected. A lone string or number is
      accepted and releases nothing. */
  ghost function Meaning(j: Json): Option<DepthMessage> {
    match j
    case Obj(members) =>
      (match ObjectMeaning(Draft(EMPTY_MESSAGE, false), members)
       case None => None
       case Some(d) => Some(d.msg))
    case Str(_) => Some(EMPTY_MESSAGE)
    case Natural(_) => Some(EMPTY_MESSAGE)
    case Negative(_) => Some(EMPTY_MESSAGE)
    case _ => None
  }

  // ---- The machine computes the meaning ----

  lemma {:induction false} RunAppend(st: State, xs: seq<Event>, ys: seq<Event>)
    ensures Run(st, xs + ys) == match Run(st, xs) case None => None case Some(st') => Run(st', ys)
    decreases |xs|
  {
    if xs == [] {
      assert xs + ys == ys;
    } else {
      assert (xs + ys)[1..] == xs[1..] + ys;
      if Step(st, xs[0]).Some? {
        RunAppend(Step(st, xs[0]).value, xs[1..], ys);
      }
    }
  }

  lemma RunOne(st: State, e: Event, rest: seq<Event>)
    ensures Run(st, [e] + rest) == match Step(st, e) case None => None case Some(st') => Run(st', rest)
  {
    assert ([e] + rest)[1..] == rest;
  }

  /** Strings of a row when a first string may already be buffered. */
  function Buffered(first: Option<string>): seq<string> {
    if first.None? then [] else [first.value]
  }

  lemma RowLevelsUnfold(p: string, s: string, rest: seq<string>)
    requires |p| <= MAX_PRICE_LENGTH
    ensures RowLevels([p] + ([s] + rest)) ==
            match (Decimal(p, PRICE_SHIFT), Decimal(s, QUANTITY_SHIFT))
            case (Some(price), Some(quantity)) => ([Row(price, quantity)] + RowLevels(rest).0, RowLevels(rest).1)
            case _ => ([], true)
  {
    var ss := [p] + ([s] + rest);
    assert ss[0] == p && ss[1] == s && ss[2..] == rest;
  }

  lemma RowLevelsTooLong(s: string, rest: seq<string>)
    requires |s| > MAX_PRICE_LENGTH
    ensures RowLevels([s] + rest) == ([], true)
  {}

  predicate InRow(st: State) {
    st.objectDepth == 1 && st.arrayDepth == 2 && st.pending == PNone
  }

  lemma {:induction false} StoppedRow(st: State, items: seq<Json>)
    requires InRow(st) && st.stop
    ensures Run(st, ItemEvents(items)) == if RowShape(items) then Some(st) else None
    decreases |items|
  {
    if items != [] {
      RowItem(st, items);
      if Scalar(items[0]) {
        StoppedRow(st, items[1..]);
        ShapeUnfolds(items);
      }
    }
  }

  lemma ShapeUnfolds(items: seq<Json>)
    requires items != []
    ensures RowShape(items) <==> Scalar(items[0]) && RowShape(items[1..])
  {
    if Scalar(items[0]) && RowShape(items[1..]) {
      forall i | 0 <= i < |items| ensures Scalar(items[i]) {
        assert i > 0 ==> items[i] == items[1..][i - 1];
      }
    }
  }

  /** The first item of a row: a string is a row string, a number is ignored, the rest is refused. */
  lemma RowItem(st: State, items: seq<Json>)
    requires InRow(st) && items != []
    ensures Run(st, ItemEvents(items)) ==
            if items[0].Str? then
              (match RowString(st, items[0].s) case None => None case Some(st') => Run(st', ItemEvents(items[1..])))
            else if Scalar(items[0]) then Run(st, ItemEvents(items[1..]))
            else None
  {
    var j := items[0];
    ItemStepInRow(st, j);
    ItemsUnfold(items);
    RunOne(st, Events(j)[0], Events(j)[1..] + ItemEvents(items[1..]));
  }

  lemma ItemsUnfold(items: seq<Json>)
    requires items != []
    ensures ItemEvents(items) == [Events(items[0])[0]] + (Events(items[0])[1..] + ItemEvents(items[1..]))
    ensures Scalar(items[0]) ==> Events(items[0])[1..] + ItemEvents(items[1..]) == ItemEvents(items[1..])
  {
    HeadOfConcat(Events(items[0]), ItemEvents(items[1..]));
    if Scalar(items[0]) {
      FirstEventOf(items[0]);
    }
  }

  lemma HeadOfConcat<T>(xs: seq<T>, ys: seq<T>)
    requires xs != []
    ensures xs + ys == [xs[0]] + (xs[1..] + ys)
    ensures xs[1..] == [] ==> xs[1..] + ys == ys
  {}

  lemma ItemStepInRow(st: State, j: Json)
    requires InRow(st)
    ensures Step(st, Events(j)[0]) == if j.Str? then RowString(st, j.s) else if Scalar(j) then Some(st) else None
  {
    FirstEventOf(j);
    assert st.(pending := PNone) == st;
  }

  /** The event that opens a value decides how a handler meets it. */
  lemma FirstEventOf(j: Json)
    ensures Events(j)[0] == (
              match j
              case Null => NullEvent
              case Bool(b) => BoolEvent(b)
              case Negative(i) => IntEvent(i)
              case Natural(u) => UintEvent(u)
              case Double => DoubleEvent
              case Str(s) => StringEvent(s)
              case Arr(_) => StartArray
              case Obj(_) => StartObject)
    ensures Scalar(j) ==> Events(j)[1..] == []
  {}

  /** A whole row, its closing bracket included. */
  lemma {:induction false} RowRun(st: State, items: seq<Json>)
    requires InRow(st) && !st.stop && (st.first.Some? ==> |st.first.value| <= MAX_PRICE_LENGTH)
    requires |SideRows(st.msg, st.sideIsBid)| <= MAX_LEVELS_PER_SIDE
    ensures var (rows, bad) := RowLevels(Buffered(st.first) + RowStrings(items));
            var res := Run(st, ItemEvents(items));
            if !RowShape(items) || |SideRows(st.msg, st.sideIsBid)| + |rows| > MAX_LEVELS_PER_SIDE then res == None
            else res.Some? && OnEndArray(res.value) ==
                 Some(st.(arrayDepth := 1, first := None, stop := bad, msg := AddRows(st.msg, st.sideIsBid, rows)))
    decreases |items|
  {
    if items == [] {
      assert Buffered(st.first) + RowStrings(items) == Buffered(st.first);
      assert AddRows(st.msg, st.sideIsBid, []) == st.msg;
    } else {
      RowItem(st, items);
      ShapeUnfolds(items);
      if items[0].Str? {
        RowStringRun(st, items);
      } else if Scalar(items[0]) {
        assert RowStrings(items) == RowStrings(items[1..]);
        RowRun(st, items[1..]);
      }
    }
  }

  lemma {:induction false} RowStringRun(st: State, items: seq<Json>)
    requires InRow(st) && !st.stop && (st.first.Some? ==> |st.first.value| <= MAX_PRICE_LENGTH)
    requires |SideRows(st.msg, st.sideIsBid)| <= MAX_LEVELS_PER_SIDE
    requires items != [] && items[0].Str?
    ensures var (rows, bad) := RowLevels(Buffered(st.first) + RowStrings(items));
            var res := Run(st, ItemEvents(items));
            if !RowShape(items) || |SideRows(st.msg, st.sideIsBid)| + |rows| > MAX_LEVELS_PER_SIDE then res == None
            else res.Some? && OnEndArray(res.value) ==
                 Some(st.(arrayDepth := 1, first := None, stop := bad, msg := AddRows(st.msg, st.sideIsBid, rows)))
    decreases |items|, 0
  {
    RowItem(st, items);
    ShapeUnfolds(items);
    var s, rest := items[0].s, RowStrings(items[1..]);
    assert RowStrings(items) == [s] + rest;
    match st.first
    case None =>
      assert Buffered(st.first) + RowStrings(items) == [s] + rest;
      if |s| > MAX_PRICE_LENGTH {
        RowLevelsTooLong(s, rest);
        StoppedRow(st.(stop := true), items[1..]);
        assert AddRows(st.msg, st.sideIsBid, []) == st.msg;
      } else {
        RowRun(st.(first := Some(s)), items[1..]);
      }
    case Some(p) =>
      assert Buffered(st.first) + RowStrings(items) == [p] + ([s] + rest);
      RowLevelsUnfold(p, s, rest);
      match (Decimal(p, PRICE_SHIFT), Decimal(s, QUANTITY_SHIFT)) {
        case (Some(price), Some(quantity)) =>
          if |SideRows(st.msg, st.sideIsBid)| < MAX_LEVELS_PER_SIDE {
            var st' := RowString(st, s).value;
            RowRun(st', items[1..]);
            var rows := RowLevels(rest).0;
            assert Buffered(st'.first) + rest == rest;
            AddRowsTwice(st.msg, st.sideIsBid, [Row(price, quantity)], rows);
          }
        case _ =>
          StoppedRow(st.(first := None, stop := true), items[1..]);
          assert AddRows(st.msg, st.sideIsBid, []) == st.msg;
      }
  }

  lemma AddRowsTwice(m: DepthMessage, isBid: bool, a: seq<Row>, b: seq<Row>)
    ensures AddRows(AddRows(m, isBid, a), isBid, b) == AddRows(m, isBid, a + b)
  {
    assert SideRows(m, isBid) + a + b == SideRows(m, isBid) + (a + b);
  }

  predicate InSide(st: State) {
    st.objectDepth == 1 && st.arrayDepth == 1 && st.pending == PNone && st.first == None
  }

  lemma SideShapeUnfolds(items: seq<Json>)
    requires items != []
    ensures SideShape(items) <==>
            (Scalar(items[0]) || (items[0].Arr? && RowShape(items[0].items))) && SideShape(items[1..])
  {
    if (Scalar(items[0]) || (items[0].Arr? && RowShape(items[0].items))) && SideShape(items[1..]) {
      forall i | 0 <= i < |items| ensures Scalar(items[i]) || (items[i].Arr? && RowShape(items[i].items)) {
        assert i > 0 ==> items[i] == items[1..][i - 1];
      }
    }
  }

  ghost function RunAfterRow(st: State, rest: seq<Event>): Option<State> {
    match OnEndArray(st)
    case None => None
    case Some(st') => Run(st', rest)
  }

  /** The first item of a side: a lone scalar is ignored, a row is read, the rest is refused. */
  lemma SideItem(st: State, items: seq<Json>)
    requires InSide(st) && items != []
    ensures Run(st, ItemEvents(items)) ==
            if Scalar(items[0]) then Run(st, ItemEvents(items[1..]))
            else if items[0].Arr? then
              (match Run(st.(arrayDepth := 2), ItemEvents(items[0].items))
               case None => None
               case Some(st') => RunAfterRow(st', ItemEvents(items[1..])))
            else None
  {
    var j, rest := items[0], ItemEvents(items[1..]);
    ItemStepInSide(st, j);
    ItemsUnfold(items);
    RunOne(st, Events(j)[0], Events(j)[1..] + rest);
    if j.Arr? {
      RowEvents(st, j.items, rest);
      assert Events(j)[1..] == ItemEvents(j.items) + [EndArray];
    }
  }

  lemma ItemStepInSide(st: State, j: Json)
    requires InSide(st)
    ensures Step(st, Events(j)[0]) ==
            if Scalar(j) then Some(st) else if j.Arr? then Some(st.(arrayDepth := 2)) else None
  {
    FirstEventOf(j);
    assert st.(pending := PNone) == st;
    assert st.(arrayDepth := 2, first := None) == st.(arrayDepth := 2);
  }

  lemma RowEvents(st: State, items: seq<Json>, rest: seq<Event>)
    requires InSide(st)
    ensures Run(st.(arrayDepth := 2), (ItemEvents(items) + [EndArray]) + rest) ==
            match Run(st.(arrayDepth := 2), ItemEvents(items))
            case None => None
            case Some(st') => RunAfterRow(st', rest)
  {
    var row := st.(arrayDepth := 2);
    assert (ItemEvents(items) + [EndArray]) + rest == ItemEvents(items) + ([EndArray] + rest);
    RunAppend(row, ItemEvents(items), [EndArray] + rest);
    match Run(row, ItemEvents(items))
    case None =>
    case Some(st') =>
      RunOne(st', EndArray, rest);
  }

  lemma {:induction false} StoppedSide(st: State, items: seq<Json>)
    requires InSide(st) && st.stop
    ensures Run(st, ItemEvents(items)) == if SideShape(items) then Some(st) else None
    decreases |items|
  {
    if items != [] {
      SideItem(st, items);
      SideShapeUnfolds(items);
      if items[0].Arr? {
        StoppedRow(st.(arrayDepth := 2), items[0].items);
      }
      StoppedSide(st, items[1..]);
    }
  }

  /** All rows of a side, from the first. */
  lemma {:induction false} SideRun(st: State, items: seq<Json>)
    requires InSide(st) && !st.stop
    requires |SideRows(st.msg, st.sideIsBid)| <= MAX_LEVELS_PER_SIDE
    ensures var (rows, bad) := SideLevels(items);
            Run(st, ItemEvents(items)) ==
            if !SideShape(items) || |SideRows(st.msg, st.sideIsBid)| + |rows| > MAX_LEVELS_PER_SIDE then None
            else Some(st.(stop := bad, msg := AddRows(st.msg, st.sideIsBid, rows)))
    decreases |items|
  {
    if items == [] {
      assert AddRows(st.msg, st.sideIsBid, []) == st.msg;
    } else {
      SideItem(st, items);
      SideShapeUnfolds(items);
      if Scalar(items[0]) {
        SideRun(st, items[1..]);
      } else if items[0].Arr? {
        SideRowRun(st, items);
      }
    }
  }

  lemma {:induction false} SideRowRun(st: State, items: seq<Json>)
    requires InSide(st) && !st.stop && items != [] && items[0].Arr?
    requires |SideRows(st.msg, st.sideIsBid)| <= MAX_LEVELS_PER_SIDE
    ensures var (rows, bad) := SideLevels(items);
            Run(st, ItemEvents(items)) ==
            if !SideShape(items) || |SideRows(st.msg, st.sideIsBid)| + |rows| > MAX_LEVELS_PER_SIDE then None
            else Some(st.(stop := bad, msg := AddRows(st.msg, st.sideIsBid, rows)))
    decreases |items|, 0
  {
    var row := items[0].items;
    SideItem(st, items);
    SideShapeUnfolds(items);
    RowRun(st.(arrayDepth := 2), row);
    assert Buffered(st.first) + RowStrings(row) == RowStrings(row);
    var (rows, bad) := RowLevels(RowStrings(row));
    if RowShape(row) && |SideRows(st.msg, st.sideIsBid)| + |rows| <= MAX_LEVELS_PER_SIDE {
      var next := st.(stop := bad, msg := AddRows(st.msg, st.sideIsBid, rows));
      if bad {
        StoppedSide(next, items[1..]);
      } else {
        SideRun(next, items[1..]);
        AddRowsTwice(st.msg, st.sideIsBid, rows, SideLevels(items[1..]).0);
      }
    }
  }

  // ---- Members and documents ----

  /** Between two members of the message object. */
  ghost predicate AtMember(st: State, d: Draft) {
    && st.objectDepth == 1 && st.arrayDepth == 0 && st.first == None
    && st.msg == d.msg && st.validEventType == d.validEventType
    && |d.msg.bids| <= MAX_LEVELS_PER_SIDE && |d.msg.asks| <= MAX_LEVELS_PER_SIDE
  }

  lemma ScalarMember(st: State, d: Draft, key: string, value: Json)
    requires AtMember(st, d) && !value.Arr?
    ensures var res := Run(st.(pending := PendingFor(key)), Events(value));
            match MemberMeaning(d, key, value)
            case None => res == None
            case Some(d') => res.Some? && AtMember(res.value, d')
  {
    var named := st.(pending := PendingFor(key));
    FirstEventOf(value);
    var e, more := Events(value)[0], Events(value)[1..];
    assert Events(value) == [e] + more;
    RunOne(named, e, more);
  }

  lemma ArrayMember(st: State, d: Draft, key: string, items: seq<Json>)
    requires AtMember(st, d)
    ensures var res := Run(st.(pending := PendingFor(key)), Events(Arr(items)));
            match MemberMeaning(d, key, Arr(items))
            case None => res == None
            case Some(d') => res.Some? && AtMember(res.value, d')
  {
    var named := st.(pending := PendingFor(key));
    RunOne(named, StartArray, ItemEvents(items) + [EndArray]);
    if key == "b" || key == "a" {
      var open := named.(pending := PNone, sideIsBid := key == "b", stop := false, arrayDepth := 1);
      assert OnStartArray(named) == Some(open);
      WholeSideRun(open, items);
    }
  }

  /** A side up to and including its closing bracket. */
  lemma WholeSideRun(st: State, items: seq<Json>)
    requires InSide(st) && !st.stop && |SideRows(st.msg, st.sideIsBid)| <= MAX_LEVELS_PER_SIDE
    ensures var (rows, bad) := SideLevels(items);
            Run(st, ItemEvents(items) + [EndArray]) ==
            if !SideShape(items) || |SideRows(st.msg, st.sideIsBid)| + |rows| > MAX_LEVELS_PER_SIDE then None
            else Some(st.(stop := bad, arrayDepth := 0, msg := AddRows(st.msg, st.sideIsBid, rows)))
  {
    RunAppend(st, ItemEvents(items), [EndArray]);
    SideRun(st, items);
    if Run(st, ItemEvents(items)).Some? {
      assert [EndArray] == [EndArray] + [];
      RunOne(Run(st, ItemEvents(items)).value, EndArray, []);
    }
  }

  lemma {:induction false} MembersRun(st: State, d: Draft, members: seq<Member>)
    requires AtMember(st, d)
    ensures var res := Run(st, MemberEvents(members));
            match MembersMeaning(d, members)
            case None => res == None
            case Some(d') => res.Some? && AtMember(res.value, d')
    decreases |members|
  {
    if members != [] {
      var key, value, rest := members[0].key, members[0].value, MemberEvents(members[1..]);
      RunOne(st, Key(key), Events(value) + rest);
      var named := st.(pending := PendingFor(key));
      RunAppend(named, Events(value), rest);
      if value.Arr? {
        ArrayMember(st, d, key, value.items);
      } else {
        ScalarMember(st, d, key, value);
      }
      if MemberMeaning(d, key, value).Some? {
        MembersRun(Run(named, Events(value)).value, MemberMeaning(d, key, value).value, members[1..]);
      }
    }
  }

  /** An object read from a handler between documents, with whatever it has buffered. */
  lemma ObjectRun(st: State, members: seq<Member>)
    requires st.objectDepth == 0 && st.arrayDepth == 0 && st.first == None
    requires |st.msg.bids| <= MAX_LEVELS_PER_SIDE && |st.msg.asks| <= MAX_LEVELS_PER_SIDE
    ensures var res := Run(st, Events(Obj(members)));
            match ObjectMeaning(Draft(st.msg, st.validEventType), members)
            case None => res == None
            case Some(d) =>
              res.Some? && res.value.objectDepth == 0 && res.value.arrayDepth == 0 && res.value.first == None &&
              res.value.msg == d.msg && res.value.validEventType && d.validEventType &&
              |d.msg.bids| <= MAX_LEVELS_PER_SIDE && |d.msg.asks| <= MAX_LEVELS_PER_SIDE
  {
    var open := st.(objectDepth := 1);
    var d := Draft(st.msg, st.validEventType);
    RunOne(st, StartObject, MemberEvents(members) + [EndObject]);
    RunAppend(open, MemberEvents(members), [EndObject]);
    MembersRun(open, d, members);
    if Run(open, MemberEvents(members)).Some? {
      var last := Run(open, MemberEvents(members)).value;
      assert [EndObject] == [EndObject] + [];
      RunOne(last, EndObject, []);
    }
  }

  /** For every document the handler accepts exactly what the meaning accepts, and has then buffered
      exactly that message; a rejected document has no message to release. */
  lemma MachineComputesMeaning(j: Json)
    ensures Run(INITIAL, Events(j)).Some? <==> Meaning(j).Some?
    ensures Meaning(j).Some? ==> Run(INITIAL, Events(j)).value.msg == Meaning(j).value
  {
    if j.Obj? {
      ObjectRun(INITIAL, j.members);
    } else {
      FirstEventOf(j);
      assert Events(j) == [Events(j)[0]] + Events(j)[1..];
      RunOne(INITIAL, Events(j)[0], Events(j)[1..]);
    }
  }
}
