/** The snapshot parser: a state machine over reader events that keeps the first levels of each
    side. Unlike the depth parser it caps a side instead of refusing the document, and once a side
    has met a bad level it stays closed for the rest of the document. */
module SnapshotHandler {
  import opened Words
  import opened PriceLevels
  import opened MarketData
  import opened Json
  import opened FixedDecimal
  import D = DepthHandler

  const BOOK_DEPTH: nat := 100

  datatype Pending = PNone | PLastUpdateId | PBids | PAsks

  function PendingFor(key: string): Pending {
    match key
    case "lastUpdateId" => PLastUpdateId
    case "bids" => PBids
    case "asks" => PAsks
    case _ => PNone
  }

  /** The levels kept on a side, and whether a bad one has closed it. */
  datatype SideState = SideState(rows: seq<Row>, done: bool)

  const EMPTY_SIDE := SideState([], false)

  datatype State = State(
    objectDepth: nat, arrayDepth: nat, pending: Pending, inBids: bool, inAsks: bool,
    first: Option<string>, lastUpdateId: u64, bids: SideState, asks: SideState)

  const INITIAL := State(0, 0, PNone, false, false, None, 0, EMPTY_SIDE, EMPTY_SIDE)

  /** A row string on an open side: the side and the row buffer after it. */
  ghost function SideString(side: SideState, first: Option<string>, s: string): (SideState, Option<string>) {
    if side.done || |side.rows| >= BOOK_DEPTH then (side, first)
    else match first
         case None =>
           if |s| > D.MAX_PRICE_LENGTH then (side.(done := true), None) else (side, Some(s))
         case Some(p) =>
           match (Decimal(p, D.PRICE_SHIFT), Decimal(s, D.QUANTITY_SHIFT))
           case (Some(price), Some(quantity)) => (side.(rows := side.rows + [Row(price, quantity)]), None)
           case _ => (side.(done := true), None)
  }

  function OpenSide(st: State): SideState {
    if st.inBids then st.bids else st.asks
  }

  function WithSide(st: State, side: SideState): State {
    if st.inBids then st.(bids := side) else st.(asks := side)
  }

  ghost function OnString(st: State, s: string): Option<State> {
    if st.arrayDepth != 2 then Some(st.(pending := PNone))
    else if !st.inBids && !st.inAsks then None
    else
      var (side, first) := SideString(OpenSide(st), st.first, s);
      Some(WithSide(st, side).(first := first))
  }

  function OnNumber(st: State, v: u64): State {
    if st.pending.PLastUpdateId? then st.(pending := PNone, lastUpdateId := v) else st.(pending := PNone)
  }

  function OnStartArray(st: State): Option<State> {
    if st.objectDepth != 1 then None
    else if st.pending.PBids? || st.pending.PAsks? then
      Some(st.(pending := PNone, inBids := st.pending.PBids?, inAsks := st.pending.PAsks?,
               arrayDepth := st.arrayDepth + 1))
    else if st.arrayDepth == 1 then Some(st.(arrayDepth := 2, first := None))
    else None
  }

  /** A price left without its quantity is dropped. */
  function OnEndArray(st: State): Option<State> {
    if st.arrayDepth == 2 then Some(st.(first := None, arrayDepth := 1))
    else if st.arrayDepth == 1 then Some(st.(arrayDepth := 0, inBids := false, inAsks := false))
    else None
  }

  ghost function Step(st: State, e: Event): Option<State> {
    match e
    case NullEvent => None
    case BoolEvent(_) => None
    case DoubleEvent => None
    case IntEvent(i) => Some(OnNumber(st, AsWord(i)))
    case UintEvent(u) => Some(OnNumber(st, u))
    case StringEvent(s) => OnString(st, s)
    case StartObject => if st.objectDepth > 0 then None else Some(st.(objectDepth := 1))
    case Key(k) =>
      if st.objectDepth != 1 || st.arrayDepth != 0 then None else Some(st.(pending := PendingFor(k)))
    case EndObject =>
      if st.objectDepth != 1 || st.arrayDepth != 0 then None else Some(st.(objectDepth := 0))
    case StartArray => OnStartArray(st)
    case EndArray => OnEndArray(st)
  }

  ghost function Run(st: State, es: seq<Event>): Option<State>
    decreases |es|
  {
    if es == [] then Some(st)
    else match Step(st, es[0])
         case None => None
         case Some(st') => Run(st', es[1..])
  }

  // ---- What a snapshot document means ----

  /** The levels of a row up to the first bad one. A leftover string is not a bad level. */
  ghost function RowLevels(ss: seq<string>): (r: (seq<Row>, bool)) {
    if ss == [] then ([], false)
    else if |ss[0]| > D.MAX_PRICE_LENGTH then ([], true)
    else if |ss| == 1 then ([], false)
    else match (Decimal(ss[0], D.PRICE_SHIFT), Decimal(ss[1], D.QUANTITY_SHIFT))
         case (Some(price), Some(quantity)) =>
           var (rest, bad) := RowLevels(ss[2..]);
           ([Row(price, quantity)] + rest, bad)
         case _ => ([], true)
  }

  ghost function SideLevels(items: seq<Json>): (r: (seq<Row>, bool)) {
    if items == [] then ([], false)
    else if !items[0].Arr? then SideLevels(items[1..])
    else
      var (rows, bad) := RowLevels(D.RowStrings(items[0].items));
      if bad then (rows, true)
      else
        var (rest, bad') := SideLevels(items[1..]);
        (rows + rest, bad')
  }

  /** Adding levels to a side: a closed side takes none, the cap cuts the rest off, and a bad level
      met before the cap closes the side. */
  function Filled(side: SideState, levels: seq<Row>, bad: bool): SideState {
    if side.done || |side.rows| >= BOOK_DEPTH then side
    else if |side.rows| + |levels| >= BOOK_DEPTH then SideState((side.rows + levels)[..BOOK_DEPTH], false)
    else SideState(side.rows + levels, bad)
  }

  datatype Draft = Draft(lastUpdateId: u64, bids: SideState, asks: SideState)

  ghost function MemberMeaning(d: Draft, key: string, value: Json): Option<Draft> {
    match value
    case Str(_) => Some(d)
    case Natural(u) => Some(if key == "lastUpdateId" then d.(lastUpdateId := u) else d)
    case Negative(i) => Some(if key == "lastUpdateId" then d.(lastUpdateId := AsWord(i)) else d)
    case Arr(items) =>
      if (key != "bids" && key != "asks") || !D.SideShape(items) then None
      else
        var (levels, bad) := SideLevels(items);
        Some(if key == "bids" then d.(bids := Filled(d.bids, levels, bad)) else d.(asks := Filled(d.asks, levels, bad)))
    case _ => None
  }

  ghost function MembersMeaning(d: Draft, members: seq<Member>): Option<Draft>
    decreases |members|
  {
    if members == [] then Some(d)
    else match MemberMeaning(d, members[0].key, members[0].value)
         case None => None
         case Some(d') => MembersMeaning(d', members[1..])
  }

  /** The reply that a document stands for. */
  ghost function Meaning(j: Json): Reply {
    if !j.Obj? then Unusable
    else match MembersMeaning(Draft(0, EMPTY_SIDE, EMPTY_SIDE), j.members)
         case None => Unusable
         case Some(d) => Snapshot(d.lastUpdateId, d.bids.rows, d.asks.rows)
  }

  // ---- The machine computes the meaning ----

  lemma {:induction false} RunAppend(st: State, xs: seq<Event>, ys: seq<Event>)
    ensures Run(st, xs + ys) == match Run(st, xs) case None => None case Some(st') => Run(st', ys)
    decreases |xs|
  {
    if xs == [] {
      assert xs + ys == ys;
    } else {
      assert (xs + ys)[1..] == xs[1..] + ys;
      if Step(st, xs[0]).Some? {
        RunAppend(Step(st, xs[0]).value, xs[1..], ys);
      }
    }
  }

  lemma RunOne(st: State, e: Event, rest: seq<Event>)
    ensures Run(st, [e] + rest) == match Step(st, e) case None => None case Some(st') => Run(st', rest)
  {
    assert ([e] + rest)[1..] == rest;
  }

  /** Between the brackets of a row or of a side: one of the two sides is open. */
  predicate Inside(st: State, arrayDepth: nat) {
    st.objectDepth == 1 && st.arrayDepth == arrayDepth && st.pending == PNone && st.inBids != st.inAsks
  }

  ghost function Stringed(st: State, s: string): State {
    var (side, first) := SideString(OpenSide(st), st.first, s);
    WithSide(st, side).(first := first)
  }

  /** The first item of a row: a string is a row string, a number is ignored, the rest is refused. */
  lemma RowItem(st: State, items: seq<Json>)
    requires Inside(st, 2) && items != []
    ensures Run(st, ItemEvents(items)) ==
            if items[0].Str? then Run(Stringed(st, items[0].s), ItemEvents(items[1..]))
            else if D.Scalar(items[0]) then Run(st, ItemEvents(items[1..]))
            else None
  {
    var j := items[0];
    ItemStepInRow(st, j);
    D.ItemsUnfold(items);
    RunOne(st, Events(j)[0], Events(j)[1..] + ItemEvents(items[1..]));
  }

  lemma ItemStepInRow(st: State, j: Json)
    requires Inside(st, 2)
    ensures Step(st, Events(j)[0]) ==
            if j.Str? then Some(Stringed(st, j.s)) else if D.Scalar(j) then Some(st) else None
  {
    D.FirstEventOf(j);
    assert st.(pending := PNone) == st;
  }

  predicate Closed(side: SideState) {
    side.done || |side.rows| >= BOOK_DEPTH
  }

  lemma {:induction false} ClosedRow(st: State, items: seq<Json>)
    requires Inside(st, 2) && Closed(OpenSide(st))
    ensures Run(st, ItemEvents(items)) == if D.RowShape(items) then Some(st) else None
    decreases |items|
  {
    if items != [] {
      RowItem(st, items);
      D.ShapeUnfolds(items);
      if D.Scalar(items[0]) {
        assert items[0].Str? ==> Stringed(st, items[0].s) == st;
        ClosedRow(st, items[1..]);
      }
    }
  }

  lemma FilledTwice(side: SideState, xs: seq<Row>, ys: seq<Row>, bad: bool)
    ensures Filled(Filled(side, xs, false), ys, bad) == Filled(side, xs + ys, bad)
  {
    var all := side.rows + (xs + ys);
    assert side.rows + xs + ys == all;
    if |side.rows| + |xs| >= BOOK_DEPTH {
      assert all[..BOOK_DEPTH] == (side.rows + xs)[..BOOK_DEPTH];
    }
  }

  lemma FilledNone(side: SideState)
    ensures Filled(side, [], false) == side
  {
    assert side.rows + [] == side.rows;
  }

  /** A whole row, its closing bracket included. */
  lemma {:induction false} RowRun(st: State, items: seq<Json>)
    requires Inside(st, 2) && !Closed(OpenSide(st))
    requires st.first.Some? ==> |st.first.value| <= D.MAX_PRICE_LENGTH
    ensures var (rows, bad) := RowLevels(D.Buffered(st.first) + D.RowStrings(items));
            var res := Run(st, ItemEvents(items));
            if !D.RowShape(items) then res == None
            else res.Some? && OnEndArray(res.value) ==
                 Some(WithSide(st, Filled(OpenSide(st), rows, bad)).(arrayDepth := 1, first := None))
    decreases |items|
  {
    if items == [] {
      assert D.Buffered(st.first) + D.RowStrings(items) == D.Buffered(st.first);
      FilledNone(OpenSide(st));
    } else {
      RowItem(st, items);
      D.ShapeUnfolds(items);
      if items[0].Str? {
        RowStringRun(st, items);
      } else if D.Scalar(items[0]) {
        assert D.RowStrings(items) == D.RowStrings(items[1..]);
        RowRun(st, items[1..]);
      }
    }
  }

  lemma {:induction false} RowStringRun(st: State, items: seq<Json>)
    requires Inside(st, 2) && !Closed(OpenSide(st)) && items != [] && items[0].Str?
    requires st.first.Some? ==> |st.first.value| <= D.MAX_PRICE_LENGTH
    ensures var (rows, bad) := RowLevels(D.Buffered(st.first) + D.RowStrings(items));
            var res := Run(st, ItemEvents(items));
            if !D.RowShape(items) then res == None
            else res.Some? && OnEndArray(res.value) ==
                 Some(WithSide(st, Filled(OpenSide(st), rows, bad)).(arrayDepth := 1, first := None))
    decreases |items|, 1
  {
    RowItem(st, items);
    D.ShapeUnfolds(items);
    var s, rest := items[0].s, D.RowStrings(items[1..]);
    assert D.RowStrings(items) == [s] + rest;
    var st' := Stringed(st, s);
    match st.first
    case None =>
      assert D.Buffered(st.first) + D.RowStrings(items) == [s] + rest;
      if |s| > D.MAX_PRICE_LENGTH {
        ClosedRow(st', items[1..]);
        assert OpenSide(st).rows + [] == OpenSide(st).rows;
      } else {
        RowRun(st', items[1..]);
      }
    case Some(p) =>
      assert D.Buffered(st.first) + D.RowStrings(items) == [p] + ([s] + rest);
      PairUnfolds(p, s, rest);
      match (Decimal(p, D.PRICE_SHIFT), Decimal(s, D.QUANTITY_SHIFT)) {
        case (Some(price), Some(quantity)) =>
          LevelAdded(st, s, Row(price, quantity), items[1..]);
        case _ =>
          ClosedRow(st', items[1..]);
          assert OpenSide(st).rows + [] == OpenSide(st).rows;
      }
  }

  lemma PairUnfolds(p: string, s: string, rest: seq<string>)
    requires |p| <= D.MAX_PRICE_LENGTH
    ensures RowLevels([p] + ([s] + rest)) ==
            match (Decimal(p, D.PRICE_SHIFT), Decimal(s, D.QUANTITY_SHIFT))
            case (Some(price), Some(quantity)) => ([Row(price, quantity)] + RowLevels(rest).0, RowLevels(rest).1)
            case _ => ([], true)
  {
    var ss := [p] + ([s] + rest);
    assert ss[0] == p && ss[1] == s && ss[2..] == rest;
  }

  /** The rest of a row after a good level. */
  lemma {:induction false} LevelAdded(st: State, s: string, level: Row, items: seq<Json>)
    requires Inside(st, 2) && !Closed(OpenSide(st)) && st.first.Some?
    requires Decimal(st.first.value, D.PRICE_SHIFT) == Some(level.price)
    requires Decimal(s, D.QUANTITY_SHIFT) == Some(level.quantity)
    ensures var (rows, bad) := RowLevels(D.RowStrings(items));
            var res := Run(Stringed(st, s), ItemEvents(items));
            if !D.RowShape(items) then res == None
            else res.Some? && OnEndArray(res.value) ==
                 Some(WithSide(st, Filled(OpenSide(st), [level] + rows, bad)).(arrayDepth := 1, first := None))
    decreases |items| + 1, 0
  {
    var st' := Stringed(st, s);
    var (rows, bad) := RowLevels(D.RowStrings(items));
    assert OpenSide(st') == Filled(OpenSide(st), [level], false);
    FilledTwice(OpenSide(st), [level], rows, bad);
    if Closed(OpenSide(st')) {
      ClosedRow(st', items);
    } else {
      assert D.Buffered(st'.first) + D.RowStrings(items) == D.RowStrings(items);
      RowRun(st', items);
    }
  }

  /** The first item of a side: a lone scalar is ignored, a row is read, the rest is refused. */
  lemma SideItem(st: State, items: seq<Json>)
    requires Inside(st, 1) && st.first == None && items != []
    requires D.Scalar(items[0])
    ensures Run(st, ItemEvents(items)) == Run(st, ItemEvents(items[1..]))
  {
    var j := items[0];
    D.FirstEventOf(j);
    assert st.(pending := PNone) == st;
    D.ItemsUnfold(items);
    RunOne(st, Events(j)[0], Events(j)[1..] + ItemEvents(items[1..]));
  }

  lemma RefusedSideItem(st: State, items: seq<Json>)
    requires Inside(st, 1) && items != [] && !D.Scalar(items[0]) && !items[0].Arr?
    ensures Run(st, ItemEvents(items)) == None
  {
    var j := items[0];
    D.FirstEventOf(j);
    D.ItemsUnfold(items);
    RunOne(st, Events(j)[0], Events(j)[1..] + ItemEvents(items[1..]));
  }

  lemma RowEvents(items: seq<Json>)
    requires items != [] && items[0].Arr?
    ensures ItemEvents(items) == [StartArray] + (ItemEvents(items[0].items) + ([EndArray] + ItemEvents(items[1..])))
  {
    var row, rest := ItemEvents(items[0].items), ItemEvents(items[1..]);
    assert Events(items[0]) == [StartArray] + (row + [EndArray]);
    assert ([StartArray] + (row + [EndArray])) + rest == [StartArray] + (row + ([EndArray] + rest));
  }

  /** What a whole row does to the side it belongs to. */
  ghost function AfterRow(st: State, row: seq<Json>): State {
    var (rows, bad) := RowLevels(D.RowStrings(row));
    WithSide(st, Filled(OpenSide(st), rows, bad))
  }

  /** A row from its first item, whether its side still takes levels or not. */
  lemma AnyRow(st: State, row: seq<Json>)
    requires Inside(st, 1) && st.first == None
    ensures var res := Run(st.(arrayDepth := 2), ItemEvents(row));
            if !D.RowShape(row) then res == None else res.Some? && OnEndArray(res.value) == Some(AfterRow(st, row))
  {
    var open := st.(arrayDepth := 2);
    var (rows, bad) := RowLevels(D.RowStrings(row));
    if Closed(OpenSide(open)) {
      ClosedRow(open, row);
    } else {
      assert D.Buffered(open.first) + D.RowStrings(row) == D.RowStrings(row);
      RowRun(open, row);
    }
    assert WithSide(open, Filled(OpenSide(open), rows, bad)).(arrayDepth := 1, first := None) == AfterRow(st, row);
  }

  lemma RowAndRest(st: State, row: seq<Json>, rest: seq<Event>)
    requires Inside(st, 1) && st.first == None
    ensures Run(st.(arrayDepth := 2), ItemEvents(row) + ([EndArray] + rest)) ==
            if !D.RowShape(row) then None else Run(AfterRow(st, row), rest)
  {
    var open := st.(arrayDepth := 2);
    RunAppend(open, ItemEvents(row), [EndArray] + rest);
    AnyRow(st, row);
    if D.RowShape(row) {
      RunOne(Run(open, ItemEvents(row)).value, EndArray, rest);
    }
  }

  /** The row a side reads next, from its opening to its closing bracket. */
  lemma SideRow(st: State, items: seq<Json>)
    requires Inside(st, 1) && st.first == None && items != [] && items[0].Arr?
    ensures Run(st, ItemEvents(items)) ==
            if !D.RowShape(items[0].items) then None else Run(AfterRow(st, items[0].items), ItemEvents(items[1..]))
  {
    var row, rest := ItemEvents(items[0].items), ItemEvents(items[1..]);
    RowEvents(items);
    assert Step(st, StartArray) == Some(st.(arrayDepth := 2));
    RunOne(st, StartArray, row + ([EndArray] + rest));
    RowAndRest(st, items[0].items, rest);
  }

  lemma {:induction false} SideRun(st: State, items: seq<Json>)
    requires Inside(st, 1) && st.first == None
    ensures var (rows, bad) := SideLevels(items);
            Run(st, ItemEvents(items)) ==
            if D.SideShape(items) then Some(WithSide(st, Filled(OpenSide(st), rows, bad))) else None
    decreases |items|
  {
    if items == [] {
      FilledNone(OpenSide(st));
    } else {
      D.SideShapeUnfolds(items);
      if D.Scalar(items[0]) {
        SideItem(st, items);
        SideRun(st, items[1..]);
      } else if items[0].Arr? {
        SideRow(st, items);
        var (rows, bad) := RowLevels(D.RowStrings(items[0].items));
        var (rest, bad') := SideLevels(items[1..]);
        if D.RowShape(items[0].items) {
          SideRun(AfterRow(st, items[0].items), items[1..]);
          if bad {
            FilledWhenBad(OpenSide(st), rows, rest, bad');
          } else {
            FilledTwice(OpenSide(st), rows, rest, bad');
          }
        }
      } else {
        RefusedSideItem(st, items);
      }
    }
  }

  /** After a bad level nothing more is added. */
  lemma FilledWhenBad(side: SideState, xs: seq<Row>, ys: seq<Row>, bad: bool)
    ensures Filled(Filled(side, xs, true), ys, bad) == Filled(side, xs, true)
  {}

  // ---- Members and documents ----

  /** Between two members of the snapshot object. */
  predicate AtMember(st: State, d: Draft) {
    && st.objectDepth == 1 && st.arrayDepth == 0 && st.first == None
    && st.lastUpdateId == d.lastUpdateId && st.bids == d.bids && st.asks == d.asks
  }

  lemma ScalarMember(st: State, d: Draft, key: string, value: Json)
    requires AtMember(st, d) && !value.Arr?
    ensures var res := Run(st.(pending := PendingFor(key)), Events(value));
            match MemberMeaning(d, key, value)
            case None => res == None
            case Some(d') => res.Some? && AtMember(res.value, d')
  {
    var named := st.(pending := PendingFor(key));
    D.FirstEventOf(value);
    var e, more := Events(value)[0], Events(value)[1..];
    assert Events(value) == [e] + more;
    RunOne(named, e, more);
  }

  lemma ArrayMember(st: State, d: Draft, key: string, items: seq<Json>)
    requires AtMember(st, d)
    ensures var res := Run(st.(pending := PendingFor(key)), Events(Arr(items)));
            match MemberMeaning(d, key, Arr(items))
            case None => res == None
            case Some(d') => res.Some? && AtMember(res.value, d')
  {
    var named := st.(pending := PendingFor(key));
    RunOne(named, StartArray, ItemEvents(items) + [EndArray]);
    if key == "bids" || key == "asks" {
      var open := named.(pending := PNone, inBids := key == "bids", inAsks := key == "asks", arrayDepth := 1);
      assert OnStartArray(named) == Some(open);
      WholeSideRun(open, items);
    }
  }

  /** A side up to and including its closing bracket. */
  lemma WholeSideRun(st: State, items: seq<Json>)
    requires Inside(st, 1) && st.first == None
    ensures var (rows, bad) := SideLevels(items);
            Run(st, ItemEvents(items) + [EndArray]) ==
            if D.SideShape(items) then
              Some(WithSide(st, Filled(OpenSide(st), rows, bad)).(arrayDepth := 0, inBids := false, inAsks := false))
            else None
  {
    RunAppend(st, ItemEvents(items), [EndArray]);
    SideRun(st, items);
    if Run(st, ItemEvents(items)).Some? {
      assert [EndArray] == [EndArray] + [];
      RunOne(Run(st, ItemEvents(items)).value, EndArray, []);
    }
  }

  lemma {:induction false} MembersRun(st: State, d: Draft, members: seq<Member>)
    requires AtMember(st, d)
    ensures var res := Run(st, MemberEvents(members));
            match MembersMeaning(d, members)
            case None => res == None
            case Some(d') => res.Some? && AtMember(res.value, d')
    decreases |members|
  {
    if members != [] {
      var key, value, rest := members[0].key, members[0].value, MemberEvents(members[1..]);
      RunOne(st, Key(key), Events(value) + rest);
      var named := st.(pending := PendingFor(key));
      RunAppend(named, Events(value), rest);
      if value.Arr? {
        ArrayMember(st, d, key, value.items);
      } else {
        ScalarMember(st, d, key, value);
      }
      if MemberMeaning(d, key, value).Some? {
        MembersRun(Run(named, Events(value)).value, MemberMeaning(d, key, value).value, members[1..]);
      }
    }
  }

  /** For every object document the handler accepts exactly what has a meaning, and has then kept
      exactly that snapshot. */
  lemma MachineComputesMeaning(members: seq<Member>)
    ensures var res := Run(INITIAL, Events(Obj(members)));
            Meaning(Obj(members)) ==
            match res
            case None => Unusable
            case Some(st) => Snapshot(st.lastUpdateId, st.bids.rows, st.asks.rows)
  {
    var open := INITIAL.(objectDepth := 1);
    RunOne(INITIAL, StartObject, MemberEvents(members) + [EndObject]);
    RunAppend(open, MemberEvents(members), [EndObject]);
    MembersRun(open, Draft(0, EMPTY_SIDE, EMPTY_SIDE), members);
    if Run(open, MemberEvents(members)).Some? {
      var last := Run(open, MemberEvents(members)).value;
      assert [EndObject] == [EndObject] + [];
      RunOne(last, EndObject, []);
    }
  }
}
