/** The depth handler as the object it is: flags, a row buffer and level arrays, reused from one
    message to the next without being cleared. */
module DepthSaxHandler {
  import opened Words
  import opened PriceLevels
  import opened MarketData
  import opened Json
  import opened FixedDecimal
  import opened DepthHandler

  class DepthSaxHandler {
    var objectDepth: nat
    var arrayDepth: nat
    var pending: Pending
    var validEventType: bool
    var eventTime: u64
    var firstUpdateId: u64
    var lastUpdateId: u64
    var symbol: Symbol
    var sideIsBid: bool
    var stop: bool
    var rowStringIdx: nat
    const row0: array<char>
    var row0Len: nat
    var bidN: nat
    var askN: nat
    const bidPrices: array<u64>
    const bidQtys: array<u64>
    const askPrices: array<u64>
    const askQtys: array<u64>

    ghost predicate Valid()
      reads this
    {
      && rowStringIdx <= 1 && row0.Length == MAX_PRICE_LENGTH + 1 && row0Len <= MAX_PRICE_LENGTH
      && bidPrices.Length == bidQtys.Length == askPrices.Length == askQtys.Length == MAX_LEVELS_PER_SIDE
      && bidN <= MAX_LEVELS_PER_SIDE && askN <= MAX_LEVELS_PER_SIDE
      && bidPrices != bidQtys && bidPrices != askPrices && bidPrices != askQtys
      && bidQtys != askPrices && bidQtys != askQtys && askPrices != askQtys
    }

    /** What is buffered. Levels beyond the counts and an unused row buffer do not matter. */
    ghost function Message(): DepthMessage
      requires Valid()
      reads this, bidPrices, bidQtys, askPrices, askQtys
    {
      DepthMessage(eventTime, firstUpdateId, lastUpdateId, symbol,
                   Zipped(bidPrices[..], bidQtys[..], bidN), Zipped(askPrices[..], askQtys[..], askN))
    }

    ghost function Value(): State
      requires Valid()
      reads this, row0, bidPrices, bidQtys, askPrices, askQtys
    {
      State(objectDepth, arrayDepth, pending, validEventType, sideIsBid, stop,
            if rowStringIdx == 1 then Some(row0[..row0Len]) else None, Message())
    }

    constructor ()
      ensures Valid() && fresh(row0) && fresh(bidPrices) && fresh(bidQtys) && fresh(askPrices) && fresh(askQtys)
    {
      row0 := new char[MAX_PRICE_LENGTH + 1];
      bidPrices := new u64[MAX_LEVELS_PER_SIDE];
      bidQtys := new u64[MAX_LEVELS_PER_SIDE];
      askPrices := new u64[MAX_LEVELS_PER_SIDE];
      askQtys := new u64[MAX_LEVELS_PER_SIDE];
      objectDepth, arrayDepth, pending, validEventType := 0, 0, PNone, false;
      eventTime, firstUpdateId, lastUpdateId, symbol := 0, 0, 0, Unknown;
      sideIsBid, stop, rowStringIdx, row0Len, bidN, askN := false, false, 0, 0, 0, 0;
    }

    method ForgetMessage()
      requires Valid()
      modifies this`eventTime, this`firstUpdateId, this`lastUpdateId, this`symbol, this`bidN, this`askN
      ensures Valid() && Message() == EMPTY_MESSAGE
    {
      eventTime := 0;
      firstUpdateId := 0;
      lastUpdateId := 0;
      symbol := Unknown;
      bidN := 0;
      askN := 0;
      ZippedNone(bidPrices[..], bidQtys[..]);
      ZippedNone(askPrices[..], askQtys[..]);
    }

    method ForgetPosition()
      requires Valid()
      modifies this`objectDepth, this`arrayDepth, this`pending, this`validEventType, this`sideIsBid, this`stop,
               this`rowStringIdx, this`row0Len
      ensures Valid() && objectDepth == 0 && arrayDepth == 0 && pending == PNone && rowStringIdx == 0
      ensures !validEventType && !sideIsBid && !stop
    {
      objectDepth, arrayDepth, pending, validEventType := 0, 0, PNone, false;
      sideIsBid, stop, rowStringIdx, row0Len := false, false, 0, 0;
    }

    /** Forgets the previous message without touching the buffers. */
    method Reset()
      requires Valid()
      modifies this
      ensures Valid() && Value() == INITIAL
    {
      ForgetPosition();
      ForgetMessage();
    }

    method AppendLevel(price: u64, quantity: u64) returns (ok: bool)
      requires Valid()
      modifies this`bidN, this`askN, bidPrices, bidQtys, askPrices, askQtys
      ensures Valid()
      ensures ok <==> |SideRows(old(Message()), sideIsBid)| < MAX_LEVELS_PER_SIDE
      ensures Message() == if ok then AddRows(old(Message()), sideIsBid, [Row(price, quantity)]) else old(Message())
      ensures row0[..] == old(row0[..])
    {
      ghost var before := Message();
      if sideIsBid {
        if bidN >= MAX_LEVELS_PER_SIDE {
          return false;
        }
        bidPrices[bidN] := price;
        bidQtys[bidN] := quantity;
        bidN := bidN + 1;
        assert Message().bids == before.bids + [Row(price, quantity)];
      } else {
        if askN >= MAX_LEVELS_PER_SIDE {
          return false;
        }
        askPrices[askN] := price;
        askQtys[askN] := quantity;
        askN := askN + 1;
        assert Message().asks == before.asks + [Row(price, quantity)];
      }
      return true;
    }

    /** The second string of a pair: a level, or the end of the side's levels. */
    method OnQuantity(s: string) returns (ok: bool)
      requires Valid() && !stop && rowStringIdx == 1
      modifies this, bidPrices, bidQtys, askPrices, askQtys
      ensures Valid()
      ensures match RowString(old(Value()), s)
              case None => !ok
              case Some(st) => ok && Value() == st
    {
      var priceOk, price := ParseFixedDecimalString(row0[..row0Len], PRICE_SHIFT);
      var quantityOk, quantity := ParseFixedDecimalString(s, QUANTITY_SHIFT);
      if !priceOk || !quantityOk {
        StopSide();
        return true;
      }
      ok := TakeLevel(price, quantity);
    }

    method StopSide()
      requires Valid()
      modifies this`stop, this`rowStringIdx
      ensures Valid() && Value() == old(Value()).(stop := true, first := None)
    {
      stop := true;
      rowStringIdx := 0;
    }

    method TakeLevel(price: u64, quantity: u64) returns (ok: bool)
      requires Valid()
      modifies this`bidN, this`askN, this`rowStringIdx, bidPrices, bidQtys, askPrices, askQtys
      ensures Valid()
      ensures ok <==> |SideRows(old(Message()), sideIsBid)| < MAX_LEVELS_PER_SIDE
      ensures ok ==> Value() == old(Value()).(first := None, msg := AddRows(old(Message()), sideIsBid, [Row(price, quantity)]))
    {
      ok := AppendLevel(price, quantity);
      rowStringIdx := 0;
    }

    /** A string inside a row: the price, then the quantity. */
    method OnRowString(s: string) returns (ok: bool)
      requires Valid()
      modifies this, row0, bidPrices, bidQtys, askPrices, askQtys
      ensures Valid()
      ensures match RowString(old(Value()), s)
              case None => !ok
              case Some(st) => ok && Value() == st
    {
      if stop {
        return true;
      }
      if rowStringIdx == 1 {
        ok := OnQuantity(s);
        return;
      }
      if |s| > MAX_PRICE_LENGTH {
        stop := true;
        return true;
      }
      forall i | 0 <= i < |s| {
        row0[i] := s[i];
      }
      row0Len := |s|;
      rowStringIdx := 1;
      assert row0[..row0Len] == s;
      return true;
    }

    method OnStringEvent(s: string) returns (ok: bool)
      requires Valid()
      modifies this, row0, bidPrices, bidQtys, askPrices, askQtys
      ensures Valid()
      ensures match OnString(old(Value()), s)
              case None => !ok
              case Some(st) => ok && Value() == st
    {
      if arrayDepth == 2 {
        ok := OnRowString(s);
        return;
      }
      var was := pending;
      pending := PNone;
      match was {
        case PEventType =>
          if s == "depthUpdate" {
            validEventType := true;
            return true;
          }
          return false;
        case PSymbol =>
          symbol := SymbolNamed(s);
          return true;
        case _ =>
          return true;
      }
    }

    method OnNumberEvent(v: u64)
      requires Valid()
      modifies this
      ensures Valid() && Value() == OnNumber(old(Value()), v)
    {
      var was := pending;
      pending := PNone;
      match was {
        case PEventTime => eventTime := ToMicroseconds(v);
        case PFirstUpdateId => firstUpdateId := v;
        case PLastUpdateId => lastUpdateId := v;
        case _ =>
      }
    }

    method OnArrayStart() returns (ok: bool)
      requires Valid()
      modifies this`pending, this`sideIsBid, this`stop, this`arrayDepth, this`rowStringIdx
      ensures Valid()
      ensures match OnStartArray(old(Value()))
              case None => !ok
              case Some(st) => ok && Value() == st
    {
      if arrayDepth == 0 {
        if pending == PBids {
          pending, sideIsBid, stop, arrayDepth := PNone, true, false, 1;
          return true;
        }
        if pending == PAsks {
          pending, sideIsBid, stop, arrayDepth := PNone, false, false, 1;
          return true;
        }
        return false;
      }
      if arrayDepth == 1 {
        arrayDepth := 2;
        rowStringIdx := 0;
        return true;
      }
      return false;
    }

    method OnArrayEnd() returns (ok: bool)
      requires Valid()
      modifies this`stop, this`arrayDepth, this`rowStringIdx
      ensures Valid()
      ensures match OnEndArray(old(Value()))
              case None => !ok
              case Some(st) => ok && Value() == st
    {
      if arrayDepth == 2 {
        if rowStringIdx != 0 {
          stop := true;
        }
        rowStringIdx := 0;
        arrayDepth := 1;
        return true;
      }
      if arrayDepth == 1 {
        arrayDepth := 0;
        return true;
      }
      return false;
    }

    method OnStructure(e: Event) returns (ok: bool)
      requires Valid() && !e.StringEvent? && !e.IntEvent? && !e.UintEvent?
      modifies this
      ensures Valid()
      ensures match Step(old(Value()), e)
              case None => !ok
              case Some(st) => ok && Value() == st
    {
      match e {
        case StartObject =>
          if objectDepth > 0 {
            return false;
          }
          objectDepth := 1;
          return true;
        case Key(k) =>
          if objectDepth != 1 || arrayDepth != 0 {
            return false;
          }
          pending := PendingFor(k);
          return true;
        case EndObject =>
          if objectDepth != 1 {
            return false;
          }
          objectDepth := objectDepth - 1;
          return validEventType;
        case StartArray =>
          ok := OnArrayStart();
        case EndArray =>
          ok := OnArrayEnd();
        case _ =>
          return false;
      }
    }

    /** One event of the reader; false tells it to stop. */
    method Handle(e: Event) returns (ok: bool)
      requires Valid()
      modifies this, row0, bidPrices, bidQtys, askPrices, askQtys
      ensures Valid()
      ensures match Step(old(Value()), e)
              case None => !ok
              case Some(st) => ok && Value() == st
    {
      match e {
        case StringEvent(s) => ok := OnStringEvent(s);
        case IntEvent(i) =>
          OnNumberEvent(AsWord(i));
          ok := true;
        case UintEvent(u) =>
          OnNumberEvent(u);
          ok := true;
        case _ => ok := OnStructure(e);
      }
    }

    /** The buffered levels as updates: bids, then asks, all but the last flagged `hasMore`. */
    method Release() returns (out: seq<OrderBookUpdate>)
      requires Valid()
      ensures out == UpdatesOf(Message())
    {
      out := [];
      var hasAsks := askN > 0;
      for i := 0 to bidN
        invariant out == UpdatesOf(Message())[..i]
      {
        var u := OrderBookUpdate(eventTime, 0, 0, firstUpdateId, lastUpdateId, bidPrices[i], bidQtys[i], Bid, symbol,
                                 hasAsks || i < bidN - 1);
        assert u == UpdateAt(Message(), i);
        out := out + [u];
      }
      for i := 0 to askN
        invariant out == UpdatesOf(Message())[..bidN + i]
      {
        var u := OrderBookUpdate(eventTime, 0, 0, firstUpdateId, lastUpdateId, askPrices[i], askQtys[i], Ask, symbol,
                                 i < askN - 1);
        assert u == UpdateAt(Message(), bidN + i);
        out := out + [u];
      }
      assert out == UpdatesOf(Message());
    }

    /** The reader's loop: events until the handler refuses one. */
    method HandleAll(events: seq<Event>) returns (ok: bool)
      requires Valid()
      modifies this, row0, bidPrices, bidQtys, askPrices, askQtys
      ensures Valid()
      ensures match Run(old(Value()), events)
              case None => !ok
              case Some(st) => ok && Value() == st
    {
      var i := 0;
      assert events[0..] == events;
      while i < |events|
        invariant Valid() && i <= |events|
        invariant Run(old(Value()), events) == Run(Value(), events[i..])
      {
        assert events[i..] == [events[i]] + events[i + 1..];
        RunOne(Value(), events[i], events[i + 1..]);
        ok := Handle(events[i]);
        if !ok {
          return false;
        }
        i := i + 1;
      }
      assert events[i..] == [];
      ok := true;
    }

    /** Parses one document. What the handler accepts and releases depends on the document alone,
        whatever it processed before. */
    method ParseDepthEvent(j: Json) returns (ok: bool, released: seq<OrderBookUpdate>)
      requires Valid()
      modifies this, row0, bidPrices, bidQtys, askPrices, askQtys
      ensures Valid()
      ensures ok == Meaning(j).Some?
      ensures released == match Meaning(j) case None => [] case Some(m) => UpdatesOf(m)
    {
      Reset();
      MachineComputesMeaning(j);
      ok := HandleAll(Events(j));
      released := [];
      if ok {
        released := Release();
      }
    }
  }
}
