/** The trade handler and the combined-stream wrapper as the objects they are. */
module CombinedSaxHandler {
  import opened Words
  import opened MarketData
  import opened Json
  import opened FixedDecimal
  import opened CombinedHandler
  import D = DepthHandler
  import opened DepthSaxHandler

  class TradeSaxHandler {
    var objectDepth: nat
    var pending: TradePending
    var validEventType: bool
    var havePrice: bool
    var haveQuantity: bool
    var haveBuyerMaker: bool
    var out: Trade

    ghost function Value(): TradeState
      reads this
    {
      TradeState(objectDepth, pending, validEventType, havePrice, haveQuantity, haveBuyerMaker, out)
    }

    constructor ()
      ensures Value() == INITIAL_TRADE
    {
      objectDepth, pending, validEventType := 0, TNone, false;
      havePrice, haveQuantity, haveBuyerMaker, out := false, false, false, EMPTY_TRADE;
    }

    method Reset()
      modifies this
      ensures Value() == INITIAL_TRADE
    {
      objectDepth, pending, validEventType := 0, TNone, false;
      havePrice, haveQuantity, haveBuyerMaker, out := false, false, false, EMPTY_TRADE;
    }

    method OnString(s: string) returns (ok: bool)
      modifies this
      ensures match TradeString(old(Value()), s)
              case None => !ok
              case Some(t) => ok && Value() == t
    {
      var was := pending;
      pending := TNone;
      ok := true;
      match was {
        case TEventType =>
          if s != "trade" {
            return false;
          }
          validEventType := true;
        case TSymbol =>
          out := out.(symbol := D.SymbolNamed(s));
        case TPrice =>
          var parsed, v := ParseFixedDecimalString(s, D.PRICE_SHIFT);
          if !parsed {
            return false;
          }
          out := out.(price := v);
          havePrice := true;
        case TQuantity =>
          var parsed, v := ParseFixedDecimalString(s, D.QUANTITY_SHIFT);
          if !parsed {
            return false;
          }
          out := out.(quantity := v);
          haveQuantity := true;
        case _ =>
      }
    }

    method OnNumber(v: u64)
      modifies this
      ensures Value() == TradeNumber(old(Value()), v)
    {
      if pending.TEventTime? {
        out := out.(eventTime := D.ToMicroseconds(v));
      }
      pending := TNone;
    }

    method OnBool(b: bool)
      modifies this
      ensures Value() == TradeBool(old(Value()), b)
    {
      if pending.TBuyerMaker? {
        out := out.(isBuyerMaker := b);
        haveBuyerMaker := true;
      }
      pending := TNone;
    }

    method Handle(e: Event) returns (ok: bool)
      modifies this
      ensures match TradeStep(old(Value()), e)
              case None => !ok
              case Some(t) => ok && Value() == t
    {
      ok := true;
      match e {
        case StringEvent(s) => ok := OnString(s);
        case IntEvent(i) => OnNumber(AsWord(i));
        case UintEvent(u) => OnNumber(u);
        case BoolEvent(b) => OnBool(b);
        case StartObject =>
          if objectDepth > 0 {
            return false;
          }
          objectDepth := 1;
        case Key(k) =>
          if objectDepth != 1 {
            return false;
          }
          pending := TradePendingFor(k);
        case EndObject =>
          if objectDepth != 1 {
            return false;
          }
          objectDepth := objectDepth - 1;
          ok := validEventType && havePrice && haveQuantity && haveBuyerMaker;
        case NullEvent => ok := false;
        case DoubleEvent => ok := false;
        case _ =>
      }
    }
  }

  class CombinedSaxHandler {
    var rootDepth: nat
    var pendingStream: bool
    var haveStream: bool
    var stream: string
    var expectData: bool
    var sawData: bool
    var inData: bool
    var dataIsDepth: bool
    var pendingRelease: bool
    var releaseIsDepth: bool
    const depth: DepthSaxHandler
    const trade: TradeSaxHandler

    ghost predicate Valid()
      reads this, depth
    {
      depth.Valid()
    }

    ghost function Value(): State
      requires Valid()
      reads this, trade, depth, depth.row0, depth.bidPrices, depth.bidQtys, depth.askPrices, depth.askQtys
    {
      State(rootDepth, pendingStream, haveStream, stream, expectData, sawData, inData, dataIsDepth,
            pendingRelease, releaseIsDepth, depth.Value(), trade.Value())
    }

    constructor ()
      ensures Valid() && fresh(depth) && fresh(trade)
    {
      depth := new DepthSaxHandler();
      trade := new TradeSaxHandler();
      rootDepth, pendingStream, haveStream, stream := 0, false, false, [];
      expectData, sawData, inData, dataIsDepth := false, false, false, false;
      pendingRelease, releaseIsDepth := false, false;
    }

    method ResetEnvelope()
      modifies this
      ensures rootDepth == 0 && !pendingStream && !haveStream && stream == []
      ensures !expectData && !sawData && !inData && !dataIsDepth && !pendingRelease && !releaseIsDepth
    {
      rootDepth, pendingStream, haveStream, stream := 0, false, false, [];
      expectData, sawData, inData, dataIsDepth := false, false, false, false;
      pendingRelease, releaseIsDepth := false, false;
    }

    method Reset()
      requires Valid()
      modifies this, depth, trade
      ensures Valid() && Value() == INITIAL
    {
      ResetEnvelope();
      trade.Reset();
      depth.Reset();
    }

    method Pass(e: Event) returns (ok: bool)
      requires Valid()
      modifies trade, depth, depth.row0, depth.bidPrices, depth.bidQtys, depth.askPrices, depth.askQtys
      ensures Valid()
      ensures match Delegate(old(Value()), e)
              case None => !ok
              case Some(c) => ok && Value() == c
    {
      if dataIsDepth {
        ok := depth.Handle(e);
      } else {
        ok := trade.Handle(e);
      }
    }

    /** Which handler reads the data object is decided here. */
    method EnterData()
      requires Valid()
      modifies this`sawData, this`inData, this`dataIsDepth
      ensures Valid()
      ensures Value() == old(Value()).(sawData := true, inData := true, dataIsDepth := IsDepthStream(stream))
    {
      sawData := true;
      inData := true;
      dataIsDepth := IsDepthStream(stream);
    }

    method OnObjectStart() returns (ok: bool)
      requires Valid()
      modifies this, trade, depth, depth.row0, depth.bidPrices, depth.bidQtys, depth.askPrices, depth.askQtys
      ensures Valid()
      ensures match OnStartObject(old(Value()))
              case None => !ok
              case Some(c) => ok && Value() == c
    {
      if expectData {
        expectData := false;
        if !haveStream {
          return false;
        }
        if !IsDepthStream(stream) && !IsTradeStream(stream) {
          return false;
        }
        EnterData();
        ok := Pass(StartObject);
        return;
      }
      if inData {
        return false;
      }
      rootDepth := rootDepth + 1;
      return true;
    }

    method OnObjectEnd() returns (ok: bool)
      requires Valid()
      modifies this, trade, depth, depth.row0, depth.bidPrices, depth.bidQtys, depth.askPrices, depth.askQtys
      ensures Valid()
      ensures match OnEndObject(old(Value()))
              case None => !ok
              case Some(c) => ok && Value() == c
    {
      if inData {
        ok := Pass(EndObject);
        if !ok {
          return false;
        }
        pendingRelease := true;
        releaseIsDepth := dataIsDepth;
        inData := false;
        return true;
      }
      if rootDepth > 0 {
        rootDepth := rootDepth - 1;
      }
      return true;
    }

    method OnRootKey(k: string)
      requires Valid() && !inData
      modifies this`pendingStream, this`expectData
      ensures Valid() && Step(old(Value()), Key(k)) == Some(Value())
    {
      if k == "stream" {
        pendingStream := true;
      } else if k == "data" {
        expectData := true;
      }
    }

    method OnRootString(s: string)
      requires Valid() && !inData && !expectData
      modifies this`pendingStream, this`stream, this`haveStream
      ensures Valid() && Step(old(Value()), StringEvent(s)) == Some(Value())
    {
      if pendingStream {
        pendingStream := false;
        stream := s[..Min(|s|, MAX_STREAM_LENGTH)];
        haveStream := true;
      }
    }

    /** One event of the reader; false tells it to stop. */
    method Handle(e: Event) returns (ok: bool)
      requires Valid()
      modifies this, trade, depth, depth.row0, depth.bidPrices, depth.bidQtys, depth.askPrices, depth.askQtys
      ensures Valid()
      ensures match Step(old(Value()), e)
              case None => !ok
              case Some(c) => ok && Value() == c
    {
      if e.StartObject? {
        ok := OnObjectStart();
      } else if e.EndObject? {
        ok := OnObjectEnd();
      } else if e.Key? && !inData {
        OnRootKey(e.k);
        ok := true;
      } else if e.StringEvent? && !inData && !expectData {
        OnRootString(e.s);
        ok := true;
      } else if e.NullEvent? || e.DoubleEvent? || !inData
                || (expectData && !e.Key? && !e.EndArray?) || (e.BoolEvent? && dataIsDepth) {
        ok := false;
      } else {
        ok := Pass(e);
      }
    }

    method HandleAll(events: seq<Event>) returns (ok: bool)
      requires Valid()
      modifies this, trade, depth, depth.row0, depth.bidPrices, depth.bidQtys, depth.askPrices, depth.askQtys
      ensures Valid()
      ensures match Run(old(Value()), events)
              case None => !ok
              case Some(c) => ok && Value() == c
    {
      var i := 0;
      assert events[0..] == events;
      while i < |events|
        invariant Valid() && i <= |events|
        invariant Run(old(Value()), events) == Run(Value(), events[i..])
      {
        assert events[i..] == [events[i]] + events[i + 1..];
        RunOne(Value(), events[i], events[i + 1..]);
        ok := Handle(events[i]);
        if !ok {
          return false;
        }
        i := i + 1;
      }
      assert events[i..] == [];
      ok := true;
    }

    /** Parses one document of the combined stream; the outcome depends on the document alone. */
    method ParseEvent(j: Json) returns (ok: bool, released: Released)
      requires Valid()
      modifies this, trade, depth, depth.row0, depth.bidPrices, depth.bidQtys, depth.askPrices, depth.askQtys
      ensures Valid()
      ensures ParsedEvent(j) == if ok then Some(released) else None
      ensures !ok ==> released == Nothing
    {
      Reset();
      ok := HandleAll(Events(j));
      released := Nothing;
      if !ok || !haveStream || !sawData {
        return false, Nothing;
      }
      if pendingRelease {
        if releaseIsDepth {
          var updates := depth.Release();
          released := DepthUpdates(updates);
        } else {
          released := TradeRecord(trade.out);
        }
        pendingRelease := false;
      }
    }
  }
}
