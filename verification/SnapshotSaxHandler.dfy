/** The snapshot handler as the object it is: side flags, a row buffer and the snapshot it fills. */
module SnapshotSaxHandler {
  import opened Words
  import opened PriceLevels
  import opened MarketData
  import opened Json
  import opened FixedDecimal
  import D = DepthHandler
  import opened SnapshotHandler

  class SnapshotSaxHandler {
    var objectDepth: nat
    var arrayDepth: nat
    var pending: Pending
    var inBids: bool
    var inAsks: bool
    var bidsDone: bool
    var asksDone: bool
    var rowStringIdx: nat
    const row0: array<char>
    var row0Len: nat
    var lastUpdateId: u64
    var bidsDepth: nat
    var asksDepth: nat
    const bidsPrices: array<u64>
    const bidsQuantities: array<u64>
    const asksPrices: array<u64>
    const asksQuantities: array<u64>

    ghost predicate Valid()
      reads this
    {
      && rowStringIdx <= 1 && row0.Length == D.MAX_PRICE_LENGTH + 1 && row0Len <= D.MAX_PRICE_LENGTH
      && bidsPrices.Length == bidsQuantities.Length == BOOK_DEPTH
      && asksPrices.Length == asksQuantities.Length == BOOK_DEPTH
      && bidsDepth <= BOOK_DEPTH && asksDepth <= BOOK_DEPTH
      && bidsPrices != bidsQuantities && bidsPrices != asksPrices && bidsPrices != asksQuantities
      && bidsQuantities != asksPrices && bidsQuantities != asksQuantities && asksPrices != asksQuantities
      && !(inBids && inAsks)
    }

    ghost function Bids(): SideState
      requires Valid()
      reads this, bidsPrices, bidsQuantities
    {
      SideState(Zipped(bidsPrices[..], bidsQuantities[..], bidsDepth), bidsDone)
    }

    ghost function Asks(): SideState
      requires Valid()
      reads this, asksPrices, asksQuantities
    {
      SideState(Zipped(asksPrices[..], asksQuantities[..], asksDepth), asksDone)
    }

    ghost function First(): Option<string>
      requires Valid()
      reads this, row0
    {
      if rowStringIdx == 1 then Some(row0[..row0Len]) else None
    }

    ghost function Value(): State
      requires Valid()
      reads this, row0, bidsPrices, bidsQuantities, asksPrices, asksQuantities
    {
      State(objectDepth, arrayDepth, pending, inBids, inAsks, First(), lastUpdateId, Bids(), Asks())
    }

    constructor ()
      ensures Valid() && fresh(row0)
      ensures fresh(bidsPrices) && fresh(bidsQuantities) && fresh(asksPrices) && fresh(asksQuantities)
    {
      row0 := new char[D.MAX_PRICE_LENGTH + 1];
      bidsPrices := new u64[BOOK_DEPTH];
      bidsQuantities := new u64[BOOK_DEPTH];
      asksPrices := new u64[BOOK_DEPTH];
      asksQuantities := new u64[BOOK_DEPTH];
      objectDepth, arrayDepth, pending, inBids, inAsks := 0, 0, PNone, false, false;
      bidsDone, asksDone, rowStringIdx, row0Len := false, false, 0, 0;
      lastUpdateId, bidsDepth, asksDepth := 0, 0, 0;
    }

    method ClearLevels()
      requires Valid()
      modifies bidsPrices, bidsQuantities, asksPrices, asksQuantities
    {
      forall i | 0 <= i < BOOK_DEPTH {
        bidsPrices[i] := 0;
      }
      forall i | 0 <= i < BOOK_DEPTH {
        bidsQuantities[i] := 0;
      }
      forall i | 0 <= i < BOOK_DEPTH {
        asksPrices[i] := 0;
      }
      forall i | 0 <= i < BOOK_DEPTH {
        asksQuantities[i] := 0;
      }
    }

    /** Forgets the previous document; the row buffer keeps its characters. */
    method Reset()
      requires Valid()
      modifies this, bidsPrices, bidsQuantities, asksPrices, asksQuantities
      ensures Valid() && Value() == INITIAL
    {
      ClearLevels();
      objectDepth, arrayDepth, pending, inBids, inAsks := 0, 0, PNone, false, false;
      bidsDone, asksDone, rowStringIdx, row0Len := false, false, 0, 0;
      lastUpdateId, bidsDepth, asksDepth := 0, 0, 0;
      ZippedNone(bidsPrices[..], bidsQuantities[..]);
      ZippedNone(asksPrices[..], asksQuantities[..]);
    }

    method CloseSide()
      requires Valid() && (inBids || inAsks)
      modifies this`bidsDone, this`asksDone, this`rowStringIdx
      ensures Valid() && Value() == WithSide(old(Value()), OpenSide(old(Value())).(done := true)).(first := None)
    {
      if inBids {
        bidsDone := true;
      } else {
        asksDone := true;
      }
      rowStringIdx := 0;
    }

    method AppendLevel(price: u64, quantity: u64)
      requires Valid() && (inBids || inAsks)
      requires if inBids then bidsDepth < BOOK_DEPTH else asksDepth < BOOK_DEPTH
      modifies this`bidsDepth, this`asksDepth, bidsPrices, bidsQuantities, asksPrices, asksQuantities
      ensures Valid()
      ensures inBids ==> Asks() == old(Asks()) && Bids() == SideState(old(Bids()).rows + [Row(price, quantity)], bidsDone)
      ensures !inBids ==> Bids() == old(Bids()) && Asks() == SideState(old(Asks()).rows + [Row(price, quantity)], asksDone)
    {
      ghost var bids, asks := Bids(), Asks();
      if inBids {
        bidsPrices[bidsDepth] := price;
        bidsQuantities[bidsDepth] := quantity;
        bidsDepth := bidsDepth + 1;
        assert Bids().rows == bids.rows + [Row(price, quantity)];
      } else {
        asksPrices[asksDepth] := price;
        asksQuantities[asksDepth] := quantity;
        asksDepth := asksDepth + 1;
        assert Asks().rows == asks.rows + [Row(price, quantity)];
      }
    }

    /** The second string of a pair on a side that still takes levels. */
    method OnQuantity(s: string)
      requires Valid() && arrayDepth == 2 && inBids != inAsks && rowStringIdx == 1 && !Closed(OpenSide(Value()))
      modifies this, bidsPrices, bidsQuantities, asksPrices, asksQuantities
      ensures Valid() && OnString(old(Value()), s) == Some(Value())
    {
      var priceOk, price := ParseFixedDecimalString(row0[..row0Len], D.PRICE_SHIFT);
      var quantityOk, quantity := ParseFixedDecimalString(s, D.QUANTITY_SHIFT);
      if !priceOk || !quantityOk {
        CloseSide();
        return;
      }
      TakeLevel(price, quantity);
    }

    method TakeLevel(price: u64, quantity: u64)
      requires Valid() && inBids != inAsks && !Closed(OpenSide(Value()))
      modifies this`bidsDepth, this`asksDepth, this`rowStringIdx, bidsPrices, bidsQuantities, asksPrices, asksQuantities
      ensures Valid()
      ensures var side := OpenSide(old(Value()));
              Value() == WithSide(old(Value()), side.(rows := side.rows + [Row(price, quantity)])).(first := None)
    {
      AppendLevel(price, quantity);
      rowStringIdx := 0;
    }

    /** The first string of a pair on such a side. */
    method OnPrice(s: string)
      requires Valid() && arrayDepth == 2 && inBids != inAsks && rowStringIdx == 0 && !Closed(OpenSide(Value()))
      modifies this, row0
      ensures Valid() && OnString(old(Value()), s) == Some(Value())
    {
      if |s| > D.MAX_PRICE_LENGTH {
        CloseSide();
        return;
      }
      forall i | 0 <= i < |s| {
        row0[i] := s[i];
      }
      row0Len := |s|;
      rowStringIdx := 1;
      assert row0[..row0Len] == s;
      assert First() == Some(s) && Bids() == old(Bids()) && Asks() == old(Asks());
    }

    method OnStringEvent(s: string) returns (ok: bool)
      requires Valid()
      modifies this, row0, bidsPrices, bidsQuantities, asksPrices, asksQuantities
      ensures Valid()
      ensures match OnString(old(Value()), s)
              case None => !ok
              case Some(st) => ok && Value() == st
    {
      if arrayDepth == 2 {
        if (inBids && bidsDone) || (inAsks && asksDone) {
          return true;
        }
        if inBids {
          if bidsDepth >= BOOK_DEPTH {
            return true;
          }
        } else if inAsks {
          if asksDepth >= BOOK_DEPTH {
            return true;
          }
        } else {
          return false;
        }
        if rowStringIdx == 0 {
          OnPrice(s);
        } else {
          OnQuantity(s);
        }
        return true;
      }
      pending := PNone;
      return true;
    }

    method OnNumberEvent(v: u64)
      requires Valid()
      modifies this`pending, this`lastUpdateId
      ensures Valid() && Value() == OnNumber(old(Value()), v)
    {
      if pending.PLastUpdateId? {
        lastUpdateId := v;
      }
      pending := PNone;
    }

    method OnArrayStart() returns (ok: bool)
      requires Valid()
      modifies this
      ensures Valid()
      ensures match OnStartArray(old(Value()))
              case None => !ok
              case Some(st) => ok && Value() == st
    {
      if objectDepth != 1 {
        return false;
      }
      if pending.PBids? {
        pending, inBids, inAsks, arrayDepth := PNone, true, false, arrayDepth + 1;
        return true;
      }
      if pending.PAsks? {
        pending, inBids, inAsks, arrayDepth := PNone, false, true, arrayDepth + 1;
        return true;
      }
      if arrayDepth == 1 {
        arrayDepth := arrayDepth + 1;
        rowStringIdx := 0;
        return true;
      }
      return false;
    }

    method OnArrayEnd() returns (ok: bool)
      requires Valid()
      modifies this
      ensures Valid()
      ensures match OnEndArray(old(Value()))
              case None => !ok
              case Some(st) => ok && Value() == st
    {
      if arrayDepth == 2 {
        rowStringIdx := 0;
        arrayDepth := arrayDepth - 1;
        return true;
      }
      if arrayDepth == 1 {
        arrayDepth, inBids, inAsks := arrayDepth - 1, false, false;
        return true;
      }
      return false;
    }

    /** One event of the reader; false tells it to stop. */
    method Handle(e: Event) returns (ok: bool)
      requires Valid()
      modifies this, row0, bidsPrices, bidsQuantities, asksPrices, asksQuantities
      ensures Valid()
      ensures match Step(old(Value()), e)
              case None => !ok
              case Some(st) => ok && Value() == st
    {
      ok := true;
      match e {
        case StringEvent(s) => ok := OnStringEvent(s);
        case IntEvent(i) => OnNumberEvent(AsWord(i));
        case UintEvent(u) => OnNumberEvent(u);
        case StartArray => ok := OnArrayStart();
        case EndArray => ok := OnArrayEnd();
        case StartObject =>
          if objectDepth > 0 {
            return false;
          }
          objectDepth := objectDepth + 1;
        case Key(k) =>
          if objectDepth != 1 || arrayDepth != 0 {
            return false;
          }
          pending := PendingFor(k);
        case EndObject =>
          if objectDepth != 1 {
            return false;
          }
          objectDepth := objectDepth - 1;
          ok := arrayDepth == 0;
        case _ => ok := false;
      }
    }

    method HandleAll(events: seq<Event>) returns (ok: bool)
      requires Valid()
      modifies this, row0, bidsPrices, bidsQuantities, asksPrices, asksQuantities
      ensures Valid()
      ensures match Run(old(Value()), events)
              case None => !ok
              case Some(st) => ok && Value() == st
    {
      var i := 0;
      assert events[0..] == events;
      while i < |events|
        invariant Valid() && i <= |events|
        invariant Run(old(Value()), events) == Run(Value(), events[i..])
      {
        assert events[i..] == [events[i]] + events[i + 1..];
        RunOne(Value(), events[i], events[i + 1..]);
        ok := Handle(events[i]);
        if !ok {
          return false;
        }
        i := i + 1;
      }
      assert events[i..] == [];
      ok := true;
    }

    /** The kept levels, column by column, as rows. */
    method Released() returns (r: Reply)
      requires Valid()
      ensures r == Snapshot(lastUpdateId, Bids().rows, Asks().rows)
    {
      var bids: seq<Row> := [];
      for i := 0 to bidsDepth
        invariant bids == Bids().rows[..i]
      {
        bids := bids + [Row(bidsPrices[i], bidsQuantities[i])];
      }
      var asks: seq<Row> := [];
      for i := 0 to asksDepth
        invariant asks == Asks().rows[..i]
      {
        asks := asks + [Row(asksPrices[i], asksQuantities[i])];
      }
      return Snapshot(lastUpdateId, bids, asks);
    }

    /** Parses one snapshot document; the reply depends on the document alone. */
    method ParseOrderBookSnapshot(j: Json) returns (r: Reply)
      requires Valid()
      modifies this, row0, bidsPrices, bidsQuantities, asksPrices, asksQuantities
      ensures Valid()
      ensures r == Meaning(j)
    {
      if !j.Obj? {
        return Unusable;
      }
      Reset();
      MachineComputesMeaning(j.members);
      var ok := HandleAll(Events(j));
      if !ok {
        return Unusable;
      }
      r := Released();
    }
  }
}
