/** The local order book: two bounded ladders kept sorted in place. */
module OrderBook {
  import opened Words
  import opened PriceLevels

  class OrderBookSide {
    const order: SideOrder
    const depth: nat
    const rows: array<Row>
    var count: nat

    ghost predicate Valid()
      reads this
    {
      depth > 0 && rows.Length == depth && count <= depth
    }

    ghost function Rows(): (r: seq<Row>)
      requires Valid()
      reads this, rows
      ensures |r| == count
    {
      rows[..count]
    }

    constructor (order: SideOrder, depth: nat)
      requires depth > 0
      ensures Valid() && fresh(rows) && this.order == order && this.depth == depth
      ensures Rows() == []
    {
      this.order := order;
      this.depth := depth;
      rows := new Row[depth];
      count := 0;
    }

    method Init(prices: seq<u64>, quantities: seq<u64>, n: nat)
      requires Valid() && n <= |prices| && n <= |quantities|
      modifies this`count, rows
      ensures Valid()
      ensures Rows() == Zipped(prices, quantities, Min(n, depth))
      ensures forall i :: 0 <= i < Min(n, depth) ==> Rows()[i].price == prices[i] && Rows()[i].quantity == quantities[i]
    {
      count := n;
      if count > depth {
        count := depth;
      }
      for i := 0 to count
        invariant count == Min(n, depth)
        invariant rows[..i] == Zipped(prices, quantities, count)[..i]
      {
        rows[i] := Row(prices[i], quantities[i]);
      }
    }

    /** The position of the first row that is not better than the price, by halving. */
    method FindLowerBound(price: u64) returns (pos: nat)
      requires Valid() && Sorted(order, Rows())
      ensures pos == LowerBound(order, Rows(), price)
    {
      pos := 0;
      var len := count;
      while len > 0
        invariant pos + len <= count
        invariant forall i :: 0 <= i < pos ==> Better(order, rows[i].price, price)
        invariant pos + len < count ==> !Better(order, rows[pos + len].price, price)
      {
        var half := len / 2;
        var mid := pos + half;
        if Better(order, rows[mid].price, price) {
          assert forall i :: 0 <= i < mid ==> Better(order, Rows()[i].price, Rows()[mid].price);
          pos := mid + 1;
          len := len - half - 1;
        } else {
          len := half;
        }
      }
    }

    method RemoveAt(index: nat)
      requires Valid() && index < count
      modifies this`count, rows
      ensures Valid()
      ensures Rows() == old(Rows())[..index] + old(Rows())[index + 1..]
    {
      forall i | index <= i < count - 1 {
        rows[i] := rows[i + 1];
      }
      count := count - 1;
    }

    /** Inserts a row; a full ladder drops its last row, or the new one when it belongs after it. */
    method InsertAt(pos: nat, price: u64, quantity: u64)
      requires Valid()
      modifies this`count, rows
      ensures Valid()
      ensures pos > old(count) ==> Rows() == old(Rows())
      ensures pos <= old(count) ==>
                var r := old(Rows())[..pos] + [Row(price, quantity)] + old(Rows())[pos..];
                Rows() == if |r| <= depth then r else r[..depth]
    {
      if pos > count {
        return;
      }
      ghost var before := Rows();
      ghost var all := before[..pos] + [Row(price, quantity)] + before[pos..];
      if count < depth {
        forall i | pos <= i < count {
          rows[i + 1] := rows[i];
        }
        rows[pos] := Row(price, quantity);
        count := count + 1;
        forall k | 0 <= k < count ensures Rows()[k] == all[k] {
          InsertedAt(before, pos, Row(price, quantity), k);
        }
        assert Rows() == all;
        return;
      }
      if pos >= depth {
        assert Rows() == before == all[..depth];
        return;
      }
      forall i | pos <= i < depth - 1 {
        rows[i + 1] := rows[i];
      }
      rows[pos] := Row(price, quantity);
      forall k | 0 <= k < depth ensures Rows()[k] == all[k] {
        InsertedAt(before, pos, Row(price, quantity), k);
      }
      assert Rows() == all[..depth];
    }

    /** Binary search and in-place shifts compute the best `depth` levels of the updated map. */
    method Update(price: u64, quantity: u64)
      requires Valid() && Sorted(order, Rows())
      modifies this`count, rows
      ensures Valid()
      ensures Rows() == UpdateRows(order, depth, old(Rows()), price, quantity)
      ensures FallsOrRises(order, Rows())
    {
      ghost var before := Rows();
      UpdateByPrice(order, depth, before, price, quantity);
      var pos := FindLowerBound(price);
      UpdateRowsSplices(order, depth, before, price, quantity);
      var listed := pos != count && rows[pos].price == price;
      assert listed == ListedAt(before, pos, price);
      SplicedCases(before, pos, price, quantity);
      if quantity == 0 {
        if listed {
          RemoveAt(pos);
        }
        return;
      }
      if listed {
        rows[pos] := Row(price, quantity);
        assert Rows() == before[pos := Row(price, quantity)];
        return;
      }
      InsertAt(pos, price, quantity);
    }

    method GetBest() returns (r: Row)
      requires Valid()
      ensures r == BestRow(Rows())
      ensures Rows() == [] ==> r == Row(0, 0)
      ensures Rows() != [] && Sorted(order, Rows()) ==> r in Rows() && forall i :: 0 <= i < |Rows()| ==>
                if order == PriceDescending then Rows()[i].price <= r.price else Rows()[i].price >= r.price
    {
      if count == 0 {
        return Row(0, 0);
      }
      SortedByPrice(order, Rows());
      assert Rows()[0] == rows[0];
      return rows[0];
    }

    method GetTop(n: nat) returns (r: seq<Row>)
      requires Valid()
      ensures r == Rows()[..Min(n, |Rows()|)]
    {
      if n == 0 || count == 0 {
        return [];
      }
      return rows[..Min(n, count)];
    }
  }

  lemma InsertedAt(rows: seq<Row>, pos: nat, r: Row, k: nat)
    requires pos <= |rows| && k <= |rows|
    ensures (rows[..pos] + [r] + rows[pos..])[k] == if k < pos then rows[k] else if k == pos then r else rows[k - 1]
  {}

  /** The best row, or a row of zeros when the side is empty. */
  function BestRow(rows: seq<Row>): Row {
    if rows == [] then Row(0, 0) else rows[0]
  }

  /** The contents of a book. */
  datatype Book = Book(lastUpdateId: u64, bids: seq<Row>, asks: seq<Row>)

  ghost predicate BookOk(b: Book, depth: nat) {
    && Sorted(PriceDescending, b.bids) && Sorted(PriceAscending, b.asks)
    && |b.bids| <= depth && |b.asks| <= depth
  }

  ghost function WithBid(b: Book, depth: nat, id: u64, price: u64, quantity: u64): Book {
    Book(id, UpdateRows(PriceDescending, depth, b.bids, price, quantity), b.asks)
  }

  ghost function WithAsk(b: Book, depth: nat, id: u64, price: u64, quantity: u64): Book {
    Book(id, b.bids, UpdateRows(PriceAscending, depth, b.asks, price, quantity))
  }

  class OrderBook {
    const depth: nat
    const bids: OrderBookSide
    const asks: OrderBookSide
    var lastUpdateId: u64

    ghost predicate Valid()
      reads this, bids, asks
    {
      && bids != asks && bids.rows != asks.rows
      && bids.Valid() && asks.Valid() && bids.depth == asks.depth == depth
      && bids.order == PriceDescending && asks.order == PriceAscending
    }

    ghost function Contents(): Book
      requires Valid()
      reads this, bids, bids.rows, asks, asks.rows
    {
      Book(lastUpdateId, bids.Rows(), asks.Rows())
    }

    constructor (depth: nat)
      requires depth > 0
      ensures Valid() && this.depth == depth && Contents() == Book(0, [], [])
      ensures fresh(bids) && fresh(bids.rows) && fresh(asks) && fresh(asks.rows)
    {
      this.depth := depth;
      bids := new OrderBookSide(PriceDescending, depth);
      asks := new OrderBookSide(PriceAscending, depth);
      lastUpdateId := 0;
    }

    method Init(id: u64, bidPrices: seq<u64>, bidQuantities: seq<u64>, bidsDepth: nat,
                askPrices: seq<u64>, askQuantities: seq<u64>, asksDepth: nat)
      requires Valid()
      requires bidsDepth <= |bidPrices| && bidsDepth <= |bidQuantities|
      requires asksDepth <= |askPrices| && asksDepth <= |askQuantities|
      modifies this`lastUpdateId, bids`count, bids.rows, asks`count, asks.rows
      ensures Valid()
      ensures Contents() == Book(id, Zipped(bidPrices, bidQuantities, Min(bidsDepth, depth)),
                                 Zipped(askPrices, askQuantities, Min(asksDepth, depth)))
    {
      lastUpdateId := id;
      bids.Init(bidPrices, bidQuantities, bidsDepth);
      asks.Init(askPrices, askQuantities, asksDepth);
    }

    method UpdateBid(id: u64, price: u64, quantity: u64)
      requires Valid() && Sorted(PriceDescending, bids.Rows())
      modifies this`lastUpdateId, bids`count, bids.rows
      ensures Valid()
      ensures Contents() == WithBid(old(Contents()), depth, id, price, quantity)
      ensures forall i, j :: 0 <= i < j < |bids.Rows()| ==> bids.Rows()[i].price > bids.Rows()[j].price
    {
      lastUpdateId := id;
      bids.Update(price, quantity);
    }

    method UpdateAsk(id: u64, price: u64, quantity: u64)
      requires Valid() && Sorted(PriceAscending, asks.Rows())
      modifies this`lastUpdateId, asks`count, asks.rows
      ensures Valid()
      ensures Contents() == WithAsk(old(Contents()), depth, id, price, quantity)
      ensures forall i, j :: 0 <= i < j < |asks.Rows()| ==> asks.Rows()[i].price < asks.Rows()[j].price
    {
      lastUpdateId := id;
      asks.Update(price, quantity);
    }
  }
}
