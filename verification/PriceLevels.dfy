/** One side of a book as an unbounded price-to-quantity map, its sorted list of levels, and how
    exact a ladder of bounded depth stays. */
module PriceLevels {
  import opened Words

  datatype Row = Row(price: u64, quantity: u64)

  /** Rows kept as two parallel columns. */
  ghost function Zipped(prices: seq<u64>, quantities: seq<u64>, n: nat): (rows: seq<Row>)
    requires n <= |prices| && n <= |quantities|
    ensures |rows| == n
  {
    seq(n, i requires 0 <= i < n => Row(prices[i], quantities[i]))
  }

  lemma ZippedNone(prices: seq<u64>, quantities: seq<u64>)
    ensures Zipped(prices, quantities, 0) == []
  {}

  datatype SideOrder = PriceAscending | PriceDescending

  type Levels = map<u64, u64>

  /** The comparator of the side: a strictly better price sorts first. */
  predicate Better(o: SideOrder, a: u64, b: u64) {
    match o
    case PriceAscending => a < b
    case PriceDescending => a > b
  }

  ghost predicate Sorted(o: SideOrder, rows: seq<Row>) {
    forall i, j :: 0 <= i < j < |rows| ==> Better(o, rows[i].price, rows[j].price)
  }

  /** Setting a level: quantity zero deletes it. */
  function SetLevel(m: Levels, price: u64, quantity: u64): Levels {
    if quantity == 0 then m - {price} else m[price := quantity]
  }

  /** The map that a list of rows lists. */
  ghost function LevelsOf(rows: seq<Row>): Levels {
    if rows == [] then map[] else LevelsOf(rows[1..])[rows[0].price := rows[0].quantity]
  }

  ghost predicate IsBest(o: SideOrder, m: Levels, p: u64) {
    p in m && forall q :: q in m && q != p ==> Better(o, p, q)
  }

  lemma {:induction false} BestExists(o: SideOrder, m: Levels)
    requires m != map[]
    ensures exists p :: IsBest(o, m, p)
    decreases |m|
  {
    var p :| p in m;
    var rest := m - {p};
    if rest == map[] {
      assert forall q :: q in m ==> q in rest || q == p;
      assert IsBest(o, m, p);
    } else {
      BestExists(o, rest);
      var b :| IsBest(o, rest, b);
      assert forall q :: q in m ==> q in rest || q == p;
      assert IsBest(o, m, if Better(o, p, b) then p else b);
    }
  }

  ghost function Best(o: SideOrder, m: Levels): (p: u64)
    requires m != map[]
    ensures IsBest(o, m, p)
  {
    BestExists(o, m);
    var p :| IsBest(o, m, p);
    p
  }

  /** The best `d` levels of the map, best first: what a ladder of depth `d` should show. */
  ghost function Top(o: SideOrder, d: nat, m: Levels): (rows: seq<Row>)
    decreases d
  {
    if d == 0 || m == map[] then []
    else
      var p := Best(o, m);
      [Row(p, m[p])] + Top(o, d - 1, m - {p})
  }

  // ---- Facts about lists and maps ----

  ghost predicate ListedIn(rows: seq<Row>, m: Levels) {
    forall i :: 0 <= i < |rows| ==> rows[i].price in m && m[rows[i].price] == rows[i].quantity
  }

  ghost predicate Lists(rows: seq<Row>, p: u64) {
    exists i :: 0 <= i < |rows| && rows[i].price == p
  }

  lemma ListsHeadOrTail(rows: seq<Row>, p: u64)
    requires rows != []
    ensures Lists(rows, p) <==> rows[0].price == p || Lists(rows[1..], p)
  {
    if Lists(rows[1..], p) {
      var i :| 0 <= i < |rows[1..]| && rows[1..][i].price == p;
      assert rows[i + 1].price == p;
    }
    if Lists(rows, p) {
      var i :| 0 <= i < |rows| && rows[i].price == p;
      assert i > 0 ==> rows[1..][i - 1].price == p;
    }
  }

  lemma {:induction false} LevelsOfListed(o: SideOrder, rows: seq<Row>)
    requires Sorted(o, rows)
    ensures ListedIn(rows, LevelsOf(rows))
    ensures forall p :: p in LevelsOf(rows) <==> Lists(rows, p)
    ensures |LevelsOf(rows)| == |rows|
  {
    if rows != [] {
      LevelsOfListed(o, rows[1..]);
      var rest := LevelsOf(rows[1..]);
      assert rows[0].price !in rest;
      forall i | 0 <= i < |rows|
        ensures rows[i].price in LevelsOf(rows) && LevelsOf(rows)[rows[i].price] == rows[i].quantity
      {
        if i > 0 {
          assert rows[i] == rows[1..][i - 1];
        }
      }
      forall p ensures p in LevelsOf(rows) <==> Lists(rows, p) {
        ListsHeadOrTail(rows, p);
      }
    }
  }

  /** A sorted list is determined by its map, whatever way the map is written. */
  lemma LevelsOfIs(o: SideOrder, rows: seq<Row>, m: Levels)
    requires Sorted(o, rows) && ListedIn(rows, m)
    requires forall p :: p in m ==> Lists(rows, p)
    ensures LevelsOf(rows) == m
  {
    LevelsOfListed(o, rows);
    var k := LevelsOf(rows);
    forall p | p in m ensures p in k && k[p] == m[p] {
      var i :| 0 <= i < |rows| && rows[i].price == p;
    }
    forall p | p in k ensures p in m {
      var i :| 0 <= i < |rows| && rows[i].price == p;
    }
  }

  lemma HeadIsBest(o: SideOrder, rows: seq<Row>)
    requires Sorted(o, rows) && rows != []
    ensures IsBest(o, LevelsOf(rows), rows[0].price)
  {
    LevelsOfListed(o, rows);
    assert Lists(rows, rows[0].price);
    forall q | q in LevelsOf(rows) && q != rows[0].price ensures Better(o, rows[0].price, q) {
      assert Lists(rows, q);
      var i :| 0 <= i < |rows| && rows[i].price == q;
      assert 0 < i;
    }
  }

  lemma BestOfSorted(o: SideOrder, rows: seq<Row>)
    requires Sorted(o, rows) && rows != []
    ensures LevelsOf(rows) != map[] && Best(o, LevelsOf(rows)) == rows[0].price
    ensures LevelsOf(rows) - {rows[0].price} == LevelsOf(rows[1..])
    ensures LevelsOf(rows)[rows[0].price] == rows[0].quantity
  {
    HeadIsBest(o, rows);
    HeadNotInTail(o, rows);
    var tail := LevelsOf(rows[1..]);
    assert LevelsOf(rows) == tail[rows[0].price := rows[0].quantity];
    assert LevelsOf(rows) - {rows[0].price} == tail;
  }

  lemma HeadNotInTail(o: SideOrder, rows: seq<Row>)
    requires Sorted(o, rows) && rows != []
    ensures rows[0].price !in LevelsOf(rows[1..])
  {
    var tail := rows[1..];
    assert forall i :: 0 <= i < |tail| ==> tail[i] == rows[i + 1];
    LevelsOfListed(o, tail);
  }

  /** The best levels of a sorted list are its first rows. */
  lemma {:induction false} TopOfSorted(o: SideOrder, d: nat, rows: seq<Row>)
    requires Sorted(o, rows)
    ensures Top(o, d, LevelsOf(rows)) == rows[..Min(d, |rows|)]
    decreases d
  {
    if d != 0 && rows != [] {
      BestOfSorted(o, rows);
      TopOfSorted(o, d - 1, rows[1..]);
      assert Top(o, d, LevelsOf(rows)) == [rows[0]] + Top(o, d - 1, LevelsOf(rows[1..]));
      PrefixUnfolds(rows, Min(d, |rows|));
    }
  }

  lemma PrefixUnfolds(rows: seq<Row>, n: nat)
    requires 0 < n <= |rows|
    ensures rows[..n] == [rows[0]] + rows[1..][..n - 1]
  {}

  /** Taking the best level off a map and off its top list. */
  lemma TopUnfolds(o: SideOrder, d: nat, m: Levels)
    requires d > 0 && m != map[]
    ensures var p := Best(o, m);
            && Top(o, d, m) == [Row(p, m[p])] + Top(o, d - 1, m - {p})
            && |m - {p}| == |m| - 1
            && forall q :: q in m ==> q == p || (q in m - {p} && Better(o, p, q))
  {
    var p := Best(o, m);
    var rest := m - {p};
    assert rest.Keys == m.Keys - {p};
    assert |m.Keys| == |m| && |rest.Keys| == |rest|;
  }

  ghost predicate Represents(o: SideOrder, rows: seq<Row>, m: Levels, n: nat) {
    Sorted(o, rows) && ListedIn(rows, m) && |rows| == n
  }

  lemma {:induction false} TopIsSorted(o: SideOrder, d: nat, m: Levels)
    ensures Represents(o, Top(o, d, m), m, Min(d, |m|))
    decreases d
  {
    if d == 0 {
    } else if m == map[] {
      assert Top(o, d, m) == [];
      assert |m| == 0;
    } else {
      TopIsSorted(o, d - 1, m - {Best(o, m)});
      TopStep(o, d, m);
    }
  }

  lemma TopStep(o: SideOrder, d: nat, m: Levels)
    requires d > 0 && m != map[]
    requires var rest := m - {Best(o, m)}; Represents(o, Top(o, d - 1, rest), rest, Min(d - 1, |rest|))
    ensures Represents(o, Top(o, d, m), m, Min(d, |m|))
  {
    TopUnfolds(o, d, m);
    var p := Best(o, m);
    ConsBest(o, p, Top(o, d - 1, m - {p}), m, Min(d - 1, |m - {p}|));
  }

  lemma ConsBest(o: SideOrder, p: u64, rows: seq<Row>, m: Levels, n: nat)
    requires IsBest(o, m, p) && Represents(o, rows, m - {p}, n)
    ensures Represents(o, [Row(p, m[p])] + rows, m, n + 1)
  {
    forall i | 0 <= i < |rows| ensures Better(o, p, rows[i].price) && ListedIn([rows[i]], m) {
      assert rows[i].price in m - {p};
    }
  }

  /** A level that is not among the best `d` is worse than `d` others. */
  lemma {:induction false} MissingIsWorse(o: SideOrder, d: nat, m: Levels, q: u64)
    requires q in m && !Lists(Top(o, d, m), q)
    ensures |Top(o, d, m)| == d && forall i :: 0 <= i < d ==> Better(o, Top(o, d, m)[i].price, q)
    decreases d
  {
    if d > 0 {
      TopUnfolds(o, d, m);
      var p := Best(o, m);
      var t, u := Top(o, d, m), Top(o, d - 1, m - {p});
      ListsHeadOrTail(t, q);
      assert t[1..] == u;
      MissingIsWorse(o, d - 1, m - {p}, q);
      forall i | 0 <= i < d ensures Better(o, t[i].price, q) {
        assert i > 0 ==> t[i] == u[i - 1];
      }
    }
  }

  /** The sorted list of all levels. */
  ghost function AllRows(o: SideOrder, m: Levels): (rows: seq<Row>)
    ensures Sorted(o, rows) && LevelsOf(rows) == m && |rows| == |m|
  {
    TopIsSorted(o, |m|, m);
    var rows := Top(o, |m|, m);
    forall p | p in m ensures Lists(rows, p) {
      if !Lists(rows, p) {
        AllWorseIsMissing(o, rows, m, p);
      }
    }
    LevelsOfIs(o, rows, m);
    rows
  }

  /** A map cannot hold a level besides as many listed ones as it has levels. */
  lemma AllWorseIsMissing(o: SideOrder, rows: seq<Row>, m: Levels, p: u64)
    requires Sorted(o, rows) && ListedIn(rows, m) && p in m && !Lists(rows, p)
    ensures |rows| < |m|
  {
    LevelsOfListed(o, rows);
    var k := LevelsOf(rows);
    forall q | q in k.Keys ensures q in m.Keys - {p} {
      var i :| 0 <= i < |rows| && rows[i].price == q;
    }
    SubsetSize(k.Keys, m.Keys - {p});
    assert |m.Keys| == |m| && |k.Keys| == |k|;
  }

  lemma {:induction false} SubsetSize<T>(a: set<T>, b: set<T>)
    requires a <= b
    ensures |a| <= |b|
    decreases |a|
  {
    if a != {} {
      var x :| x in a;
      SubsetSize(a - {x}, b - {x});
    }
  }

  // ---- The bounded ladder ----

  /** What one update does to a ladder of depth `d`: set the level in the map its rows list, and
      keep the best `d` levels of the result. */
  ghost function UpdateRows(o: SideOrder, d: nat, rows: seq<Row>, price: u64, quantity: u64): (r: seq<Row>)
    ensures Sorted(o, r) && |r| <= d
  {
    TopIsSorted(o, d, SetLevel(LevelsOf(rows), price, quantity));
    Top(o, d, SetLevel(LevelsOf(rows), price, quantity))
  }

  /** Rows strictly better than the price: where the binary search stops. */
  ghost function LowerBound(o: SideOrder, rows: seq<Row>, price: u64): (pos: nat)
    ensures pos <= |rows|
    ensures forall i :: 0 <= i < pos ==> Better(o, rows[i].price, price)
    ensures pos < |rows| ==> !Better(o, rows[pos].price, price)
  {
    if rows == [] || !Better(o, rows[0].price, price) then 0 else 1 + LowerBound(o, rows[1..], price)
  }

  ghost predicate ListedAt(rows: seq<Row>, pos: nat, price: u64) {
    pos < |rows| && rows[pos].price == price
  }

  /** The update on the full list: remove, replace or insert where the price belongs. */
  ghost function Edit(o: SideOrder, rows: seq<Row>, price: u64, quantity: u64): (r: seq<Row>) {
    if rows != [] && Better(o, rows[0].price, price) then
      [rows[0]] + Edit(o, rows[1..], price, quantity)
    else
      var rest := WithoutHead(rows, price);
      if quantity == 0 then rest else [Row(price, quantity)] + rest
  }

  /** The edit brings in no price but the updated one. */
  ghost predicate PricesFrom(r: seq<Row>, rows: seq<Row>, price: u64) {
    forall i :: 0 <= i < |r| ==> r[i].price == price || Lists(rows, r[i].price)
  }

  lemma {:induction false} EditSorted(o: SideOrder, rows: seq<Row>, price: u64, quantity: u64)
    requires Sorted(o, rows)
    ensures Sorted(o, Edit(o, rows, price, quantity)) && PricesFrom(Edit(o, rows, price, quantity), rows, price)
  {
    if rows != [] && Better(o, rows[0].price, price) {
      EditSorted(o, rows[1..], price, quantity);
      EditTailSorted(o, rows, price, Edit(o, rows[1..], price, quantity));
    } else {
      EditHeadSorted(o, rows, price, quantity);
    }
  }

  lemma EditTailSorted(o: SideOrder, rows: seq<Row>, price: u64, tail: seq<Row>)
    requires Sorted(o, rows) && rows != [] && Better(o, rows[0].price, price)
    requires Sorted(o, tail) && PricesFrom(tail, rows[1..], price)
    ensures Sorted(o, [rows[0]] + tail) && PricesFrom([rows[0]] + tail, rows, price)
  {
    forall i | 0 <= i < |tail|
      ensures Better(o, rows[0].price, tail[i].price) && (tail[i].price == price || Lists(rows, tail[i].price))
    {
      if tail[i].price != price {
        ListsHeadOrTail(rows, tail[i].price);
        var j :| 0 <= j < |rows[1..]| && rows[1..][j].price == tail[i].price;
        assert rows[j + 1] == rows[1..][j];
      }
    }
    ListsHeadOrTail(rows, rows[0].price);
  }

  lemma EditHeadSorted(o: SideOrder, rows: seq<Row>, price: u64, quantity: u64)
    requires Sorted(o, rows) && (rows != [] ==> !Better(o, rows[0].price, price))
    ensures Sorted(o, Edit(o, rows, price, quantity)) && PricesFrom(Edit(o, rows, price, quantity), rows, price)
  {
    var rest, r := WithoutHead(rows, price), Edit(o, rows, price, quantity);
    forall i | 0 <= i < |rest| ensures Better(o, price, rest[i].price) && Lists(rows, rest[i].price) {
      var at := if rows[0].price == price then i + 1 else i;
      assert rows[at] == rest[i];
    }
    if quantity != 0 {
      assert forall i :: 0 < i < |r| ==> r[i] == rest[i - 1];
    }
  }

  /** The rows that stay when the price is taken out of a list it cannot sort after. */
  ghost function WithoutHead(rows: seq<Row>, price: u64): seq<Row> {
    if rows != [] && rows[0].price == price then rows[1..] else rows
  }

  lemma WithoutHeadRemoves(o: SideOrder, rows: seq<Row>, price: u64)
    requires Sorted(o, rows) && (rows != [] ==> !Better(o, rows[0].price, price))
    ensures LevelsOf(WithoutHead(rows, price)) == LevelsOf(rows) - {price}
  {
    LevelsOfListed(o, rows);
    if rows != [] && rows[0].price == price {
      BestOfSorted(o, rows);
    } else {
      assert forall i :: 0 < i < |rows| ==> Better(o, rows[0].price, rows[i].price);
      assert !Lists(rows, price);
      assert LevelsOf(rows) - {price} == LevelsOf(rows);
    }
  }

  lemma {:induction false} EditSetsLevel(o: SideOrder, rows: seq<Row>, price: u64, quantity: u64)
    requires Sorted(o, rows)
    ensures LevelsOf(Edit(o, rows, price, quantity)) == SetLevel(LevelsOf(rows), price, quantity)
  {
    var r := Edit(o, rows, price, quantity);
    if rows != [] && Better(o, rows[0].price, price) {
      EditSetsLevel(o, rows[1..], price, quantity);
      assert r[1..] == Edit(o, rows[1..], price, quantity);
    } else {
      WithoutHeadRemoves(o, rows, price);
      if quantity != 0 {
        assert r[1..] == WithoutHead(rows, price);
      }
    }
  }

  /** An update is the edit of the list, cut at the depth: the worst row of a list that has grown
      beyond it is dropped. */
  lemma UpdateRowsIsEdit(o: SideOrder, d: nat, rows: seq<Row>, price: u64, quantity: u64)
    requires Sorted(o, rows)
    ensures var r := Edit(o, rows, price, quantity);
            UpdateRows(o, d, rows, price, quantity) == r[..Min(d, |r|)]
  {
    EditSorted(o, rows, price, quantity);
    EditSetsLevel(o, rows, price, quantity);
    TopOfSorted(o, d, Edit(o, rows, price, quantity));
  }

  /** The edit as splices at the lower bound. */
  ghost function Spliced(rows: seq<Row>, pos: nat, price: u64, quantity: u64): seq<Row>
    requires pos <= |rows|
  {
    var inserted := if quantity == 0 then [] else [Row(price, quantity)];
    var after := if ListedAt(rows, pos, price) then pos + 1 else pos;
    rows[..pos] + inserted + rows[after..]
  }

  /** A removal, a replacement and an insertion as splices. */
  lemma SplicedCases(rows: seq<Row>, pos: nat, price: u64, quantity: u64)
    requires pos <= |rows|
    ensures var r := Spliced(rows, pos, price, quantity);
            if ListedAt(rows, pos, price) then
              r == if quantity == 0 then rows[..pos] + rows[pos + 1..] else rows[pos := Row(price, quantity)]
            else
              r == if quantity == 0 then rows else rows[..pos] + [Row(price, quantity)] + rows[pos..]
  {
    assert rows[..pos] + rows[pos..] == rows;
  }

  lemma SplicedTail(rows: seq<Row>, pos: nat, price: u64, quantity: u64)
    requires 0 < pos <= |rows|
    ensures Spliced(rows, pos, price, quantity) == [rows[0]] + Spliced(rows[1..], pos - 1, price, quantity)
  {
    var after := if ListedAt(rows, pos, price) then pos + 1 else pos;
    assert ListedAt(rows, pos, price) == ListedAt(rows[1..], pos - 1, price);
    assert rows[..pos] == [rows[0]] + rows[1..][..pos - 1];
    assert rows[1..][after - 1..] == rows[after..];
  }

  lemma {:induction false} EditSplices(o: SideOrder, rows: seq<Row>, price: u64, quantity: u64)
    ensures Edit(o, rows, price, quantity) == Spliced(rows, LowerBound(o, rows, price), price, quantity)
  {
    if rows != [] && Better(o, rows[0].price, price) {
      EditSplices(o, rows[1..], price, quantity);
      SplicedTail(rows, LowerBound(o, rows, price), price, quantity);
    } else {
      assert rows[0..] == rows && rows[..0] == [];
    }
  }

  /** The update as a splice at the lower bound, cut at the depth. */
  lemma UpdateRowsSplices(o: SideOrder, d: nat, rows: seq<Row>, price: u64, quantity: u64)
    requires Sorted(o, rows)
    ensures var r := Spliced(rows, LowerBound(o, rows, price), price, quantity);
            UpdateRows(o, d, rows, price, quantity) == if |r| <= d then r else r[..d]
  {
    UpdateRowsIsEdit(o, d, rows, price, quantity);
    EditSplices(o, rows, price, quantity);
    var r := Spliced(rows, LowerBound(o, rows, price), price, quantity);
    assert r[..|r|] == r;
  }

  // ---- How exact the ladder stays ----

  /** Every level of `k` is in `m` with the same quantity. */
  ghost predicate Within(k: Levels, m: Levels) {
    forall p :: p in k ==> p in m && m[p] == k[p]
  }

  /** The first `e` rows are the true best `e` levels, and no row shows a wrong quantity. */
  ghost predicate Exact(o: SideOrder, e: nat, rows: seq<Row>, m: Levels) {
    && Sorted(o, rows)
    && Within(LevelsOf(rows), m)
    && rows[..Min(e, |rows|)] == Top(o, e, m)
  }

  /** The horizon: a level the ladder has lost is worse than its first `e` rows. */
  lemma LostLevelsAreWorse(o: SideOrder, e: nat, rows: seq<Row>, m: Levels, p: u64)
    requires Exact(o, e, rows, m) && p in m && !Lists(rows, p)
    ensures e <= |rows| && forall i :: 0 <= i < e ==> Better(o, rows[i].price, p)
  {
    var t := Top(o, e, m);
    forall i | 0 <= i < |t| ensures t[i] == rows[i] {
      assert t[i] == rows[..Min(e, |rows|)][i];
    }
    MissingIsWorse(o, e, m, p);
  }

  /** How an update changes the number of rows known to be exact: deleting one of them costs one,
      inserting a new level among them restores one, everything else leaves it alone. */
  ghost function NextExact(o: SideOrder, e: nat, rows: seq<Row>, price: u64, quantity: u64): (e': nat)
    ensures e' + (if quantity == 0 then 1 else 0) >= e
  {
    var pos := LowerBound(o, rows, price);
    if pos < e && ListedAt(rows, pos, price) then (if quantity == 0 then e - 1 else e)
    else if pos < e && quantity != 0 then e + 1
    else e
  }

  ghost predicate Agree(e: nat, xs: seq<Row>, ys: seq<Row>) {
    xs[..Min(e, |xs|)] == ys[..Min(e, |ys|)]
  }

  lemma AgreeUnfolds(e: nat, xs: seq<Row>, ys: seq<Row>)
    requires e > 0
    ensures Agree(e, xs, ys) <==>
            (xs == ys == []) || (xs != [] && ys != [] && xs[0] == ys[0] && Agree(e - 1, xs[1..], ys[1..]))
  {
    if xs != [] && ys != [] {
      assert xs[..Min(e, |xs|)] == [xs[0]] + xs[1..][..Min(e - 1, |xs| - 1)];
      assert ys[..Min(e, |ys|)] == [ys[0]] + ys[1..][..Min(e - 1, |ys| - 1)];
      if Agree(e, xs, ys) {
        assert xs[..Min(e, |xs|)][1..] == ys[..Min(e, |ys|)][1..];
        assert xs[0] == xs[..Min(e, |xs|)][0] == ys[..Min(e, |ys|)][0] == ys[0];
      }
    } else if Agree(e, xs, ys) {
      assert |xs[..Min(e, |xs|)]| == |ys[..Min(e, |ys|)]|;
    }
  }

  lemma NextExactTail(o: SideOrder, e: nat, rows: seq<Row>, price: u64, quantity: u64)
    requires e > 0 && rows != [] && Better(o, rows[0].price, price)
    ensures NextExact(o, e, rows, price, quantity) == 1 + NextExact(o, e - 1, rows[1..], price, quantity)
  {}

  lemma EditHeadKeepsAgreement(o: SideOrder, e: nat, xs: seq<Row>, ys: seq<Row>, price: u64, quantity: u64)
    requires e > 0 && Agree(e, xs, ys) && (xs != [] ==> !Better(o, xs[0].price, price))
    ensures Agree(NextExact(o, e, xs, price, quantity), Edit(o, xs, price, quantity), Edit(o, ys, price, quantity))
  {
    AgreeUnfolds(e, xs, ys);
    var e' := NextExact(o, e, xs, price, quantity);
    assert LowerBound(o, xs, price) == 0;
    if quantity != 0 {
      var xs', ys' := Edit(o, xs, price, quantity), Edit(o, ys, price, quantity);
      assert xs'[1..] == WithoutHead(xs, price) && ys'[1..] == WithoutHead(ys, price);
      AgreeUnfolds(e', xs', ys');
    }
  }

  /** Two lists that agree on their first rows still do after the same update. */
  lemma {:induction false} EditKeepsAgreement(o: SideOrder, e: nat, xs: seq<Row>, ys: seq<Row>, price: u64, quantity: u64)
    requires Agree(e, xs, ys)
    ensures Agree(NextExact(o, e, xs, price, quantity), Edit(o, xs, price, quantity), Edit(o, ys, price, quantity))
    decreases e
  {
    if e == 0 {
    } else if xs != [] && Better(o, xs[0].price, price) {
      AgreeUnfolds(e, xs, ys);
      EditKeepsAgreement(o, e - 1, xs[1..], ys[1..], price, quantity);
      var xs', ys' := Edit(o, xs, price, quantity), Edit(o, ys, price, quantity);
      assert xs'[1..] == Edit(o, xs[1..], price, quantity) && ys'[1..] == Edit(o, ys[1..], price, quantity);
      NextExactTail(o, e, xs, price, quantity);
      AgreeUnfolds(NextExact(o, e, xs, price, quantity), xs', ys');
    } else {
      EditHeadKeepsAgreement(o, e, xs, ys, price, quantity);
    }
  }

  lemma AgreeOnFewer(e: nat, f: nat, xs: seq<Row>, ys: seq<Row>)
    requires Agree(e, xs, ys) && f <= e
    ensures Agree(f, xs, ys)
  {
    var a, b := xs[..Min(e, |xs|)], ys[..Min(e, |ys|)];
    assert xs[..Min(f, |xs|)] == a[..Min(f, |a|)];
    assert ys[..Min(f, |ys|)] == b[..Min(f, |b|)];
  }

  lemma UpdateKeepsExact(o: SideOrder, d: nat, e: nat, rows: seq<Row>, m: Levels, price: u64, quantity: u64)
    requires Exact(o, e, rows, m) && e <= d
    ensures Exact(o, Min(d, NextExact(o, e, rows, price, quantity)),
                  UpdateRows(o, d, rows, price, quantity), SetLevel(m, price, quantity))
  {
    var all := AllRows(o, m);
    var rows', all' := Edit(o, rows, price, quantity), Edit(o, all, price, quantity);
    TopOfSorted(o, e, all);
    EditKeepsAgreement(o, e, rows, all, price, quantity);
    UpdateRowsIsEdit(o, d, rows, price, quantity);
    EditSorted(o, rows, price, quantity);
    EditSetsLevel(o, rows, price, quantity);
    EditSorted(o, all, price, quantity);
    EditSetsLevel(o, all, price, quantity);
    var e' := Min(d, NextExact(o, e, rows, price, quantity));
    AgreeOnFewer(NextExact(o, e, rows, price, quantity), e', rows', all');
    TopOfSorted(o, e', all');
    CutIsExact(o, d, e', rows', SetLevel(m, price, quantity));
  }

  /** Dropping the rows beyond the depth leaves the first rows exact. */
  lemma CutIsExact(o: SideOrder, d: nat, e: nat, rows: seq<Row>, m: Levels)
    requires Exact(o, e, rows, m) && e <= d
    ensures Exact(o, e, rows[..Min(d, |rows|)], m)
  {
    var cut := rows[..Min(d, |rows|)];
    assert cut[..Min(e, |cut|)] == rows[..Min(e, |rows|)];
    CutIsWithin(o, rows, Min(d, |rows|));
  }

  lemma CutIsWithin(o: SideOrder, rows: seq<Row>, n: nat)
    requires Sorted(o, rows) && n <= |rows|
    ensures Within(LevelsOf(rows[..n]), LevelsOf(rows))
  {
    LevelsOfListed(o, rows);
    LevelsOfListed(o, rows[..n]);
    forall p | p in LevelsOf(rows[..n])
      ensures p in LevelsOf(rows) && LevelsOf(rows)[p] == LevelsOf(rows[..n])[p]
    {
      var i :| 0 <= i < n && rows[..n][i].price == p;
      assert rows[i] == rows[..n][i];
    }
  }

  // ---- Whole update sequences; an update is written as the row it sets ----

  ghost function LadderRun(o: SideOrder, d: nat, rows: seq<Row>, us: seq<Row>): (r: seq<Row>)
    ensures us != [] || (Sorted(o, rows) && |rows| <= d) ==> Sorted(o, r) && |r| <= d
    decreases |us|
  {
    if us == [] then rows
    else LadderRun(o, d, UpdateRows(o, d, rows, us[0].price, us[0].quantity), us[1..])
  }

  ghost function MapRun(m: Levels, us: seq<Row>): Levels
    decreases |us|
  {
    if us == [] then m else MapRun(SetLevel(m, us[0].price, us[0].quantity), us[1..])
  }

  function Removals(us: seq<Row>): nat {
    if us == [] then 0 else (if us[0].quantity == 0 then 1 else 0) + Removals(us[1..])
  }

  lemma FewerIsExact(o: SideOrder, e: nat, f: nat, rows: seq<Row>, m: Levels)
    requires Exact(o, e, rows, m) && f <= e
    ensures Exact(o, f, rows, m)
  {
    var all := AllRows(o, m);
    TopOfSorted(o, e, all);
    TopOfSorted(o, f, all);
    AgreeOnFewer(e, f, rows, all);
  }

  /** The rows known to be exact after a run: a deletion among them costs one, an insertion among
      them restores one, updates of absent or lower levels cost nothing. */
  ghost function ExactAfter(o: SideOrder, d: nat, e: nat, rows: seq<Row>, us: seq<Row>): nat
    decreases |us|
  {
    if us == [] then e
    else ExactAfter(o, d, Min(d, NextExact(o, e, rows, us[0].price, us[0].quantity)),
                    UpdateRows(o, d, rows, us[0].price, us[0].quantity), us[1..])
  }

  lemma {:induction false} RunKeepsExact(o: SideOrder, d: nat, e: nat, rows: seq<Row>, m: Levels, us: seq<Row>)
    requires Exact(o, e, rows, m) && e <= d
    ensures Exact(o, ExactAfter(o, d, e, rows, us), LadderRun(o, d, rows, us), MapRun(m, us))
    decreases |us|
  {
    if us != [] {
      var u := us[0];
      UpdateKeepsExact(o, d, e, rows, m, u.price, u.quantity);
      RunKeepsExact(o, d, Min(d, NextExact(o, e, rows, u.price, u.quantity)),
                    UpdateRows(o, d, rows, u.price, u.quantity), SetLevel(m, u.price, u.quantity), us[1..]);
    }
  }

  lemma {:induction false} RemovalsCostOneEach(o: SideOrder, d: nat, e: nat, rows: seq<Row>, us: seq<Row>)
    requires e <= d
    ensures e - Removals(us) <= ExactAfter(o, d, e, rows, us) <= d
    decreases |us|
  {
    if us != [] {
      RemovalsCostOneEach(o, d, Min(d, NextExact(o, e, rows, us[0].price, us[0].quantity)),
                          UpdateRows(o, d, rows, us[0].price, us[0].quantity), us[1..]);
    }
  }

  lemma TopIsExact(o: SideOrder, d: nat, m: Levels)
    ensures Exact(o, d, Top(o, d, m), m)
  {
    var all := AllRows(o, m);
    TopOfSorted(o, d, all);
    CutIsWithin(o, all, Min(d, |all|));
    assert Top(o, d, m)[..Min(d, |Top(o, d, m)|)] == Top(o, d, m);
  }

  /** The first `k` rows of the ladder are the true best `k` levels after the updates. */
  ghost predicate TopKept(o: SideOrder, d: nat, k: nat, m: Levels, us: seq<Row>) {
    var rows := LadderRun(o, d, Top(o, d, m), us);
    rows[..Min(k, |rows|)] == Top(o, k, MapRun(m, us))
  }

  /** Starting from the true best `d` levels, after any updates: the rows that `ExactAfter` counts
      are the true best levels, and no row ever shows a wrong quantity. */
  lemma LadderExactness(o: SideOrder, d: nat, k: nat, m: Levels, us: seq<Row>)
    requires k <= ExactAfter(o, d, d, Top(o, d, m), us)
    ensures TopKept(o, d, k, m, us)
    ensures var rows := LadderRun(o, d, Top(o, d, m), us);
            ListedIn(rows, MapRun(m, us)) && Sorted(o, rows) && |rows| <= d
  {
    TopIsExact(o, d, m);
    TopIsSorted(o, d, m);
    RunKeepsExact(o, d, d, Top(o, d, m), m, us);
    var rows, m' := LadderRun(o, d, Top(o, d, m), us), MapRun(m, us);
    FewerIsExact(o, ExactAfter(o, d, d, Top(o, d, m), us), k, rows, m');
    LevelsOfListed(o, rows);
  }

  /** The deletions of the best `j` rows, one after the other. */
  ghost function Deletions(rows: seq<Row>, j: nat): (us: seq<Row>)
    requires j <= |rows|
    ensures Removals(us) == j && |us| == j
  {
    if j == 0 then [] else [Row(rows[0].price, 0)] + Deletions(rows[1..], j - 1)
  }

  lemma {:induction false} DeletingTheBest(o: SideOrder, d: nat, all: seq<Row>, n: nat, j: nat)
    requires Sorted(o, all) && j <= n <= |all| && n <= d
    ensures LadderRun(o, d, all[..n], Deletions(all[..n], j)) == all[j..n]
    ensures MapRun(LevelsOf(all), Deletions(all[..n], j)) == LevelsOf(all[j..])
    decreases j
  {
    if j > 0 {
      DeletingOne(o, d, all[..n]);
      BestOfSorted(o, all);
      DeletingTheBest(o, d, all[1..], n - 1, j - 1);
      DeletionsUnfold(all, n, j);
      assert all[1..][j - 1..n - 1] == all[j..n] && all[1..][j - 1..] == all[j..];
    } else {
      assert all[0..] == all;
    }
  }

  lemma DeletionsUnfold(all: seq<Row>, n: nat, j: nat)
    requires 0 < j <= n <= |all|
    ensures all[..n][1..] == all[1..][..n - 1]
    ensures var us := Deletions(all[..n], j);
            us != [] && us[0] == Row(all[0].price, 0) && us[1..] == Deletions(all[1..][..n - 1], j - 1)
  {
    var rows := all[..n];
    assert rows[1..] == all[1..][..n - 1];
    assert Deletions(rows, j)[1..] == Deletions(rows[1..], j - 1);
  }

  lemma DeletingOne(o: SideOrder, d: nat, rows: seq<Row>)
    requires Sorted(o, rows) && 0 < |rows| <= d
    ensures UpdateRows(o, d, rows, rows[0].price, 0) == rows[1..]
  {
    UpdateRowsIsEdit(o, d, rows, rows[0].price, 0);
    assert Edit(o, rows, rows[0].price, 0) == rows[1..];
  }

  lemma {:induction false} RunsAppend(o: SideOrder, d: nat, rows: seq<Row>, m: Levels, us: seq<Row>, vs: seq<Row>)
    ensures LadderRun(o, d, rows, us + vs) == LadderRun(o, d, LadderRun(o, d, rows, us), vs)
    ensures MapRun(m, us + vs) == MapRun(MapRun(m, us), vs)
    ensures Removals(us + vs) == Removals(us) + Removals(vs)
    decreases |us|
  {
    if us == [] {
      assert us + vs == vs;
    } else {
      assert (us + vs)[1..] == us[1..] + vs;
      RunsAppend(o, d, UpdateRows(o, d, rows, us[0].price, us[0].quantity),
                 SetLevel(m, us[0].price, us[0].quantity), us[1..], vs);
    }
  }

  ghost function FirstPrices(n: nat): (s: set<u64>)
    requires n <= U64_LIMIT
    ensures |s| == n && forall p: u64 :: p in s <==> p < n
  {
    if n == 0 then {} else FirstPrices(n - 1) + {n - 1}
  }

  lemma FreshPrice(m: Levels) returns (p: u64)
    requires |m| < U64_LIMIT
    ensures p !in m
  {
    var s := FirstPrices(|m| + 1);
    assert |m.Keys| == |m|;
    if s <= m.Keys {
      SubsetSize(s, m.Keys);
    }
    p :| p in s && p !in m;
  }

  /** Insertions alone bring any side beyond the depth. */
  lemma {:induction false} FillUp(d: nat, m: Levels) returns (us: seq<Row>)
    requires d < U64_LIMIT
    ensures Removals(us) == 0 && |MapRun(m, us)| > d
    decreases d + 1 - |m|
  {
    if |m| > d {
      us := [];
    } else {
      var p := FreshPrice(m);
      var rest := FillUp(d, m[p := 1]);
      us := [Row(p, 1)] + rest;
      assert us[1..] == rest;
    }
  }

  function Repeated(p: u64, n: nat): (us: seq<Row>)
    ensures Removals(us) == n
  {
    if n == 0 then [] else [Row(p, 0)] + Repeated(p, n - 1)
  }

  /** Deleting an absent level from an empty ladder. */
  lemma {:induction false} NothingToDelete(o: SideOrder, d: nat, m: Levels, p: u64, n: nat)
    requires p !in m
    ensures LadderRun(o, d, [], Repeated(p, n)) == [] && MapRun(m, Repeated(p, n)) == m
  {
    if n > 0 {
      assert Repeated(p, n)[1..] == Repeated(p, n - 1);
      assert LevelsOf([]) - {p} == map[] && m - {p} == m;
      NothingToDelete(o, d, m, p, n - 1);
    }
  }

  /** On a side with more levels than the depth, `j` removals that leave fewer than `k` rows. */
  lemma DeletingTooMany(o: SideOrder, d: nat, k: nat, j: nat, m: Levels) returns (us: seq<Row>)
    requires 1 <= k <= d < j + k && |m| > d
    ensures Removals(us) == j && !TopKept(o, d, k, m, us)
  {
    var all, n := AllRows(o, m), Min(j, d);
    TopOfSorted(o, d, all);
    var best := Deletions(all[..d], n);
    DeletingTheBest(o, d, all, d, n);
    TopOfSorted(o, k, all[n..]);
    if j <= d {
      us := best;
    } else {
      var p := all[0].price;
      us := best + Repeated(p, j - d);
      RunsAppend(o, d, Top(o, d, m), m, best, Repeated(p, j - d));
      DeletedStaysAway(o, all, n);
      NothingToDelete(o, d, LevelsOf(all[n..]), p, j - d);
    }
  }

  lemma DeletedStaysAway(o: SideOrder, all: seq<Row>, n: nat)
    requires Sorted(o, all) && 1 <= n <= |all|
    ensures all[0].price !in LevelsOf(all[n..])
  {
    var tail := all[n..];
    assert forall i :: 0 <= i < |tail| ==> tail[i] == all[i + n];
    LevelsOfListed(o, tail);
  }

  /** From a full snapshot, whatever the side: the first `k` rows survive every run with `j` removals
      exactly when `j` is at most `d - k`. */
  lemma ExactnessIsTight(o: SideOrder, d: nat, k: nat, j: nat, m: Levels)
    requires 1 <= k <= d < U64_LIMIT
    ensures (forall us :: Removals(us) == j ==> TopKept(o, d, k, m, us)) <==> j + k <= d
  {
    if j + k <= d {
      forall us | Removals(us) == j ensures TopKept(o, d, k, m, us) {
        RemovalsCostOneEach(o, d, d, Top(o, d, m), us);
        LadderExactness(o, d, k, m, us);
      }
    } else {
      var fill := FillUp(d, m);
      var rest := DeletingTooMany(o, d, k, j, MapRun(m, fill));
      FilledLadder(o, d, m, fill);
      RunsAppend(o, d, Top(o, d, m), m, fill, rest);
      assert Removals(fill + rest) == j && !TopKept(o, d, k, m, fill + rest);
    }
  }

  lemma FilledLadder(o: SideOrder, d: nat, m: Levels, us: seq<Row>)
    requires Removals(us) == 0
    ensures LadderRun(o, d, Top(o, d, m), us) == Top(o, d, MapRun(m, us))
  {
    RemovalsCostOneEach(o, d, d, Top(o, d, m), us);
    LadderExactness(o, d, d, m, us);
    var rows := LadderRun(o, d, Top(o, d, m), us);
    assert rows[..Min(d, |rows|)] == rows;
  }

  // ---- What the best levels say about a change ----

  function Quantity(m: Levels, p: u64): u64 {
    if p in m then m[p] else 0
  }

  /** The best levels of fewer are a prefix of the best levels of more. */
  lemma TopOfTop(o: SideOrder, d: nat, n: nat, m: Levels)
    requires d <= n
    ensures var rows := Top(o, n, m); rows[..Min(d, |rows|)] == Top(o, d, m)
  {
    var all := AllRows(o, m);
    TopOfSorted(o, n, all);
    TopOfSorted(o, d, all);
  }

  /** A list of `e` best rows shows this level, or is full and the level ranks below all of it. */
  ghost predicate Shown(o: SideOrder, e: nat, rows: seq<Row>, price: u64, quantity: u64) {
    || (|rows| == e && forall i :: 0 <= i < e ==> Better(o, rows[i].price, price))
    || Quantity(LevelsOf(rows), price) == quantity
  }

  lemma TopShows(o: SideOrder, e: nat, m: Levels, p: u64)
    ensures Shown(o, e, Top(o, e, m), p, Quantity(m, p))
  {
    TopIsSorted(o, e, m);
    LevelsOfListed(o, Top(o, e, m));
    if p in m && !Lists(Top(o, e, m), p) {
      MissingIsWorse(o, e, m, p);
    }
  }

  /** Every level of the map is in the list, or the list is full and the level ranks below all of it. */
  ghost predicate Covers(o: SideOrder, e: nat, rows: seq<Row>, m: Levels) {
    forall q :: q in m && !Lists(rows, q) ==> |rows| == e && forall i :: 0 <= i < e ==> Better(o, rows[i].price, q)
  }

  lemma CoveringHeadIsBest(o: SideOrder, e: nat, rows: seq<Row>, m: Levels)
    requires e > 0 && m != map[] && Sorted(o, rows) && ListedIn(rows, m) && Covers(o, e, rows, m)
    ensures rows != [] && Best(o, m) == rows[0].price
  {
    assert Lists(rows, Best(o, m)) || |rows| == e;
    if rows != [] {
      var p := rows[0].price;
      forall q | q in m && q != p ensures Better(o, p, q) {
        if Lists(rows, q) {
          var i :| 0 <= i < |rows| && rows[i].price == q;
        }
      }
      assert IsBest(o, m, p);
    }
  }

  lemma CoveringTail(o: SideOrder, e: nat, rows: seq<Row>, m: Levels)
    requires e > 0 && rows != [] && Sorted(o, rows) && ListedIn(rows, m) && Covers(o, e, rows, m)
    ensures var rest := m - {rows[0].price};
            Sorted(o, rows[1..]) && ListedIn(rows[1..], rest) && Covers(o, e - 1, rows[1..], rest)
  {
    var tail, rest := rows[1..], m - {rows[0].price};
    assert forall i :: 0 <= i < |tail| ==> tail[i] == rows[i + 1];
    forall q | q in rest && !Lists(tail, q)
      ensures |tail| == e - 1 && forall i :: 0 <= i < e - 1 ==> Better(o, tail[i].price, q)
    {
      ListsHeadOrTail(rows, q);
      assert |rows| == e;
    }
  }

  lemma CoveringStep(o: SideOrder, e: nat, rows: seq<Row>, m: Levels)
    requires e > 0 && m != map[] && Sorted(o, rows) && ListedIn(rows, m) && Covers(o, e, rows, m)
    requires rows != [] && Top(o, e - 1, m - {rows[0].price}) == rows[1..]
    ensures Top(o, e, m) == rows
  {
    CoveringHeadIsBest(o, e, rows, m);
    assert rows == [Row(rows[0].price, m[rows[0].price])] + rows[1..];
  }

  /** A sorted part of the map that covers it is its list of best levels. */
  lemma {:induction false} CoveringIsTop(o: SideOrder, e: nat, rows: seq<Row>, m: Levels)
    requires |rows| <= e && Sorted(o, rows) && ListedIn(rows, m) && Covers(o, e, rows, m)
    ensures Top(o, e, m) == rows
    decreases e
  {
    if e > 0 && m != map[] {
      CoveringHeadIsBest(o, e, rows, m);
      CoveringTail(o, e, rows, m);
      CoveringIsTop(o, e - 1, rows[1..], m - {rows[0].price});
      CoveringStep(o, e, rows, m);
    } else {
      FirstIsListed(rows, m);
    }
  }

  lemma FirstIsListed(rows: seq<Row>, m: Levels)
    requires ListedIn(rows, m)
    ensures rows == [] || rows[0].price in m
  {}

  ghost predicate NoEmpty(m: Levels) {
    forall p :: p in m ==> m[p] != 0
  }

  lemma ShownIsTop(o: SideOrder, e: nat, a: Levels, b: Levels)
    requires NoEmpty(a) && NoEmpty(b)
    requires forall p: u64 :: Shown(o, e, Top(o, e, a), p, Quantity(b, p))
    ensures Top(o, e, b) == Top(o, e, a)
  {
    var rows := Top(o, e, a);
    TopIsSorted(o, e, a);
    LevelsOfListed(o, rows);
    forall i | 0 <= i < |rows| ensures rows[i].price in b && b[rows[i].price] == rows[i].quantity {
      assert Shown(o, e, rows, rows[i].price, Quantity(b, rows[i].price));
    }
    forall q | q in b && !Lists(rows, q) ensures |rows| == e && forall i :: 0 <= i < e ==> Better(o, rows[i].price, q) {
      assert Shown(o, e, rows, q, Quantity(b, q));
    }
    CoveringIsTop(o, e, rows, b);
  }

  /** Two maps have the same best levels exactly when those of one show every level of the other. */
  lemma SameTopExactly(o: SideOrder, e: nat, a: Levels, b: Levels)
    requires NoEmpty(a) && NoEmpty(b)
    ensures Top(o, e, a) == Top(o, e, b) <==> forall p: u64 :: Shown(o, e, Top(o, e, a), p, Quantity(b, p))
  {
    if Top(o, e, a) == Top(o, e, b) {
      forall p: u64 ensures Shown(o, e, Top(o, e, a), p, Quantity(b, p)) {
        TopShows(o, e, b, p);
      }
    }
    if forall p: u64 :: Shown(o, e, Top(o, e, a), p, Quantity(b, p)) {
      ShownIsTop(o, e, a, b);
    }
  }

  // ---- The two sides, on the prices themselves ----

  /** Bids fall and asks rise from row to row. */
  ghost predicate FallsOrRises(o: SideOrder, rows: seq<Row>) {
    forall i, j :: 0 <= i < j < |rows| ==>
      if o == PriceDescending then rows[i].price > rows[j].price else rows[i].price < rows[j].price
  }

  lemma SortedByPrice(o: SideOrder, rows: seq<Row>)
    ensures Sorted(o, rows) <==> FallsOrRises(o, rows)
  {}

  /** The price is lower than all bids of the list, or higher than all asks of it. */
  ghost predicate Outbid(o: SideOrder, rows: seq<Row>, price: u64) {
    forall i :: 0 <= i < |rows| ==> if o == PriceDescending then price < rows[i].price else price > rows[i].price
  }

  /** The best `d` levels of a map are the highest bids and the lowest asks: rows of the map, in
      order of price, and every level left out is outbid by `d` rows. */
  lemma TopByPrice(o: SideOrder, d: nat, m: Levels)
    ensures var rows := Top(o, d, m);
            && |rows| == Min(d, |m|) && FallsOrRises(o, rows) && ListedIn(rows, m)
            && forall q :: q in m && !Lists(rows, q) ==> |rows| == d && Outbid(o, rows, q)
  {
    TopIsSorted(o, d, m);
    SortedByPrice(o, Top(o, d, m));
    forall q | q in m && !Lists(Top(o, d, m), q) ensures |Top(o, d, m)| == d && Outbid(o, Top(o, d, m), q) {
      MissingIsWorse(o, d, m, q);
    }
  }

  /** The first row of a side is its highest bid or its lowest ask. */
  lemma FirstIsHighestOrLowest(o: SideOrder, d: nat, m: Levels)
    requires d > 0 && m != map[]
    ensures var rows := Top(o, d, m);
            && rows != [] && rows[0].price in m && m[rows[0].price] == rows[0].quantity
            && forall p :: p in m ==> if o == PriceDescending then p <= rows[0].price else p >= rows[0].price
  {
    TopUnfolds(o, d, m);
  }

  /** What the rows hold at a price. */
  ghost predicate HoldsRow(rows: seq<Row>, r: Row) {
    exists i :: 0 <= i < |rows| && rows[i] == r
  }

  lemma HoldsIsListed(o: SideOrder, rows: seq<Row>, r: Row)
    requires Sorted(o, rows)
    ensures HoldsRow(rows, r) <==> r.price in LevelsOf(rows) && LevelsOf(rows)[r.price] == r.quantity
  {
    LevelsOfListed(o, rows);
    if r.price in LevelsOf(rows) && LevelsOf(rows)[r.price] == r.quantity {
      var i :| 0 <= i < |rows| && rows[i].price == r.price;
      assert rows[i] == r;
    }
  }

  /** The row belongs to the side after an update: it is the new level, or an old one of another price. */
  ghost predicate Belongs(rows: seq<Row>, price: u64, quantity: u64, r: Row) {
    if r.price == price then quantity != 0 && r.quantity == quantity else HoldsRow(rows, r)
  }

  lemma BelongsIsSet(o: SideOrder, rows: seq<Row>, price: u64, quantity: u64, r: Row)
    requires Sorted(o, rows)
    ensures var m := SetLevel(LevelsOf(rows), price, quantity);
            Belongs(rows, price, quantity, r) <==> r.price in m && m[r.price] == r.quantity
  {
    HoldsIsListed(o, rows, r);
  }

  /** One update of a ladder, on rows and prices: the new rows are in order of price and belong to
      the side; and whatever belongs to it is there, or the ladder is full of rows that outbid it. */
  lemma UpdateByPrice(o: SideOrder, d: nat, rows: seq<Row>, price: u64, quantity: u64)
    requires Sorted(o, rows)
    ensures var now := UpdateRows(o, d, rows, price, quantity);
            && FallsOrRises(o, now) && |now| <= d
            && (forall i :: 0 <= i < |now| ==> Belongs(rows, price, quantity, now[i]))
            && forall r :: Belongs(rows, price, quantity, r) && !HoldsRow(now, r) ==> |now| == d && Outbid(o, now, r.price)
  {
    var m, now := SetLevel(LevelsOf(rows), price, quantity), UpdateRows(o, d, rows, price, quantity);
    TopByPrice(o, d, m);
    forall i | 0 <= i < |now| ensures Belongs(rows, price, quantity, now[i]) {
      BelongsIsSet(o, rows, price, quantity, now[i]);
    }
    forall r | Belongs(rows, price, quantity, r) && !HoldsRow(now, r) ensures |now| == d && Outbid(o, now, r.price) {
      BelongsIsSet(o, rows, price, quantity, r);
      NotHeldIsNotListed(now, m, r);
    }
  }

  lemma NotHeldIsNotListed(now: seq<Row>, m: Levels, r: Row)
    requires ListedIn(now, m) && r.price in m && m[r.price] == r.quantity && !HoldsRow(now, r)
    ensures !Lists(now, r.price)
  {
    forall i | 0 <= i < |now| ensures now[i].price != r.price {
      assert now[i] == Row(now[i].price, now[i].quantity);
    }
  }
}
