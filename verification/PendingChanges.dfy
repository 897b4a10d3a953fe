/** What the trader's ladders say about an event that has been read only in part. */
module PendingChanges {
  import opened Words
  import opened PriceLevels
  import opened MarketData
  import opened OrderBook
  import opened BookSync
  import opened TraderBook

  ghost function Trusted(e: nat, rows: seq<Row>): seq<Row> {
    rows[..Min(e, |rows|)]
  }

  /** The trusted rows of the book's side show this level, or it ranks below them. */
  ghost predicate LevelShown(b: Book, t: Trust, side: Side, price: u64, quantity: u64) {
    if side.Bid? then Shown(PriceDescending, t.bids, Trusted(t.bids, b.bids), price, quantity)
    else Shown(PriceAscending, t.asks, Trusted(t.asks, b.asks), price, quantity)
  }

  ghost predicate AllShown(b: Book, t: Trust, full: FullBook) {
    forall side: Side, p: u64 :: LevelShown(b, t, side, p, QuantityAt(full, side, p))
  }

  ghost predicate ChangeShown(b: Book, t: Trust, c: Change) {
    LevelShown(b, t, c.side, c.price, c.quantity)
  }

  /** Every change of the event from the `n`-th on is shown already or ranks below the trusted rows. */
  ghost predicate RestShown(b: Book, t: Trust, m: DepthMessage, n: nat) {
    forall i :: n <= i < LevelCount(m) ==> ChangeShown(b, t, ChangeAt(m, i))
  }

  lemma TrueExactly(o: SideOrder, e: nat, rows: seq<Row>, m: Levels, full: Levels)
    requires Exact(o, e, rows, m) && NoEmpty(m) && NoEmpty(full)
    ensures TrueUpTo(o, e, rows, full) <==> forall p: u64 :: Shown(o, e, Trusted(e, rows), p, Quantity(full, p))
  {
    SameTopExactly(o, e, m, full);
    if TrueUpTo(o, e, rows, full) {
      assert Top(o, e, full) == Trusted(e, rows);
    }
    if Top(o, e, m) == Top(o, e, full) {
      forall k: nat | k <= e ensures rows[..Min(k, |rows|)] == Top(o, k, full) {
        TopOfTop(o, k, e, m);
        TopOfTop(o, k, e, full);
        FewerIsExact(o, e, k, rows, m);
      }
    }
  }

  /** A tracking book shows the exchange's best levels exactly when its trusted rows show every level
      of the exchange, or the level ranks below them. */
  lemma MatchesExactly(h: seq<Change>, depth: nat, b: Book, r: Replica, t: Trust)
    requires Tracks(depth, b, r, t) && NoEmptyLevels(r.book) && r.lastUpdateId <= |h|
    ensures MatchesExchange(h, depth, b, t) <==> AllShown(b, t, BookAt(h, r.lastUpdateId))
  {
    var full := BookAt(h, r.lastUpdateId);
    HistoryHasNoEmptyLevels(h, r.lastUpdateId);
    TrueExactly(PriceDescending, t.bids, b.bids, r.book.bids, full.bids);
    TrueExactly(PriceAscending, t.asks, b.asks, r.book.asks, full.asks);
    if AllShown(b, t, full) {
      forall p: u64
        ensures Shown(PriceDescending, t.bids, Trusted(t.bids, b.bids), p, Quantity(full.bids, p))
        ensures Shown(PriceAscending, t.asks, Trusted(t.asks, b.asks), p, Quantity(full.asks, p))
      {
        assert LevelShown(b, t, Bid, p, QuantityAt(full, Bid, p));
        assert LevelShown(b, t, Ask, p, QuantityAt(full, Ask, p));
      }
    }
    if MatchesExchange(h, depth, b, t) {
      forall side: Side, p: u64 ensures LevelShown(b, t, side, p, QuantityAt(full, side, p)) {
        var on := Quantity(LevelsOn(full, side), p);
        assert side.Bid? ==> Shown(PriceDescending, t.bids, Trusted(t.bids, b.bids), p, on);
        assert side.Ask? ==> Shown(PriceAscending, t.asks, Trusted(t.asks, b.asks), p, on);
      }
    }
  }

  /** What a tracking book shows of the replica it tracks. */
  lemma TrackedIsShown(depth: nat, b: Book, r: Replica, t: Trust, side: Side, p: u64)
    requires Tracks(depth, b, r, t)
    ensures LevelShown(b, t, side, p, QuantityAt(r.book, side, p))
  {
    TopShows(PriceDescending, t.bids, r.book.bids, p);
    TopShows(PriceAscending, t.asks, r.book.asks, p);
  }

  /** Away from the rest of an overlapping event, its first updates have done all there is to do. */
  lemma OffTheRest(h: seq<Change>, l: nat, m: DepthMessage, n: nat, side: Side, p: u64)
    requires Summarises(h, m) && m.firstId <= l + 1 && l <= m.lastId && n <= LevelCount(m)
    requires !Touches(ChangesOf(UpdatesOf(m))[n..], side, p)
    ensures QuantityAt(AllApplied(BookAt(h, l), ChangesOf(UpdatesOf(m))[..n]), side, p)
            == QuantityAt(BookAt(h, m.lastId), side, p)
  {
    var cs := ChangesOf(UpdatesOf(m));
    AllAppliedQuantity(BookAt(h, m.lastId), BookAt(h, l), cs[..n], side, p);
    if !Touches(cs[..n], side, p) {
      forall i | 0 <= i < |cs| ensures cs[i].side != side || cs[i].price != p {
        assert i < n ==> cs[..n][i] == cs[i];
        assert i >= n ==> cs[n..][i - n] == cs[i];
      }
      UntouchedKeepsQuantity(h, l, m.lastId, side, p);
    }
  }

  /** Inside an overlapping event the book shows the exchange's best levels at the event's id exactly
      when it shows every change still to come, or the change ranks below its trusted rows. */
  lemma RestExactly(h: seq<Change>, depth: nat, l: nat, m: DepthMessage, n: nat, b: Book, r: Replica, t: Trust)
    requires Summarises(h, m) && m.firstId <= l + 1 && l <= m.lastId && n <= LevelCount(m)
    requires r.lastUpdateId == m.lastId && r.book == AllApplied(BookAt(h, l), ChangesOf(UpdatesOf(m))[..n])
    requires Tracks(depth, b, r, t)
    ensures MatchesExchange(h, depth, b, t) <==> RestShown(b, t, m, n)
  {
    var cs, full := ChangesOf(UpdatesOf(m)), BookAt(h, m.lastId);
    HistoryHasNoEmptyLevels(h, l);
    AllAppliedHasNoEmptyLevels(BookAt(h, l), cs[..n]);
    MatchesExactly(h, depth, b, r, t);
    if MatchesExchange(h, depth, b, t) {
      forall i | n <= i < LevelCount(m) ensures ChangeShown(b, t, ChangeAt(m, i)) {
        var c := ChangeAt(m, i);
        assert cs[i] == c && cs[i].quantity == QuantityAt(full, cs[i].side, cs[i].price);
        assert LevelShown(b, t, c.side, c.price, QuantityAt(full, c.side, c.price));
      }
    }
    if RestShown(b, t, m, n) {
      forall side: Side, p: u64 ensures LevelShown(b, t, side, p, QuantityAt(full, side, p)) {
        ShownAnyway(h, depth, l, m, n, b, r, t, side, p);
      }
    }
  }

  lemma ShownAnyway(h: seq<Change>, depth: nat, l: nat, m: DepthMessage, n: nat, b: Book, r: Replica, t: Trust, side: Side, p: u64)
    requires Summarises(h, m) && m.firstId <= l + 1 && l <= m.lastId && n <= LevelCount(m)
    requires r.lastUpdateId == m.lastId && r.book == AllApplied(BookAt(h, l), ChangesOf(UpdatesOf(m))[..n])
    requires Tracks(depth, b, r, t) && RestShown(b, t, m, n)
    ensures LevelShown(b, t, side, p, QuantityAt(BookAt(h, m.lastId), side, p))
  {
    var cs := ChangesOf(UpdatesOf(m));
    if Touches(cs[n..], side, p) {
      var k :| 0 <= k < |cs[n..]| && cs[n..][k].side == side && cs[n..][k].price == p;
      assert cs[n + k] == ChangeAt(m, n + k);
      assert ChangeShown(b, t, ChangeAt(m, n + k));
    } else {
      OffTheRest(h, l, m, n, side, p);
      TrackedIsShown(depth, b, r, t, side, p);
    }
  }
}
