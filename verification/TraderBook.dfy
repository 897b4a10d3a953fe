/** The trader's bounded book over a run of updates: the ladders follow the exchange as long as
    their losses stay within the depth. */
module TraderBook {
  import opened Words
  import opened PriceLevels
  import opened MarketData
  import opened OrderBook
  import opened BookSync

  /** One update applied to the bounded book; `None` when a needed snapshot cannot be had. */
  ghost function ApplyUpdate(b: Book, depth: nat, u: OrderBookUpdate, replies: seq<Reply>): Option<(Book, seq<Reply>)> {
    match Classify(b.lastUpdateId, u)
    case Corrupted =>
      if replies == [] || replies[0].Unusable? then None
      else Some((SnapshotBook(replies[0], depth), replies[1..]))
    case TooOld => Some((b, replies))
    case Current =>
      Some((if u.side.Bid? then WithBid(b, depth, u.lastId, u.price, u.quantity)
            else WithAsk(b, depth, u.lastId, u.price, u.quantity), replies))
  }

  ghost function ApplyUpdates(b: Book, depth: nat, us: seq<OrderBookUpdate>, replies: seq<Reply>): Option<(Book, seq<Reply>)>
    decreases |us|
  {
    if us == [] then Some((b, replies))
    else match ApplyUpdate(b, depth, us[0], replies)
         case None => None
         case Some((b', rest)) => ApplyUpdates(b', depth, us[1..], rest)
  }

  /** The snapshot the exchange answers with at an id: the true best levels of both sides. */
  ghost function HonestReply(h: seq<Change>, depth: nat, id: nat): Reply
    requires id <= |h| < U64_LIMIT
  {
    var b := BookAt(h, id);
    Snapshot(id, Top(PriceDescending, depth, b.bids), Top(PriceAscending, depth, b.asks))
  }

  ghost predicate Honest(h: seq<Change>, depth: nat, replies: seq<Reply>, answers: seq<u64>) {
    && |replies| == |answers|
    && |h| < U64_LIMIT
    && forall i :: 0 <= i < |answers| && answers[i] <= |h| ==> replies[i] == HonestReply(h, depth, answers[i])
  }

  /** How many rows of each side are known to be the exchange's best levels. */
  datatype Trust = Trust(bids: nat, asks: nat)

  /** A snapshot restores all of it; an update changes it as it changes the exact rows of its side. */
  ghost function TrustAfter(t: Trust, b: Book, depth: nat, u: OrderBookUpdate): Trust {
    match Classify(b.lastUpdateId, u)
    case Corrupted => Trust(depth, depth)
    case TooOld => t
    case Current =>
      if u.side.Bid? then t.(bids := Min(depth, NextExact(PriceDescending, t.bids, b.bids, u.price, u.quantity)))
      else t.(asks := Min(depth, NextExact(PriceAscending, t.asks, b.asks, u.price, u.quantity)))
  }

  /** The ladders agree with the unbounded replica on all trusted rows. */
  ghost predicate Tracks(depth: nat, b: Book, r: Replica, t: Trust) {
    && b.lastUpdateId == r.lastUpdateId
    && BookOk(b, depth)
    && t.bids <= depth && t.asks <= depth
    && Exact(PriceDescending, t.bids, b.bids, r.book.bids)
    && Exact(PriceAscending, t.asks, b.asks, r.book.asks)
  }

  function SnapshotBook(s: Reply, depth: nat): Book
    requires s.Snapshot?
  {
    Book(s.lastUpdateId, s.bids[..Min(depth, |s.bids|)], s.asks[..Min(depth, |s.asks|)])
  }

  lemma SnapshotTracks(h: seq<Change>, depth: nat, id: u64)
    requires id <= |h| < U64_LIMIT
    ensures Tracks(depth, SnapshotBook(HonestReply(h, depth, id), depth), Replica(id, BookAt(h, id)), Trust(depth, depth))
  {
    var full := BookAt(h, id);
    TopFits(PriceDescending, depth, full.bids);
    TopFits(PriceAscending, depth, full.asks);
  }

  /** The best levels are a ladder of their own, and fit. */
  lemma TopFits(o: SideOrder, depth: nat, m: Levels)
    ensures var rows := Top(o, depth, m);
            rows[..Min(depth, |rows|)] == rows && Sorted(o, rows) && |rows| <= depth && Exact(o, depth, rows, m)
  {
    TopIsExact(o, depth, m);
    TopIsSorted(o, depth, m);
    var rows := Top(o, depth, m);
    assert Min(depth, |rows|) == |rows|;
  }

  lemma UpdateKeepsTracking(h: seq<Change>, depth: nat, b: Book, r: Replica, t: Trust, u: OrderBookUpdate,
                            replies: seq<Reply>, answers: seq<u64>)
    requires Tracks(depth, b, r, t) && Honest(h, depth, replies, answers)
    requires ApplyFull(h, r, u, answers).Some?
    ensures var full, bounded := ApplyFull(h, r, u, answers).value, ApplyUpdate(b, depth, u, replies);
            && bounded.Some?
            && Tracks(depth, bounded.value.0, full.0, TrustAfter(t, b, depth, u))
            && Honest(h, depth, bounded.value.1, full.1)
  {
    match Classify(r.lastUpdateId, u)
    case Corrupted =>
      assert replies[0] == HonestReply(h, depth, answers[0]);
      SnapshotTracks(h, depth, answers[0]);
    case TooOld =>
    case Current =>
      CurrentKeepsTracking(depth, b, r, t, u);
  }

  lemma CurrentKeepsTracking(depth: nat, b: Book, r: Replica, t: Trust, u: OrderBookUpdate)
    requires Tracks(depth, b, r, t) && Classify(b.lastUpdateId, u).Current?
    ensures Tracks(depth,
                   if u.side.Bid? then WithBid(b, depth, u.lastId, u.price, u.quantity)
                   else WithAsk(b, depth, u.lastId, u.price, u.quantity),
                   Replica(u.lastId, Applied(r.book, Change(u.side, u.price, u.quantity))),
                   TrustAfter(t, b, depth, u))
  {
    if u.side.Bid? {
      UpdateKeepsExact(PriceDescending, depth, t.bids, b.bids, r.book.bids, u.price, u.quantity);
    } else {
      UpdateKeepsExact(PriceAscending, depth, t.asks, b.asks, r.book.asks, u.price, u.quantity);
    }
  }

  ghost function TrustAfterAll(t: Trust, b: Book, depth: nat, us: seq<OrderBookUpdate>, replies: seq<Reply>): Trust
    decreases |us|
  {
    if us == [] then t
    else match ApplyUpdate(b, depth, us[0], replies)
         case None => t
         case Some((b', rest)) => TrustAfterAll(TrustAfter(t, b, depth, us[0]), b', depth, us[1..], rest)
  }

  /** After any updates, at event boundaries or not, the ladders track the replica that takes the
      same updates on unbounded sides. */
  lemma {:induction false} UpdatesKeepTracking(h: seq<Change>, depth: nat, b: Book, r: Replica, t: Trust,
                                               us: seq<OrderBookUpdate>, replies: seq<Reply>, answers: seq<u64>)
    requires Tracks(depth, b, r, t) && Honest(h, depth, replies, answers)
    requires ApplyAllFull(h, r, us, answers).Some?
    ensures var full, bounded := ApplyAllFull(h, r, us, answers).value, ApplyUpdates(b, depth, us, replies);
            && bounded.Some?
            && Tracks(depth, bounded.value.0, full.0, TrustAfterAll(t, b, depth, us, replies))
            && Honest(h, depth, bounded.value.1, full.1)
    decreases |us|
  {
    if us != [] {
      UpdateKeepsTracking(h, depth, b, r, t, us[0], replies, answers);
      var full, bounded := ApplyFull(h, r, us[0], answers).value, ApplyUpdate(b, depth, us[0], replies).value;
      UpdatesKeepTracking(h, depth, bounded.0, full.0, TrustAfter(t, b, depth, us[0]), us[1..], bounded.1, full.1);
    }
  }

  // ---- Counting deletions ----

  /** Deletions applied to each side since the last snapshot. */
  datatype Losses = Losses(bids: nat, asks: nat)

  function LossesAfter(l: Losses, lastUpdateId: u64, u: OrderBookUpdate): Losses {
    match Classify(lastUpdateId, u)
    case Corrupted => Losses(0, 0)
    case TooOld => l
    case Current =>
      if u.quantity != 0 then l
      else if u.side.Bid? then l.(bids := l.bids + 1)
      else l.(asks := l.asks + 1)
  }

  ghost function LossesAfterAll(l: Losses, b: Book, depth: nat, us: seq<OrderBookUpdate>, replies: seq<Reply>): Losses
    decreases |us|
  {
    if us == [] then l
    else match ApplyUpdate(b, depth, us[0], replies)
         case None => l
         case Some((b', rest)) => LossesAfterAll(LossesAfter(l, b.lastUpdateId, us[0]), b', depth, us[1..], rest)
  }

  /** Each deletion costs at most one trusted row of its side. */
  lemma {:induction false} TrustIsDepthLessLosses(depth: nat, t: Trust, l: Losses, b: Book, us: seq<OrderBookUpdate>, replies: seq<Reply>)
    requires t.bids + l.bids >= depth && t.asks + l.asks >= depth
    ensures var t', l' := TrustAfterAll(t, b, depth, us, replies), LossesAfterAll(l, b, depth, us, replies);
            t'.bids + l'.bids >= depth && t'.asks + l'.asks >= depth
    decreases |us|
  {
    if us != [] {
      var next := ApplyUpdate(b, depth, us[0], replies);
      if next.Some? {
        TrustIsDepthLessLosses(depth, TrustAfter(t, b, depth, us[0]), LossesAfter(l, b.lastUpdateId, us[0]),
                               next.value.0, us[1..], next.value.1);
      }
    }
  }

  // ---- Runs of events ----

  function Flattened(ms: seq<DepthMessage>): seq<OrderBookUpdate> {
    if ms == [] then [] else UpdatesOf(ms[0]) + Flattened(ms[1..])
  }

  lemma {:induction false} ApplyAllFullAppend(h: seq<Change>, r: Replica, us: seq<OrderBookUpdate>, vs: seq<OrderBookUpdate>, answers: seq<u64>)
    requires ApplyAllFull(h, r, us, answers).Some?
    ensures var mid := ApplyAllFull(h, r, us, answers).value;
            ApplyAllFull(h, r, us + vs, answers) == ApplyAllFull(h, mid.0, vs, mid.1)
    decreases |us|
  {
    if us == [] {
      assert us + vs == vs;
    } else {
      assert (us + vs)[1..] == us[1..] + vs;
      var next := ApplyFull(h, r, us[0], answers).value;
      ApplyAllFullAppend(h, next.0, us[1..], vs, next.1);
    }
  }

  lemma {:induction false} RunFullIsFlat(h: seq<Change>, r: Replica, ms: seq<DepthMessage>, answers: seq<u64>)
    requires RunFull(h, r, ms, answers).Some?
    ensures ApplyAllFull(h, r, Flattened(ms), answers) == RunFull(h, r, ms, answers)
    decreases |ms|
  {
    if ms != [] {
      var (r', rest) := ApplyAllFull(h, r, UpdatesOf(ms[0]), answers).value;
      ApplyAllFullAppend(h, r, UpdatesOf(ms[0]), Flattened(ms[1..]), answers);
      RunFullIsFlat(h, r', ms[1..], rest);
    }
  }

  /** The best `k` rows are the true best `k` levels for every trusted `k`. */
  ghost predicate TrueUpTo(o: SideOrder, trusted: nat, rows: seq<Row>, m: Levels) {
    forall k: nat {:trigger Top(o, k, m)} :: k <= trusted ==> rows[..Min(k, |rows|)] == Top(o, k, m)
  }

  lemma ExactIsTrue(o: SideOrder, e: nat, rows: seq<Row>, m: Levels)
    requires Exact(o, e, rows, m)
    ensures TrueUpTo(o, e, rows, m)
  {
    forall k: nat | k <= e ensures rows[..Min(k, |rows|)] == Top(o, k, m) {
      FewerIsExact(o, e, k, rows, m);
    }
  }

  ghost predicate MatchesExchange(h: seq<Change>, depth: nat, b: Book, t: Trust) {
    && b.lastUpdateId <= |h|
    && BookOk(b, depth)
    && TrueUpTo(PriceDescending, t.bids, b.bids, BookAt(h, b.lastUpdateId).bids)
    && TrueUpTo(PriceAscending, t.asks, b.asks, BookAt(h, b.lastUpdateId).asks)
  }

  lemma SyncedTrackingMatches(h: seq<Change>, depth: nat, b: Book, r: Replica, t: Trust)
    requires Synced(h, r) && Tracks(depth, b, r, t)
    ensures MatchesExchange(h, depth, b, t)
  {
    ExactIsTrue(PriceDescending, t.bids, b.bids, r.book.bids);
    ExactIsTrue(PriceAscending, t.asks, b.asks, r.book.asks);
  }

  const EMPTY_BOOK := Book(0, [], [])

  lemma EmptyBookTracks(h: seq<Change>, depth: nat)
    ensures Tracks(depth, EMPTY_BOOK, Replica(0, BookAt(h, 0)), Trust(depth, depth))
  {}

  /** At event boundaries. Start from an empty book and apply any events in any order, with any gaps,
      the first possibly from its middle; as long as no snapshot is older than the event that asked
      for it, the trusted rows of each side are the exchange's best levels at `lastUpdateId`. */
  lemma TraderBookIsExchangeBook(h: seq<Change>, depth: nat, ms: seq<DepthMessage>, replies: seq<Reply>, answers: seq<u64>)
    requires |h| < U64_LIMIT - 1 && Honest(h, depth, replies, answers)
    requires AllFollowable(h, 0, ms) && FreshThroughout(h, Replica(0, BookAt(h, 0)), ms, answers)
    ensures ApplyUpdates(EMPTY_BOOK, depth, Flattened(ms), replies).Some?
    ensures MatchesExchange(h, depth, ApplyUpdates(EMPTY_BOOK, depth, Flattened(ms), replies).value.0,
                            TrustAfterAll(Trust(depth, depth), EMPTY_BOOK, depth, Flattened(ms), replies))
  {
    var r, us := Replica(0, BookAt(h, 0)), Flattened(ms);
    RunKeepsSync(h, r, ms, answers);
    RunFullIsFlat(h, r, ms, answers);
    EmptyBookTracks(h, depth);
    UpdatesKeepTracking(h, depth, EMPTY_BOOK, r, Trust(depth, depth), us, replies, answers);
    SyncedTrackingMatches(h, depth, ApplyUpdates(EMPTY_BOOK, depth, us, replies).value.0,
                          ApplyAllFull(h, r, us, answers).value.0,
                          TrustAfterAll(Trust(depth, depth), EMPTY_BOOK, depth, us, replies));
  }
}
