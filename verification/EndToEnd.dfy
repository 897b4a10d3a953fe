/** From the exchange's documents to the trader's book. */
module EndToEnd {
  import opened Words
  import opened PriceLevels
  import opened MarketData
  import opened Json
  import opened OrderBook
  import opened BookSync
  import opened TraderBook
  import opened BookProcessor
  import opened WireFormat
  import opened Strategy
  import opened Trader
  import opened OrdersOnExchange
  import opened SpscRingBuffer
  import P = SpscProtocol
  import S = SnapshotHandler
  import C = CombinedHandler
  import M = EventMeaning

  // ---- Snapshots ----

  /** The document the snapshot service sends for an id, when it lists `listed` levels a side. */
  ghost function SnapshotDocument(h: seq<Change>, listed: nat, id: u64): Json
    requires id <= |h|
  {
    var b := BookAt(h, id);
    Obj(SnapshotMembers(id, Top(PriceDescending, listed, b.bids), Top(PriceAscending, listed, b.asks)))
  }

  ghost function ParsedReplies(h: seq<Change>, listed: nat, answers: seq<u64>): (replies: seq<Reply>)
    ensures |replies| == |answers|
  {
    seq(|answers|, i requires 0 <= i < |answers| =>
      if answers[i] <= |h| then S.Meaning(SnapshotDocument(h, listed, answers[i])) else Unusable)
  }

  /** A service that lists at least as many levels as the book is deep answers honestly. */
  lemma ParsedRepliesAreHonest(h: seq<Change>, listed: nat, answers: seq<u64>)
    requires listed >= S.BOOK_DEPTH && |h| < U64_LIMIT
    ensures Honest(h, S.BOOK_DEPTH, ParsedReplies(h, listed, answers), answers)
  {
    forall i | 0 <= i < |answers| && answers[i] <= |h|
      ensures ParsedReplies(h, listed, answers)[i] == HonestReply(h, S.BOOK_DEPTH, answers[i])
    {
      var b := BookAt(h, answers[i]);
      SnapshotRoundTrip(answers[i], Top(PriceDescending, listed, b.bids), Top(PriceAscending, listed, b.asks));
      TopOfTop(PriceDescending, S.BOOK_DEPTH, listed, b.bids);
      TopOfTop(PriceAscending, S.BOOK_DEPTH, listed, b.asks);
    }
  }

  // ---- Depth events ----

  function EventDocument(stream: string, m: DepthMessage): Json {
    M.EnvelopeOf(stream, DepthObjects([m]))
  }

  /** The updates that the feeder's parser releases for the documents, in order. */
  ghost function ReleasedUpdates(stream: string, ms: seq<DepthMessage>): seq<OrderBookUpdate> {
    if ms == [] then []
    else (match C.ParsedEvent(EventDocument(stream, ms[0]))
          case Some(DepthUpdates(us)) => us
          case _ => []) + ReleasedUpdates(stream, ms[1..])
  }

  function AllReceived(ms: seq<DepthMessage>): (rs: seq<DepthMessage>)
    ensures |rs| == |ms| && forall i :: 0 <= i < |ms| ==> rs[i] == Received(ms[i])
  {
    seq(|ms|, i requires 0 <= i < |ms| => Received(ms[i]))
  }

  lemma ReleasedFirst(stream: string, ms: seq<DepthMessage>)
    requires C.NamesDepth(M.CutName(stream)) && ms != [] && FitsDepthEvent(ms[0])
    ensures ReleasedUpdates(stream, ms) == UpdatesOf(Received(ms[0])) + ReleasedUpdates(stream, ms[1..])
  {
    DepthEventByName(stream, ms[0]);
  }

  lemma {:induction false} ReleasedAreFlattened(stream: string, ms: seq<DepthMessage>)
    requires C.NamesDepth(M.CutName(stream))
    requires forall i :: 0 <= i < |ms| ==> FitsDepthEvent(ms[i])
    ensures ReleasedUpdates(stream, ms) == Flattened(AllReceived(ms))
    decreases |ms|
  {
    if ms != [] {
      ReleasedFirst(stream, ms);
      ReleasedAreFlattened(stream, ms[1..]);
      assert AllReceived(ms)[1..] == AllReceived(ms[1..]);
    }
  }

  lemma ReceivedSummarises(h: seq<Change>, m: DepthMessage)
    requires Summarises(h, m)
    ensures Summarises(h, Received(m))
  {
    var us, vs := UpdatesOf(m), UpdatesOf(Received(m));
    forall i | 0 <= i < |us| ensures ChangesOf(us)[i] == ChangesOf(vs)[i] {
      assert us[i] == UpdateAt(m, i) && vs[i] == UpdateAt(Received(m), i);
    }
    assert ChangesOf(us) == ChangesOf(vs);
  }

  ghost predicate AllSummarise(h: seq<Change>, ms: seq<DepthMessage>) {
    forall i :: 0 <= i < |ms| ==> Summarises(h, ms[i])
  }

  lemma AllReceivedSummarise(h: seq<Change>, ms: seq<DepthMessage>)
    requires AllSummarise(h, ms)
    ensures AllSummarise(h, AllReceived(ms))
  {
    forall i | 0 <= i < |ms| ensures Summarises(h, AllReceived(ms)[i]) {
      ReceivedSummarises(h, ms[i]);
    }
  }

  // ---- Starting in the middle ----

  /** The events as a consumer meets them that starts after the first `n` updates. */
  function EventsFrom(ms: seq<DepthMessage>, n: nat): (rest: seq<DepthMessage>)
    requires n <= |Flattened(ms)|
    decreases |ms|
  {
    if n == 0 then ms
    else if n >= LevelCount(ms[0]) then EventsFrom(ms[1..], n - LevelCount(ms[0]))
    else [Trimmed(ms[0], n)] + ms[1..]
  }

  lemma EventsFromUnfolds(ms: seq<DepthMessage>, n: nat)
    requires 0 < n <= |Flattened(ms)|
    ensures ms != [] && Flattened(ms) == UpdatesOf(ms[0]) + Flattened(ms[1..])
    ensures var k := LevelCount(ms[0]);
            if n >= k then n - k <= |Flattened(ms[1..])| && EventsFrom(ms, n) == EventsFrom(ms[1..], n - k)
            else EventsFrom(ms, n) == [Trimmed(ms[0], n)] + ms[1..]
  {}

  lemma SkipEvent(ms: seq<DepthMessage>, n: nat)
    requires ms != [] && 0 < n <= |Flattened(ms)| && n >= LevelCount(ms[0])
    requires var k := n - LevelCount(ms[0]);
             k <= |Flattened(ms[1..])| && Flattened(EventsFrom(ms[1..], k)) == Flattened(ms[1..])[k..]
    ensures Flattened(EventsFrom(ms, n)) == Flattened(ms)[n..]
  {
    EventsFromUnfolds(ms, n);
    DropFromConcat(UpdatesOf(ms[0]), Flattened(ms[1..]), n);
  }

  lemma CutEvent(ms: seq<DepthMessage>, n: nat)
    requires ms != [] && 0 < n <= |Flattened(ms)| && n < LevelCount(ms[0])
    ensures Flattened(EventsFrom(ms, n)) == Flattened(ms)[n..]
  {
    EventsFromUnfolds(ms, n);
    DropFromConcat(UpdatesOf(ms[0]), Flattened(ms[1..]), n);
    CutUpdates(ms, n);
  }

  lemma {:induction false} UpdatesFrom(ms: seq<DepthMessage>, n: nat)
    requires n <= |Flattened(ms)|
    ensures Flattened(EventsFrom(ms, n)) == Flattened(ms)[n..]
    decreases |ms|
  {
    if n == 0 {
      WholeSequence(Flattened(ms));
    } else {
      EventsFromUnfolds(ms, n);
      if n >= LevelCount(ms[0]) {
        UpdatesFrom(ms[1..], n - LevelCount(ms[0]));
        SkipEvent(ms, n);
      } else {
        CutEvent(ms, n);
      }
    }
  }

  lemma WholeSequence<T>(xs: seq<T>)
    ensures xs[0..] == xs
  {}

  lemma DropFromConcat<T>(xs: seq<T>, ys: seq<T>, n: nat)
    requires n <= |xs| + |ys|
    ensures (xs + ys)[n..] == if n >= |xs| then ys[n - |xs|..] else xs[n..] + ys
  {}

  lemma CutUpdates(ms: seq<DepthMessage>, n: nat)
    requires ms != [] && n <= LevelCount(ms[0])
    ensures Flattened([Trimmed(ms[0], n)] + ms[1..]) == UpdatesOf(ms[0])[n..] + Flattened(ms[1..])
  {
    TrimmedUpdates(ms[0], n);
    assert ([Trimmed(ms[0], n)] + ms[1..])[1..] == ms[1..];
  }

  /** No event may be cut in its middle that could follow the empty book without a snapshot. */
  ghost predicate CutShowsGap(ms: seq<DepthMessage>, n: nat) {
    n == 0 || forall i :: 0 <= i < |ms| ==> ms[i].firstId > 1
  }

  lemma CutEventIsFollowable(h: seq<Change>, m: DepthMessage, n: nat)
    requires Summarises(h, m) && n < LevelCount(m) && m.firstId > 1
    ensures Followable(h, 0, Trimmed(m, n))
  {
    SummaryIsPart(h, m);
    TrimmedIsPart(h, m, n);
  }

  lemma FollowableThenWhole(h: seq<Change>, m: DepthMessage, ms: seq<DepthMessage>)
    requires Followable(h, 0, m) && AllSummarise(h, ms)
    ensures AllFollowable(h, 0, [m] + ms)
  {
    var all := [m] + ms;
    assert forall i :: 1 <= i < |all| ==> all[i] == ms[i - 1];
  }

  lemma CutIsFollowable(h: seq<Change>, ms: seq<DepthMessage>, n: nat)
    requires ms != [] && AllSummarise(h, ms) && n < LevelCount(ms[0]) && ms[0].firstId > 1
    ensures AllFollowable(h, 0, [Trimmed(ms[0], n)] + ms[1..])
  {
    CutEventIsFollowable(h, ms[0], n);
    FollowableThenWhole(h, Trimmed(ms[0], n), ms[1..]);
  }

  lemma TailSummarises(h: seq<Change>, ms: seq<DepthMessage>, n: nat, k: nat)
    requires ms != [] && AllSummarise(h, ms) && n > 0 && CutShowsGap(ms, n)
    ensures AllSummarise(h, ms[1..]) && CutShowsGap(ms[1..], k)
  {
    assert forall i :: 0 <= i < |ms[1..]| ==> ms[1..][i] == ms[i + 1];
  }

  lemma WholeEventsAreFollowable(h: seq<Change>, ms: seq<DepthMessage>)
    requires AllSummarise(h, ms)
    ensures AllFollowable(h, 0, ms)
  {
    if ms != [] {
      SummaryIsPart(h, ms[0]);
    }
  }

  lemma FollowableFromCut(h: seq<Change>, ms: seq<DepthMessage>, n: nat)
    requires 0 < n <= |Flattened(ms)| && CutShowsGap(ms, n) && AllSummarise(h, ms)
    requires ms != [] && n < LevelCount(ms[0])
    ensures AllFollowable(h, 0, EventsFrom(ms, n))
  {
    assert ms[0].firstId > 1;
    EventsFromUnfolds(ms, n);
    CutIsFollowable(h, ms, n);
  }

  lemma {:induction false} EventsFromAreFollowable(h: seq<Change>, ms: seq<DepthMessage>, n: nat)
    requires n <= |Flattened(ms)| && CutShowsGap(ms, n) && AllSummarise(h, ms)
    ensures AllFollowable(h, 0, EventsFrom(ms, n))
    decreases |ms|
  {
    if n == 0 {
      WholeEventsAreFollowable(h, ms);
      return;
    }
    EventsFromUnfolds(ms, n);
    if n < LevelCount(ms[0]) {
      FollowableFromCut(h, ms, n);
      return;
    }
    var rest, k := ms[1..], n - LevelCount(ms[0]);
    TailSummarises(h, ms, n, k);
    EventsFromAreFollowable(h, rest, k);
    assert EventsFrom(ms, n) == EventsFrom(rest, k);
  }

  // ---- Through the ring ----

  function PlainAll(us: seq<OrderBookUpdate>): (ps: seq<OrderBookUpdate>)
    ensures |ps| == |us| && forall i :: 0 <= i < |us| ==> ps[i] == Plain(us[i])
  {
    seq(|us|, i requires 0 <= i < |us| => Plain(us[i]))
  }

  /** What a read copies: the item, or, from a slot that is being overwritten, some mixture. */
  function ItemOf(cell: P.Cell<OrderBookUpdate>, mixture: OrderBookUpdate): OrderBookUpdate {
    if cell.Whole? then cell.item else mixture
  }

  function PlainItems(cells: seq<P.Cell<OrderBookUpdate>>, mixture: OrderBookUpdate): (us: seq<OrderBookUpdate>)
    ensures |us| == |cells| && forall i :: 0 <= i < |cells| ==> us[i] == Plain(ItemOf(cells[i], mixture))
  {
    seq(|cells|, i requires 0 <= i < |cells| => Plain(ItemOf(cells[i], mixture)))
  }

  /** The results of the reads as the trader gets them, each with the clock just after it. */
  function FeedOf(os: seq<P.ReadOutcome<OrderBookUpdate>>, clocks: seq<u64>, mixture: OrderBookUpdate): (feed: seq<Reading>)
    requires |os| <= |clocks|
    ensures |feed| == |os|
  {
    seq(|os|, i requires 0 <= i < |os| =>
      Reading(match os[i]
              case Success(data) => ReadResult.Success(ItemOf(data, mixture))
              case BufferIsEmpty => ReadResult.BufferIsEmpty
              case ConsumerIsDisabled => ReadResult.ConsumerIsDisabled, clocks[i]))
  }

  lemma {:induction false} FeedDelivers(os: seq<P.ReadOutcome<OrderBookUpdate>>, clocks: seq<u64>, mixture: OrderBookUpdate)
    requires |os| <= |clocks|
    ensures Updates(FeedOf(os, clocks, mixture)) == PlainItems(P.Successes(os), mixture)
    decreases |os|
  {
    if os != [] {
      FeedDelivers(os[1..], clocks[1..], mixture);
      var cells, rest := P.Successes(os), P.Successes(os[1..]);
      assert FeedOf(os, clocks, mixture)[1..] == FeedOf(os[1..], clocks[1..], mixture);
      if os[0].Success? {
        assert cells == [os[0].data] + rest;
        assert PlainItems(cells, mixture) == [Plain(ItemOf(os[0].data, mixture))] + PlainItems(rest, mixture);
      } else {
        assert cells == rest;
      }
    }
  }

  /** Certain items reach the trader's updates as the log holds them, whatever the clocks show. */
  lemma CertainItems(os: seq<P.ReadOutcome<OrderBookUpdate>>, log: seq<OrderBookUpdate>, base: nat, k: nat,
                     clocks: seq<u64>, mixture: OrderBookUpdate)
    requires P.FollowLog(P.Successes(os), log, base, k) && |os| <= |clocks|
    ensures var us := Updates(FeedOf(os, clocks, mixture));
            |us| == |P.Successes(os)| && us[..k] == PlainAll(log[base..base + k])
  {
    FeedDelivers(os, clocks, mixture);
    forall i | 0 <= i < k ensures PlainItems(P.Successes(os), mixture)[i] == Plain(log[base..base + k][i]) {
      assert P.Successes(os)[i] == P.Whole(log[base + i]);
    }
  }

  /** Over a run from a clean reset the trader's feed delivers the writes that follow the reset, in
      order, none lost, repeated or torn, up to the last one: that one is certain too unless the
      consumer has been disabled. A consumer active at the end was never told that it was disabled. */
  lemma RingDelivers(s: P.State<OrderBookUpdate>, acts: seq<P.Action<OrderBookUpdate>>, clocks: seq<u64>, mixture: OrderBookUpdate)
    returns (os: seq<P.ReadOutcome<OrderBookUpdate>>, certain: nat)
    requires P.RunFromReset(s, acts) && |P.Run(s, acts).outcomes| <= |clocks|
    ensures P.Run(s, acts).outcomes == s.outcomes + os && certain == P.Certain(P.Run(s, acts))
    ensures var s', us := P.Run(s, acts), Updates(FeedOf(os, clocks, mixture));
            && s.base + certain <= |s'.log| && |us| - 1 <= certain <= |us|
            && us[..certain] == PlainAll(s'.log[s.base..s.base + certain])
            && (s'.active ==> certain == |us| && forall i :: 0 <= i < |os| ==> !FeedOf(os, clocks, mixture)[i].result.ConsumerIsDisabled?)
  {
    os, certain := P.ReadsAfterReset(s, acts);
    CertainItems(os, P.Run(s, acts).log, s.base, certain, clocks, mixture);
  }

  // ---- The whole pipeline ----

  /** The exchange and what it sends: depth events that summarise its history, and snapshots of it
      that list at least the depth of the book and are no older than the event that asks. */
  ghost predicate Exchange(h: seq<Change>, stream: string, ms: seq<DepthMessage>, listed: nat, answers: seq<u64>, skipped: nat) {
    && |h| < U64_LIMIT - 1 && listed >= S.BOOK_DEPTH
    && C.NamesDepth(M.CutName(stream))
    && AllSummarise(h, ms) && (forall i :: 0 <= i < |ms| ==> FitsDepthEvent(ms[i]))
    && CutShowsGap(ms, skipped)
    && skipped <= |Flattened(AllReceived(ms))|
    && FreshThroughout(h, StartReplica(h), EventsFrom(AllReceived(ms), skipped), answers)
  }

  /** The feeder has written the updates its parser released, with its stamps, in order. */
  ghost predicate FeederWrote(stream: string, ms: seq<DepthMessage>, log: seq<OrderBookUpdate>) {
    PlainAll(log) <= ReleasedUpdates(stream, ms)
  }

  lemma SliceOfReleased(stream: string, ms: seq<DepthMessage>, log: seq<OrderBookUpdate>, a: nat, b: nat)
    requires C.NamesDepth(M.CutName(stream))
    requires forall i :: 0 <= i < |ms| ==> FitsDepthEvent(ms[i])
    requires FeederWrote(stream, ms, log) && a <= b <= |log|
    ensures a <= |Flattened(AllReceived(ms))|
    ensures PlainAll(log[a..b]) <= Flattened(EventsFrom(AllReceived(ms), a))
  {
    ReleasedAreFlattened(stream, ms);
    var all := Flattened(AllReceived(ms));
    UpdatesFrom(AllReceived(ms), a);
    forall i | 0 <= i < b - a ensures PlainAll(log[a..b])[i] == all[a..][i] {
      assert PlainAll(log)[a + i] == all[a + i];
    }
  }

  lemma ReadIsPrefix(t: Turn, depth: nat, window: u64, rs: seq<TradeReading>, i: nat)
    requires i < |Turns(t, depth, window, rs)|
    ensures ReadBefore(t, depth, window, rs, i) <= Updates(t.view.feed)
  {
    TurnsReach(t, depth, window, rs, i);
    var feed, c := t.view.feed, Consumed(t.view, Turns(t, depth, window, rs)[i].view);
    assert feed == feed[..c] + feed[c..];
    UpdatesAppend(feed[..c], feed[c..]);
  }

  lemma ShorterPrefix<T>(us: seq<T>, all: seq<T>, k: nat, whole: seq<T>)
    requires us <= all && |us| <= k <= |all| && all[..k] <= whole
    ensures us <= whole
  {
    assert forall i :: 0 <= i < |us| ==> us[i] == all[..k][i];
  }

  /** The events as the trader meets them after its reset. */
  function EventsMet(ms: seq<DepthMessage>, skipped: nat): seq<DepthMessage>
    requires skipped <= |Flattened(AllReceived(ms))|
  {
    EventsFrom(AllReceived(ms), skipped)
  }

  /** The `i`-th decision, unless it has read an uncertain item, has read updates of the events met,
      and is taken on the exchange's best levels exactly when nothing is missing: so it is when the
      rest of an event is no news, and at the end of an event. */
  ghost predicate DecidesRight(h: seq<Change>, met: seq<DepthMessage>, answers: seq<u64>, t: Turn, window: u64,
                               rs: seq<TradeReading>, certain: nat, i: nat) {
    && i < |Turns(t, S.BOOK_DEPTH, window, rs)|
    && var us := ReadBefore(t, S.BOOK_DEPTH, window, rs, i);
       var b, trust := Turns(t, S.BOOK_DEPTH, window, rs)[i].view.book, TrustFrom(S.BOOK_DEPTH, us, t.view.replies);
       |us| <= certain ==>
         && us <= Flattened(met)
         && (MatchesExchange(h, S.BOOK_DEPTH, b, trust) <==> NothingMissing(h, met, answers, |us|, b, trust))
         && (NothingPending(h, met, answers, |us|) ==> NothingMissing(h, met, answers, |us|, b, trust))
         && (AtBoundary(us) ==> NothingPending(h, met, answers, |us|))
  }

  /** The `k`-th order is made in a pass of its own, does not repeat the one before, and is right in
      that pass. */
  ghost predicate OrderedRight(h: seq<Change>, met: seq<DepthMessage>, answers: seq<u64>, t: Turn, window: u64,
                               rs: seq<TradeReading>, last: Order, k: nat) {
    var ps, passes := OrdersOf(t, last, S.BOOK_DEPTH, window, rs), OrderPasses(t, last, S.BOOK_DEPTH, window, rs);
    && k < |ps| == |passes|
    && MadeBy(last, MomentsOf(Turns(t, S.BOOK_DEPTH, window, rs)), k, passes[k])
    && (forall j :: 0 <= j < k ==> passes[j] < passes[k])
    && Differs(ps[k].order, OrderBefore(last, ps, k))
    && RightAt(h, S.BOOK_DEPTH, met, answers, t, window, rs, ps[k], passes[k])
  }

  lemma DecisionIsRight(h: seq<Change>, met: seq<DepthMessage>, feed: seq<Reading>, replies: seq<Reply>, answers: seq<u64>,
                        window: u64, rs: seq<TradeReading>, certain: nat, i: nat)
    requires CanFollow(h, met, answers) && Honest(h, S.BOOK_DEPTH, replies, answers)
    requires certain <= |Updates(feed)| && Updates(feed)[..certain] <= Flattened(met)
    requires i < |Turns(FirstTurn(feed, replies), S.BOOK_DEPTH, window, rs)|
    ensures DecidesRight(h, met, answers, FirstTurn(feed, replies), window, rs, certain, i)
  {
    var us := ReadBefore(FirstTurn(feed, replies), S.BOOK_DEPTH, window, rs, i);
    if |us| <= certain {
      ReadIsPrefix(FirstTurn(feed, replies), S.BOOK_DEPTH, window, rs, i);
      ShorterPrefix(us, Updates(feed), certain, Flattened(met));
      DecisionsMatchExchange(h, S.BOOK_DEPTH, met, feed, replies, answers, window, rs, i);
    }
  }

  lemma OrderIsRight(h: seq<Change>, met: seq<DepthMessage>, feed: seq<Reading>, replies: seq<Reply>, answers: seq<u64>,
                     window: u64, rs: seq<TradeReading>, last: Order, k: nat)
    requires CanFollow(h, met, answers) && Honest(h, S.BOOK_DEPTH, replies, answers)
    requires k < |OrdersOf(FirstTurn(feed, replies), last, S.BOOK_DEPTH, window, rs)|
    ensures OrderedRight(h, met, answers, FirstTurn(feed, replies), window, rs, last, k)
  {
    OrdersFollowExchange(h, S.BOOK_DEPTH, met, feed, replies, answers, window, rs, last, k);
  }

  lemma ExchangeCanBeFollowed(h: seq<Change>, stream: string, ms: seq<DepthMessage>, listed: nat, answers: seq<u64>, skipped: nat)
    requires Exchange(h, stream, ms, listed, answers, skipped)
    ensures CanFollow(h, EventsMet(ms, skipped), answers)
    ensures Honest(h, S.BOOK_DEPTH, ParsedReplies(h, listed, answers), answers)
  {
    ParsedRepliesAreHonest(h, listed, answers);
    AllReceivedSummarise(h, ms);
    EventsFromAreFollowable(h, AllReceived(ms), skipped);
  }

  /** What is said of every decision and of every order of a run of the trader. */
  ghost predicate TraderIsRight(h: seq<Change>, met: seq<DepthMessage>, answers: seq<u64>, t: Turn, window: u64,
                                rs: seq<TradeReading>, last: Order, certain: nat) {
    && (forall i :: 0 <= i < |Turns(t, S.BOOK_DEPTH, window, rs)| ==> DecidesRight(h, met, answers, t, window, rs, certain, i))
    && (forall k :: 0 <= k < |OrdersOf(t, last, S.BOOK_DEPTH, window, rs)| ==> OrderedRight(h, met, answers, t, window, rs, last, k))
  }

  lemma RunIsRight(h: seq<Change>, met: seq<DepthMessage>, feed: seq<Reading>, replies: seq<Reply>, answers: seq<u64>,
                   window: u64, rs: seq<TradeReading>, last: Order, certain: nat)
    requires CanFollow(h, met, answers) && Honest(h, S.BOOK_DEPTH, replies, answers)
    requires certain <= |Updates(feed)| && Updates(feed)[..certain] <= Flattened(met)
    ensures TraderIsRight(h, met, answers, FirstTurn(feed, replies), window, rs, last, certain)
  {
    var t := FirstTurn(feed, replies);
    forall i | 0 <= i < |Turns(t, S.BOOK_DEPTH, window, rs)| ensures DecidesRight(h, met, answers, t, window, rs, certain, i) {
      DecisionIsRight(h, met, feed, replies, answers, window, rs, certain, i);
    }
    forall k | 0 <= k < |OrdersOf(t, last, S.BOOK_DEPTH, window, rs)| ensures OrderedRight(h, met, answers, t, window, rs, last, k) {
      OrderIsRight(h, met, feed, replies, answers, window, rs, last, k);
    }
  }

  lemma SliceIsMet(h: seq<Change>, stream: string, ms: seq<DepthMessage>, listed: nat, answers: seq<u64>,
                   log: seq<OrderBookUpdate>, base: nat, certain: nat)
    requires Exchange(h, stream, ms, listed, answers, base) && FeederWrote(stream, ms, log) && base + certain <= |log|
    ensures PlainAll(log[base..base + certain]) <= Flattened(EventsMet(ms, base))
  {
    SliceOfReleased(stream, ms, log, base, base + certain);
  }

  /** A feed that starts with the items of a slice of the log, whatever follows them. */
  lemma SliceIsRight(h: seq<Change>, stream: string, ms: seq<DepthMessage>, listed: nat, answers: seq<u64>,
                     log: seq<OrderBookUpdate>, base: nat, certain: nat, feed: seq<Reading>,
                     window: u64, rs: seq<TradeReading>, last: Order)
    requires Exchange(h, stream, ms, listed, answers, base) && FeederWrote(stream, ms, log)
    requires base + certain <= |log| && certain <= |Updates(feed)|
    requires Updates(feed)[..certain] == PlainAll(log[base..base + certain])
    ensures TraderIsRight(h, EventsMet(ms, base), answers, FirstTurn(feed, ParsedReplies(h, listed, answers)), window, rs, last, certain)
  {
    SliceIsMet(h, stream, ms, listed, answers, log, base, certain);
    ExchangeCanBeFollowed(h, stream, ms, listed, answers, base);
    RunIsRight(h, EventsMet(ms, base), feed, ParsedReplies(h, listed, answers), answers, window, rs, last, certain);
  }

  /** From the exchange's documents to the trader's decisions and orders. The trader's reset may land
      inside an event, its reads may see the ring empty inside an event, and the run may end with the
      consumer disabled, in the middle of a read that has been overtaken; only decisions that have
      read that last item are not spoken of. */
  lemma TraderFollowsTheWire(h: seq<Change>, stream: string, ms: seq<DepthMessage>, listed: nat, answers: seq<u64>,
                             s: P.State<OrderBookUpdate>, acts: seq<P.Action<OrderBookUpdate>>, clocks: seq<u64>,
                             mixture: OrderBookUpdate, window: u64, rs: seq<TradeReading>, last: Order)
    returns (os: seq<P.ReadOutcome<OrderBookUpdate>>, certain: nat)
    requires Exchange(h, stream, ms, listed, answers, s.base) && P.RunFromReset(s, acts)
    requires FeederWrote(stream, ms, P.Run(s, acts).log) && |P.Run(s, acts).outcomes| <= |clocks|
    ensures P.Run(s, acts).outcomes == s.outcomes + os
    ensures var feed := FeedOf(os, clocks, mixture);
            && |Updates(feed)| - 1 <= certain <= |Updates(feed)|
            && (P.Run(s, acts).active ==> certain == |Updates(feed)|)
            && TraderIsRight(h, EventsMet(ms, s.base), answers, FirstTurn(feed, ParsedReplies(h, listed, answers)), window, rs, last, certain)
  {
    os, certain := RingDelivers(s, acts, clocks, mixture);
    SliceIsRight(h, stream, ms, listed, answers, P.Run(s, acts).log, s.base, certain, FeedOf(os, clocks, mixture), window, rs, last);
  }
}
