/** The trader's loop over the update ring: one call consumes one framed event. */
module BookProcessor {
  import opened Words
  import opened PriceLevels
  import opened MarketData
  import opened OrderBook
  import opened BookSync
  import opened TraderBook
  import opened PendingChanges
  import opened SpscRingBuffer

  /** One read of the ring, with the steady clock just after it. */
  datatype Reading = Reading(result: ReadResult<OrderBookUpdate>, now: u64)

  datatype Stamps = Stamps(feederRead: u64, feederWrite: u64, traderRead: u64)

  function StampsAfter(s: Stamps, feederRead: u64, feederWrite: u64, now: u64): Stamps {
    Stamps(Max(s.feederRead, feederRead), Max(s.feederWrite, feederWrite), now)
  }

  /** The processor's state and what its environment has in store for it: the readings of the ring
      (after the last one it is seen empty) and the replies of the snapshot service. */
  datatype View = View(book: Book, stamps: Stamps, feed: seq<Reading>, replies: seq<Reply>)

  /** The state once the update just read has been applied. */
  ghost function AfterUpdate(v: View, depth: nat): (next: View)
    requires v.feed != [] && v.feed[0].result.Success?
    requires ApplyUpdate(v.book, depth, v.feed[0].result.value, v.replies).Some?
    ensures next.feed == v.feed[1..]
  {
    var u := v.feed[0].result.value;
    var (b, replies) := ApplyUpdate(v.book, depth, u, v.replies).value;
    View(b, StampsAfter(v.stamps, u.feederRead, u.feederWrite, v.feed[0].now), v.feed[1..], replies)
  }

  /** What one call does: whether it succeeds, and the state it leaves. */
  ghost function Processed(v: View, depth: nat): (r: (bool, View))
    ensures v.feed != [] ==> |r.1.feed| < |v.feed|
    decreases |v.feed|
  {
    if v.feed == [] then (true, v)
    else
      match v.feed[0].result
      case BufferIsEmpty => (true, v.(feed := v.feed[1..]))
      case ConsumerIsDisabled => (false, v.(feed := v.feed[1..]))
      case Success(u) =>
        if ApplyUpdate(v.book, depth, u, v.replies).None? then
          (false, v.(feed := v.feed[1..], stamps := StampsAfter(v.stamps, u.feederRead, u.feederWrite, v.feed[0].now),
                     replies := if v.replies == [] then [] else v.replies[1..]))
        else if u.hasMore then Processed(AfterUpdate(v, depth), depth)
        else (true, AfterUpdate(v, depth))
  }

  /** The stamps carried into the next order. */
  class TimestampHandler {
    var feederRead: u64
    var feederWrite: u64
    var traderRead: u64

    constructor ()
      ensures Value() == Stamps(0, 0, 0)
    {
      feederRead, feederWrite, traderRead := 0, 0, 0;
    }

    ghost function Value(): Stamps
      reads this
    {
      Stamps(feederRead, feederWrite, traderRead)
    }

    method Update(read: u64, write: u64, now: u64)
      modifies this
      ensures Value() == StampsAfter(old(Value()), read, write, now)
    {
      feederRead := Max(feederRead, read);
      feederWrite := Max(feederWrite, write);
      traderRead := now;
    }
  }

  /** The exchange lists the levels of a snapshot best first. */
  ghost predicate WellOrdered(r: Reply) {
    r.Snapshot? ==> Sorted(PriceDescending, r.bids) && Sorted(PriceAscending, r.asks)
  }

  class OrderBookProcessor {
    const book: OrderBook
    const stamps: TimestampHandler
    var feed: seq<Reading>
    var replies: seq<Reply>

    ghost predicate Valid()
      reads this, book, book.bids, book.bids.rows, book.asks, book.asks.rows
    {
      && book.Valid()
      && BookOk(book.Contents(), book.depth)
      && forall i :: 0 <= i < |replies| ==> WellOrdered(replies[i])
    }

    ghost function Value(): View
      requires Valid()
      reads this, stamps, book, book.bids, book.bids.rows, book.asks, book.asks.rows
    {
      View(book.Contents(), stamps.Value(), feed, replies)
    }

    constructor (depth: nat, feed: seq<Reading>, replies: seq<Reply>)
      requires depth > 0
      requires forall i :: 0 <= i < |replies| ==> WellOrdered(replies[i])
      ensures Valid() && book.depth == depth
      ensures Value() == View(Book(0, [], []), Stamps(0, 0, 0), feed, replies)
      ensures fresh(book) && fresh(stamps) && fresh(book.bids) && fresh(book.bids.rows) && fresh(book.asks) && fresh(book.asks.rows)
    {
      book := new OrderBook(depth);
      stamps := new TimestampHandler();
      this.feed := feed;
      this.replies := replies;
    }

    method Read() returns (r: Reading)
      requires Valid()
      modifies this`feed
      ensures Valid()
      ensures old(feed) == [] ==> r.result == BufferIsEmpty && feed == []
      ensures old(feed) != [] ==> r == old(feed)[0] && feed == old(feed)[1..]
    {
      if feed == [] {
        return Reading(BufferIsEmpty, 0);
      }
      r := feed[0];
      feed := feed[1..];
    }

    /** Replaces the book by the next snapshot. */
    method ResetSnapshot() returns (ok: bool)
      requires Valid()
      modifies this`replies, book`lastUpdateId, book.bids`count, book.bids.rows, book.asks`count, book.asks.rows
      ensures Valid()
      ensures ok <==> old(replies) != [] && old(replies)[0].Snapshot?
      ensures replies == if old(replies) == [] then [] else old(replies)[1..]
      ensures book.Contents() == if ok then SnapshotBook(old(replies)[0], book.depth) else old(book.Contents())
    {
      if replies == [] {
        return false;
      }
      var reply := replies[0];
      assert WellOrdered(reply);
      replies := replies[1..];
      if reply.Unusable? {
        return false;
      }
      var bids, asks := reply.bids, reply.asks;
      book.Init(reply.lastUpdateId,
                seq(|bids|, i requires 0 <= i < |bids| => bids[i].price),
                seq(|bids|, i requires 0 <= i < |bids| => bids[i].quantity), |bids|,
                seq(|asks|, i requires 0 <= i < |asks| => asks[i].price),
                seq(|asks|, i requires 0 <= i < |asks| => asks[i].quantity), |asks|);
      assert book.Contents().bids == bids[..Min(book.depth, |bids|)];
      assert book.Contents().asks == asks[..Min(book.depth, |asks|)];
      return true;
    }

    method Apply(u: OrderBookUpdate) returns (ok: bool)
      requires Valid()
      modifies this`replies, book`lastUpdateId, book.bids`count, book.bids.rows, book.asks`count, book.asks.rows
      ensures Valid()
      ensures var r := ApplyUpdate(old(book.Contents()), book.depth, u, old(replies));
              && ok == r.Some?
              && (ok ==> r == Some((book.Contents(), replies)))
              && (!ok ==> book.Contents() == old(book.Contents()) &&
                          replies == if old(replies) == [] then [] else old(replies)[1..])
    {
      if u.firstId > Wrap64(book.lastUpdateId + 1) {
        ok := ResetSnapshot();
      } else if u.lastId < book.lastUpdateId {
        ok := true;
      } else {
        if u.side.Bid? {
          book.UpdateBid(u.lastId, u.price, u.quantity);
        } else {
          book.UpdateAsk(u.lastId, u.price, u.quantity);
        }
        ok := true;
      }
    }

    method ProcessUpdate() returns (ok: bool)
      requires Valid()
      modifies this`feed, this`replies, stamps,
               book`lastUpdateId, book.bids`count, book.bids.rows, book.asks`count, book.asks.rows
      ensures Valid()
      ensures (ok, Value()) == Processed(old(Value()), book.depth)
    {
      var more := true;
      while more
        invariant Valid()
        invariant Processed(old(Value()), book.depth) ==
                  if more then Processed(Value(), book.depth) else (true, Value())
        decreases |feed|, more
      {
        ghost var before := Value();
        var r := Read();
        if r.result.Success? {
          var u := r.result.value;
          stamps.Update(u.feederRead, u.feederWrite, r.now);
          var applied := Apply(u);
          if !applied {
            return false;
          }
          more := u.hasMore;
        } else if r.result.ConsumerIsDisabled? {
          return false;
        } else {
          more := false;
        }
      }
      return true;
    }
  }

  // ---- Stamps ----

  /** The stamps of the records that readings deliver, each with the time of its reading. */
  function RecordsOf(feed: seq<Reading>): seq<Stamps> {
    if feed == [] then []
    else
      (match feed[0].result
       case Success(u) => [Stamps(u.feederRead, u.feederWrite, feed[0].now)]
       case _ => []) + RecordsOf(feed[1..])
  }

  /** From some stamps and some records on: the feeder's stamps are the greatest of all of these, and
      the last reading's time replaces the one before. */
  ghost predicate Latest(s: Stamps, records: seq<Stamps>, s': Stamps) {
    && s.feederRead <= s'.feederRead && s.feederWrite <= s'.feederWrite
    && (forall i :: 0 <= i < |records| ==>
          records[i].feederRead <= s'.feederRead && records[i].feederWrite <= s'.feederWrite)
    && (s'.feederRead == s.feederRead || exists i :: 0 <= i < |records| && records[i].feederRead == s'.feederRead)
    && (s'.feederWrite == s.feederWrite || exists i :: 0 <= i < |records| && records[i].feederWrite == s'.feederWrite)
    && s'.traderRead == if records == [] then s.traderRead else records[|records| - 1].traderRead
  }

  lemma LatestOfOne(s: Stamps, read: u64, write: u64, now: u64)
    ensures Latest(s, [Stamps(read, write, now)], StampsAfter(s, read, write, now))
  {
    assert [Stamps(read, write, now)][0] == Stamps(read, write, now);
  }

  lemma LatestAgain(s: Stamps, xs: seq<Stamps>, mid: Stamps, ys: seq<Stamps>, s': Stamps)
    requires Latest(s, xs, mid) && Latest(mid, ys, s')
    ensures Latest(s, xs + ys, s')
  {
    var all := xs + ys;
    assert forall i :: 0 <= i < |xs| ==> all[i] == xs[i];
    assert forall i :: 0 <= i < |ys| ==> all[|xs| + i] == ys[i];
  }

  lemma {:induction false} RecordsAppend(xs: seq<Reading>, ys: seq<Reading>)
    ensures RecordsOf(xs + ys) == RecordsOf(xs) + RecordsOf(ys)
  {
    if xs == [] {
      assert xs + ys == ys;
    } else {
      assert (xs + ys)[1..] == xs[1..] + ys;
      RecordsAppend(xs[1..], ys);
    }
  }

  lemma RecordsOfOne(r: Reading)
    ensures RecordsOf([r]) == match r.result case Success(u) => [Stamps(u.feederRead, u.feederWrite, r.now)] case _ => []
  {}

  /** A call, successful or not, leaves the latest stamps of what it has read. */
  lemma {:induction false} CallStampsLatest(v: View, depth: nat) returns (c: nat)
    ensures c <= |v.feed| && Processed(v, depth).1.feed == v.feed[c..]
    ensures Latest(v.stamps, RecordsOf(v.feed[..c]), Processed(v, depth).1.stamps)
    decreases |v.feed|
  {
    if v.feed == [] {
      c := 0;
    } else {
      c := 1;
      var first := v.feed[0];
      assert v.feed[..1] == [first];
      RecordsOfOne(first);
      if first.result.Success? {
        var u := first.result.value;
        LatestOfOne(v.stamps, u.feederRead, u.feederWrite, first.now);
        if u.hasMore && ApplyUpdate(v.book, depth, u, v.replies).Some? {
          var next := AfterUpdate(v, depth);
          var rest := CallStampsLatest(next, depth);
          c := 1 + rest;
          assert v.feed[..c] == [first] + next.feed[..rest];
          RecordsAppend([first], next.feed[..rest]);
          LatestAgain(v.stamps, RecordsOf([first]), next.stamps, RecordsOf(next.feed[..rest]), Processed(v, depth).1.stamps);
        }
      }
    }
  }

  // ---- Framing ----

  /** The next readings are these updates, stamped by the feeder. */
  ghost predicate Delivers(feed: seq<Reading>, us: seq<OrderBookUpdate>) {
    |feed| >= |us| && forall i :: 0 <= i < |us| ==> feed[i].result.Success? && Plain(feed[i].result.value) == us[i]
  }

  lemma StampsDoNotMatter(b: Book, depth: nat, u: OrderBookUpdate, replies: seq<Reply>)
    ensures ApplyUpdate(b, depth, Plain(u), replies) == ApplyUpdate(b, depth, u, replies)
  {}

  /** When an event is next in the ring and every update of it can be applied, one call consumes
      exactly that event. */
  lemma {:induction false} CallConsumesEvent(v: View, depth: nat, us: seq<OrderBookUpdate>)
    requires us != [] && Delivers(v.feed, us)
    requires forall i :: 0 <= i < |us| ==> us[i].hasMore == (i + 1 < |us|)
    requires ApplyUpdates(v.book, depth, us, v.replies).Some?
    ensures var (ok, v') := Processed(v, depth);
            && ok
            && v'.feed == v.feed[|us|..]
            && (v'.book, v'.replies) == ApplyUpdates(v.book, depth, us, v.replies).value
    decreases |us|
  {
    var u := v.feed[0].result.value;
    StampsDoNotMatter(v.book, depth, u, v.replies);
    assert Plain(u) == us[0];
    var next := AfterUpdate(v, depth);
    if |us| > 1 {
      forall i | 0 <= i < |us[1..]|
        ensures next.feed[i].result.Success? && Plain(next.feed[i].result.value) == us[1..][i]
        ensures us[1..][i].hasMore == (i + 1 < |us[1..]|)
      {
        assert next.feed[i] == v.feed[i + 1] && us[1..][i] == us[i + 1];
      }
      CallConsumesEvent(next, depth, us[1..]);
      assert next.feed[|us[1..]|..] == v.feed[|us|..];
    } else {
      assert us[1..] == [];
    }
  }

  lemma OneCallPerEvent(v: View, depth: nat, m: DepthMessage)
    requires LevelCount(m) > 0 && Delivers(v.feed, UpdatesOf(m))
    requires ApplyUpdates(v.book, depth, UpdatesOf(m), v.replies).Some?
    ensures var (ok, v') := Processed(v, depth);
            && ok
            && v'.feed == v.feed[LevelCount(m)..]
            && (v'.book, v'.replies) == ApplyUpdates(v.book, depth, UpdatesOf(m), v.replies).value
  {
    CallConsumesEvent(v, depth, UpdatesOf(m));
  }

  predicate SaysMore(r: Reading) {
    r.result.Success? && r.result.value.hasMore
  }

  /** Where a successful call may stop: after an update that ends an event, or at an empty ring. */
  ghost predicate StopsAt(feed: seq<Reading>, c: nat) {
    && c <= |feed|
    && (forall i :: 0 <= i < c - 1 ==> SaysMore(feed[i]))
    && (c == 0 ==> feed == [])
    && (c > 0 && SaysMore(feed[c - 1]) ==> c == |feed|)
    && (c > 0 && !feed[c - 1].result.Success? ==> feed[c - 1].result == BufferIsEmpty)
  }

  lemma StopsLater(feed: seq<Reading>, c: nat)
    requires feed != [] && SaysMore(feed[0]) && StopsAt(feed[1..], c)
    ensures StopsAt(feed, c + 1)
  {
    forall i | 0 <= i < c ensures SaysMore(feed[i]) {
      assert i > 0 ==> feed[i] == feed[1..][i - 1];
    }
    assert c > 0 ==> feed[c] == feed[1..][c - 1];
  }

  /** A call returns true only at an event boundary or with the ring seen empty. */
  lemma {:induction false} TrueOnlyAtBoundary(v: View, depth: nat) returns (c: nat)
    requires Processed(v, depth).0
    ensures StopsAt(v.feed, c) && Processed(v, depth).1.feed == v.feed[c..]
    decreases |v.feed|
  {
    if v.feed == [] {
      c := 0;
    } else if SaysMore(v.feed[0]) {
      var rest := TrueOnlyAtBoundary(AfterUpdate(v, depth), depth);
      StopsLater(v.feed, rest);
      c := rest + 1;
      assert v.feed[1..][rest..] == v.feed[c..];
    } else {
      c := 1;
    }
  }

  // ---- The main loop over a whole feed ----

  /** The updates that a feed delivers. */
  function Updates(feed: seq<Reading>): seq<OrderBookUpdate> {
    if feed == [] then []
    else (if feed[0].result.Success? then [Plain(feed[0].result.value)] else []) + Updates(feed[1..])
  }

  lemma {:induction false} UpdatesAppend(xs: seq<Reading>, ys: seq<Reading>)
    ensures Updates(xs + ys) == Updates(xs) + Updates(ys)
  {
    if xs == [] {
      assert xs + ys == ys;
    } else {
      var first := if xs[0].result.Success? then [Plain(xs[0].result.value)] else [];
      assert (xs + ys)[1..] == xs[1..] + ys;
      UpdatesAppend(xs[1..], ys);
      assert first + (Updates(xs[1..]) + Updates(ys)) == (first + Updates(xs[1..])) + Updates(ys);
    }
  }

  lemma {:induction false} ApplyUpdatesAppend(b: Book, depth: nat, us: seq<OrderBookUpdate>, vs: seq<OrderBookUpdate>, replies: seq<Reply>)
    ensures ApplyUpdates(b, depth, us + vs, replies) ==
            match ApplyUpdates(b, depth, us, replies)
            case None => None
            case Some((b', rest)) => ApplyUpdates(b', depth, vs, rest)
    decreases |us|
  {
    if us == [] {
      assert us + vs == vs;
    } else {
      assert (us + vs)[1..] == us[1..] + vs;
      var next := ApplyUpdate(b, depth, us[0], replies);
      if next.Some? {
        ApplyUpdatesAppend(next.value.0, depth, us[1..], vs, next.value.1);
      }
    }
  }

  /** The first `c` readings are consumed and their updates applied, in order, each once. */
  ghost predicate Reached(v: View, depth: nat, v': View, c: nat) {
    && c <= |v.feed| && v'.feed == v.feed[c..]
    && ApplyUpdates(v.book, depth, Updates(v.feed[..c]), v.replies) == Some((v'.book, v'.replies))
  }

  lemma ReachedAgain(v: View, depth: nat, mid: View, v': View, c: nat, k: nat)
    requires Reached(v, depth, mid, c) && Reached(mid, depth, v', k)
    ensures Reached(v, depth, v', c + k)
  {
    assert v.feed[..c + k] == v.feed[..c] + mid.feed[..k];
    UpdatesAppend(v.feed[..c], mid.feed[..k]);
    ApplyUpdatesAppend(v.book, depth, Updates(v.feed[..c]), Updates(mid.feed[..k]), v.replies);
  }

  lemma OneUpdateReaches(v: View, depth: nat)
    requires v.feed != [] && v.feed[0].result.Success?
    requires ApplyUpdate(v.book, depth, v.feed[0].result.value, v.replies).Some?
    ensures Reached(v, depth, AfterUpdate(v, depth), 1)
  {
    var u := v.feed[0].result.value;
    StampsDoNotMatter(v.book, depth, u, v.replies);
    assert v.feed[..1] == [v.feed[0]];
    assert Updates([v.feed[0]]) == [Plain(u)];
    assert [Plain(u)][1..] == [];
  }

  /** Every successful call applies the updates it reads. */
  lemma {:induction false} CallReaches(v: View, depth: nat) returns (c: nat)
    requires Processed(v, depth).0
    ensures Reached(v, depth, Processed(v, depth).1, c)
    ensures v.feed != [] ==> c > 0
    decreases |v.feed|
  {
    if v.feed == [] {
      c := 0;
    } else if v.feed[0].result.Success? {
      OneUpdateReaches(v, depth);
      c := 1;
      if SaysMore(v.feed[0]) {
        var next := AfterUpdate(v, depth);
        var rest := CallReaches(next, depth);
        ReachedAgain(v, depth, next, Processed(v, depth).1, 1, rest);
        c := 1 + rest;
      }
    } else {
      c := 1;
      assert Updates(v.feed[..1]) == [];
    }
  }

  /** Nothing but a disabled ring or a missing snapshot makes a call fail. */
  lemma {:induction false} CallSucceeds(v: View, depth: nat)
    requires forall i :: 0 <= i < |v.feed| ==> !v.feed[i].result.ConsumerIsDisabled?
    requires ApplyUpdates(v.book, depth, Updates(v.feed), v.replies).Some?
    ensures Processed(v, depth).0
    decreases |v.feed|
  {
    if v.feed != [] && v.feed[0].result.Success? {
      StampsDoNotMatter(v.book, depth, v.feed[0].result.value, v.replies);
      assert Updates(v.feed)[1..] == Updates(v.feed[1..]);
      if SaysMore(v.feed[0]) {
        CallSucceeds(AfterUpdate(v, depth), depth);
      }
    }
  }

  /** Why a call fails: after some updates, all applied, either the ring reports that the consumer is
      disabled, or an update shows a gap and no usable snapshot is to be had. */
  ghost predicate FailsAt(v: View, depth: nat, c: nat) {
    && c < |v.feed|
    && var reached := ApplyUpdates(v.book, depth, Updates(v.feed[..c]), v.replies);
       && reached.Some?
       && match v.feed[c].result
          case ConsumerIsDisabled => true
          case BufferIsEmpty => false
          case Success(u) =>
            && u.firstId > Wrap64(reached.value.0.lastUpdateId + 1)
            && (reached.value.1 == [] || reached.value.1[0].Unusable?)
  }

  lemma FailsLater(v: View, depth: nat, mid: View, c: nat)
    requires Reached(v, depth, mid, 1) && FailsAt(mid, depth, c)
    ensures FailsAt(v, depth, c + 1)
  {
    assert v.feed[..c + 1] == v.feed[..1] + mid.feed[..c];
    UpdatesAppend(v.feed[..1], mid.feed[..c]);
    ApplyUpdatesAppend(v.book, depth, Updates(v.feed[..1]), Updates(mid.feed[..c]), v.replies);
  }

  lemma {:induction false} CallFails(v: View, depth: nat) returns (c: nat)
    requires !Processed(v, depth).0
    ensures FailsAt(v, depth, c)
    decreases |v.feed|
  {
    c := 0;
    assert v.feed[..0] == [];
    if SaysMore(v.feed[0]) && ApplyUpdate(v.book, depth, v.feed[0].result.value, v.replies).Some? {
      OneUpdateReaches(v, depth);
      var rest := CallFails(AfterUpdate(v, depth), depth);
      FailsLater(v, depth, AfterUpdate(v, depth), rest);
      c := rest + 1;
    }
  }

  /** What is left can still be applied. */
  lemma RestApplies(v: View, depth: nat, v': View, c: nat)
    requires Reached(v, depth, v', c) && ApplyUpdates(v.book, depth, Updates(v.feed), v.replies).Some?
    ensures ApplyUpdates(v'.book, depth, Updates(v'.feed), v'.replies) == ApplyUpdates(v.book, depth, Updates(v.feed), v.replies)
  {
    assert v.feed == v.feed[..c] + v'.feed;
    UpdatesAppend(v.feed[..c], v'.feed);
    ApplyUpdatesAppend(v.book, depth, Updates(v.feed[..c]), Updates(v'.feed), v.replies);
  }

  /** Calls until the feed is used up or a call fails. */
  ghost function Drained(v: View, depth: nat): (r: (bool, View))
    decreases |v.feed|
  {
    var (ok, v') := Processed(v, depth);
    if !ok || v.feed == [] then (ok, v') else Drained(v', depth)
  }

  /** However the ring is seen empty in between, the loop applies the updates in order, each once. */
  lemma {:induction false} LoopAppliesAll(v: View, depth: nat)
    requires forall i :: 0 <= i < |v.feed| ==> !v.feed[i].result.ConsumerIsDisabled?
    requires ApplyUpdates(v.book, depth, Updates(v.feed), v.replies).Some?
    ensures var (ok, v') := Drained(v, depth);
            ok && (v'.book, v'.replies) == ApplyUpdates(v.book, depth, Updates(v.feed), v.replies).value
    decreases |v.feed|
  {
    CallSucceeds(v, depth);
    if v.feed != [] {
      var c := CallReaches(v, depth);
      RestApplies(v, depth, Processed(v, depth).1, c);
      LoopAppliesAll(Processed(v, depth).1, depth);
    }
  }

  // ---- What the book is worth at every return ----

  /** The last update applied ends its event. */
  predicate AtBoundary(us: seq<OrderBookUpdate>) {
    us == [] || !us[|us| - 1].hasMore
  }

  /** Where a number of updates ends: after how many whole events, and how many updates of the next. */
  function SplitAt(ms: seq<DepthMessage>, count: nat): (nat, nat) {
    if ms == [] || count < LevelCount(ms[0]) then (0, count)
    else
      var (e, n) := SplitAt(ms[1..], count - LevelCount(ms[0]));
      (e + 1, n)
  }

  /** The updates of the next event that a prefix holds. */
  function Begun(ms: seq<DepthMessage>, e: nat, n: nat): seq<OrderBookUpdate>
    requires n > 0 ==> e < |ms| && n < LevelCount(ms[e])
  {
    if n == 0 then [] else UpdatesOf(ms[e])[..n]
  }

  lemma {:induction false} PrefixSplits(ms: seq<DepthMessage>, us: seq<OrderBookUpdate>)
    requires us <= Flattened(ms)
    ensures var (e, n) := SplitAt(ms, |us|);
            && e <= |ms| && (n > 0 ==> e < |ms| && n < LevelCount(ms[e]))
            && us == Flattened(ms[..e]) + Begun(ms, e, n)
    decreases |ms|
  {
    if ms == [] {
      assert us == [];
    } else if |us| < LevelCount(ms[0]) {
      PrefixOfFirst(us, UpdatesOf(ms[0]), Flattened(ms[1..]));
      assert Flattened(ms[..0]) == [];
      assert [] + Begun(ms, 0, |us|) == us;
    } else {
      var k := LevelCount(ms[0]);
      TailOfPrefix(us, UpdatesOf(ms[0]), Flattened(ms[1..]));
      PrefixSplits(ms[1..], us[k..]);
      var (e, n) := SplitAt(ms[1..], |us| - k);
      SplitLater(ms, us, e, n);
    }
  }

  lemma SplitLater(ms: seq<DepthMessage>, us: seq<OrderBookUpdate>, e: nat, n: nat)
    requires ms != [] && e < |ms| && (n > 0 ==> e + 1 < |ms| && n < LevelCount(ms[1..][e]))
    requires |us| >= LevelCount(ms[0]) && us == UpdatesOf(ms[0]) + us[LevelCount(ms[0])..]
    requires us[LevelCount(ms[0])..] == Flattened(ms[1..][..e]) + Begun(ms[1..], e, n)
    ensures us == Flattened(ms[..e + 1]) + Begun(ms, e + 1, n)
  {
    FirstEvents(ms, e + 1);
    assert Begun(ms, e + 1, n) == Begun(ms[1..], e, n);
    Regroup(UpdatesOf(ms[0]), Flattened(ms[1..][..e]), Begun(ms, e + 1, n));
  }

  lemma Regroup<T>(xs: seq<T>, ys: seq<T>, zs: seq<T>)
    ensures xs + (ys + zs) == (xs + ys) + zs
  {}

  lemma PrefixOfFirst<T>(us: seq<T>, xs: seq<T>, ys: seq<T>)
    requires us <= xs + ys && |us| <= |xs|
    ensures us == xs[..|us|]
  {
    assert forall i :: 0 <= i < |us| ==> us[i] == (xs + ys)[i];
  }

  lemma TailOfPrefix<T>(us: seq<T>, xs: seq<T>, ys: seq<T>)
    requires us <= xs + ys && |us| >= |xs|
    ensures us == xs + us[|xs|..] && us[|xs|..] <= ys
  {
    assert forall i :: 0 <= i < |us| ==> us[i] == (xs + ys)[i];
  }

  lemma FirstEvents(ms: seq<DepthMessage>, e: nat)
    requires 0 < e <= |ms|
    ensures Flattened(ms[..e]) == UpdatesOf(ms[0]) + Flattened(ms[1..][..e - 1])
  {
    assert ms[..e][0] == ms[0] && ms[..e][1..] == ms[1..][..e - 1];
  }

  lemma {:induction false} PrefixIsFresh(h: seq<Change>, r: Replica, ms: seq<DepthMessage>, answers: seq<u64>, e: nat)
    requires FreshThroughout(h, r, ms, answers) && e <= |ms|
    ensures FreshThroughout(h, r, ms[..e], answers)
    ensures e < |ms| && RunFull(h, r, ms[..e], answers).Some? ==>
              var (r', rest) := RunFull(h, r, ms[..e], answers).value; FreshAnswers(h, r', ms[e], rest)
    decreases e
  {
    if e > 0 {
      assert ms[..e][0] == ms[0] && ms[..e][1..] == ms[1..][..e - 1];
      var res := ApplyAllFull(h, r, UpdatesOf(ms[0]), answers);
      if res.Some? {
        PrefixIsFresh(h, res.value.0, ms[1..], res.value.1, e - 1);
      }
    }
  }

  ghost function StartReplica(h: seq<Change>): Replica {
    Replica(0, BookAt(h, 0))
  }

  /** The unbounded replica after the first events, and the answers that are left. */
  ghost function ReplicaAfter(h: seq<Change>, ms: seq<DepthMessage>, answers: seq<u64>): Option<(Replica, seq<u64>)> {
    RunFull(h, StartReplica(h), ms, answers)
  }

  /** After so many updates of the events: either the last event is complete, or the rest of it is no
      news to the replica that was there before the event. */
  ghost predicate NothingPending(h: seq<Change>, ms: seq<DepthMessage>, answers: seq<u64>, count: nat) {
    var (e, n) := SplitAt(ms, count);
    n == 0 || (
      && e < |ms| && n <= LevelCount(ms[e])
      && ReplicaAfter(h, ms[..e], answers).Some?
      && NoNews(ReplicaAfter(h, ms[..e], answers).value.0, ms[e], n))
  }

  /** What the exchange has sent: events that can be followed from the start, with fresh answers. */
  ghost predicate CanFollow(h: seq<Change>, ms: seq<DepthMessage>, answers: seq<u64>) {
    |h| < U64_LIMIT - 1 && AllFollowable(h, 0, ms) && FreshThroughout(h, StartReplica(h), ms, answers)
  }

  lemma EventsBefore(h: seq<Change>, ms: seq<DepthMessage>, answers: seq<u64>, e: nat)
    requires CanFollow(h, ms, answers) && e <= |ms|
    ensures var res := ReplicaAfter(h, ms[..e], answers);
            && res.Some? && Synced(h, res.value.0)
            && ApplyAllFull(h, StartReplica(h), Flattened(ms[..e]), answers) == res
            && (e < |ms| ==> FreshAnswers(h, res.value.0, ms[e], res.value.1)
                             && Followable(h, res.value.0.lastUpdateId, ms[e]))
  {
    PrefixIsFresh(h, StartReplica(h), ms, answers, e);
    assert forall i :: 0 <= i < e ==> ms[..e][i] == ms[i];
    RunKeepsSync(h, StartReplica(h), ms[..e], answers);
    RunFullIsFlat(h, StartReplica(h), ms[..e], answers);
    if 0 < e < |ms| {
      SummaryIsPart(h, ms[e]);
    } else if e == 0 {
      assert ms[..0] == [];
    }
  }

  /** Over any run, after any number of updates, inside an event or not: the unbounded replica is the
      exchange's book at its id exactly when nothing is pending. */
  lemma SyncedExactly(h: seq<Change>, ms: seq<DepthMessage>, us: seq<OrderBookUpdate>, answers: seq<u64>)
    requires CanFollow(h, ms, answers) && us <= Flattened(ms)
    ensures var res := ApplyAllFull(h, StartReplica(h), us, answers);
            && res.Some? && res.value.0.lastUpdateId <= |h|
            && (Synced(h, res.value.0) <==> NothingPending(h, ms, answers, |us|))
  {
    PrefixSplits(ms, us);
    var (e, n) := SplitAt(ms, |us|);
    EventsBefore(h, ms, answers, e);
    var (before, rest) := ReplicaAfter(h, ms[..e], answers).value;
    if n == 0 {
      assert us == Flattened(ms[..e]);
    } else {
      ApplyAllFullAppend(h, StartReplica(h), Flattened(ms[..e]), Begun(ms, e, n), answers);
      MidEventExactly(h, before, ms[e], n, rest);
    }
  }

  lemma BoundaryLeavesNothing(h: seq<Change>, ms: seq<DepthMessage>, us: seq<OrderBookUpdate>, answers: seq<u64>)
    requires us <= Flattened(ms) && AtBoundary(us)
    ensures NothingPending(h, ms, answers, |us|)
  {
    PrefixSplits(ms, us);
    var (e, n) := SplitAt(ms, |us|);
    BegunSaysMore(ms, e, n);
    LastOfConcat(Flattened(ms[..e]), Begun(ms, e, n));
  }

  lemma BegunSaysMore(ms: seq<DepthMessage>, e: nat, n: nat)
    requires n > 0 ==> e < |ms| && n < LevelCount(ms[e])
    ensures n > 0 ==> Begun(ms, e, n) != [] && Begun(ms, e, n)[n - 1].hasMore && |Begun(ms, e, n)| == n
  {
    if n > 0 {
      assert Begun(ms, e, n)[n - 1] == UpdateAt(ms[e], n - 1);
    }
  }

  lemma LastOfConcat<T>(xs: seq<T>, ys: seq<T>)
    ensures ys != [] ==> (xs + ys)[|xs + ys| - 1] == ys[|ys| - 1]
  {}

  ghost function Start(feed: seq<Reading>, replies: seq<Reply>): View {
    View(EMPTY_BOOK, Stamps(0, 0, 0), feed, replies)
  }

  /** The rows that are trusted after the updates. */
  ghost function TrustFrom(depth: nat, us: seq<OrderBookUpdate>, replies: seq<Reply>): Trust {
    TrustAfterAll(Trust(depth, depth), EMPTY_BOOK, depth, us, replies)
  }

  /** After so many updates of the events: the last event is complete, or stale, or was answered with
      a fresh snapshot, or the trusted rows show every change of it still to come that does not rank
      below them. */
  ghost predicate NothingMissing(h: seq<Change>, ms: seq<DepthMessage>, answers: seq<u64>, count: nat, b: Book, t: Trust) {
    var (e, n) := SplitAt(ms, count);
    n == 0 || (
      && e < |ms| && LevelCount(ms[e]) > 0
      && ReplicaAfter(h, ms[..e], answers).Some?
      && (|| Classify(ReplicaAfter(h, ms[..e], answers).value.0.lastUpdateId, UpdateAt(ms[e], 0)) != Current
          || RestShown(b, t, ms[e], n)))
  }

  /** The replica inside an event. */
  lemma InsideEvent(h: seq<Change>, r: Replica, m: DepthMessage, n: nat, answers: seq<u64>)
    requires Synced(h, r) && Followable(h, r.lastUpdateId, m) && FreshAnswers(h, r, m, answers)
    requires 0 < n <= LevelCount(m)
    ensures var res := ApplyAllFull(h, r, UpdatesOf(m)[..n], answers);
            && res.Some?
            && if Classify(r.lastUpdateId, UpdateAt(m, 0)) != Current then Synced(h, res.value.0)
               else
                 && Summarises(h, m) && m.firstId <= r.lastUpdateId + 1 && r.lastUpdateId <= m.lastId
                 && res.value.0 == Replica(m.lastId, AllApplied(BookAt(h, r.lastUpdateId), ChangesOf(UpdatesOf(m))[..n]))
  {
    MidEventExactly(h, r, m, n, answers);
    if Classify(r.lastUpdateId, UpdateAt(m, 0)) == Current {
      var us := UpdatesOf(m);
      CurrentUpdatesAreApplied(h, r, us[..n], m, answers);
      assert ChangesOf(us[..n]) == ChangesOf(us)[..n];
    }
  }

  /** Over any run, after any number of updates, inside an event or not: the ladders show the
      exchange's best levels on their trusted rows exactly when nothing is missing. */
  lemma LaddersMatchExactly(h: seq<Change>, depth: nat, ms: seq<DepthMessage>, us: seq<OrderBookUpdate>, answers: seq<u64>,
                            b: Book, r: Replica, t: Trust)
    requires CanFollow(h, ms, answers) && us <= Flattened(ms)
    requires var res := ApplyAllFull(h, StartReplica(h), us, answers); res.Some? && res.value.0 == r
    requires Tracks(depth, b, r, t)
    ensures MatchesExchange(h, depth, b, t) <==> NothingMissing(h, ms, answers, |us|, b, t)
  {
    PrefixSplits(ms, us);
    var (e, n) := SplitAt(ms, |us|);
    EventsBefore(h, ms, answers, e);
    var (before, rest) := ReplicaAfter(h, ms[..e], answers).value;
    if n == 0 {
      assert us == Flattened(ms[..e]);
      SyncedTrackingMatches(h, depth, b, r, t);
    } else {
      ApplyAllFullAppend(h, StartReplica(h), Flattened(ms[..e]), Begun(ms, e, n), answers);
      InsideEvent(h, before, ms[e], n, rest);
      if Classify(before.lastUpdateId, UpdateAt(ms[e], 0)) != Current {
        SyncedTrackingMatches(h, depth, b, r, t);
      } else {
        RestExactly(h, depth, before.lastUpdateId, ms[e], n, b, r, t);
      }
    }
  }

  /** Whenever the processor returns, at the end of an event or inside it: its trusted rows are the
      exchange's best levels at its id exactly when nothing is missing. Nothing is when the rest of
      the event is no news, and at the end of an event. */
  lemma ReturnMatchesExactly(h: seq<Change>, depth: nat, ms: seq<DepthMessage>, feed: seq<Reading>,
                             replies: seq<Reply>, answers: seq<u64>, v: View, c: nat)
    requires CanFollow(h, ms, answers) && Honest(h, depth, replies, answers)
    requires Reached(Start(feed, replies), depth, v, c) && Updates(feed[..c]) <= Flattened(ms)
    ensures var us := Updates(feed[..c]);
            var trust := TrustFrom(depth, us, replies);
            && (MatchesExchange(h, depth, v.book, trust) <==> NothingMissing(h, ms, answers, |us|, v.book, trust))
            && (NothingPending(h, ms, answers, |us|) ==> NothingMissing(h, ms, answers, |us|, v.book, trust))
            && (AtBoundary(us) ==> NothingPending(h, ms, answers, |us|))
  {
    var us := Updates(feed[..c]);
    SyncedExactly(h, ms, us, answers);
    var r := ApplyAllFull(h, StartReplica(h), us, answers).value.0;
    EmptyBookTracks(h, depth);
    UpdatesKeepTracking(h, depth, EMPTY_BOOK, StartReplica(h), Trust(depth, depth), us, replies, answers);
    LaddersMatchExactly(h, depth, ms, us, answers, v.book, r, TrustFrom(depth, us, replies));
    if NothingPending(h, ms, answers, |us|) {
      SyncedTrackingMatches(h, depth, v.book, r, TrustFrom(depth, us, replies));
    }
    if AtBoundary(us) {
      BoundaryLeavesNothing(h, ms, us, answers);
    }
  }
}
