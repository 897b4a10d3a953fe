/** Keeping a local book in step with the exchange: gap detection, stale skips and snapshots,
    against an exchange that is a numbered history of changes. */
module BookSync {
  import opened Words
  import opened PriceLevels
  import opened MarketData
  import opened OrderBook

  // ---- The exchange ----

  datatype Change = Change(side: Side, price: u64, quantity: u64)

  datatype FullBook = FullBook(bids: Levels, asks: Levels)

  function LevelsOn(b: FullBook, side: Side): Levels {
    if side.Bid? then b.bids else b.asks
  }

  function QuantityAt(b: FullBook, side: Side, price: u64): u64 {
    Quantity(LevelsOn(b, side), price)
  }

  function Applied(b: FullBook, c: Change): FullBook {
    if c.side.Bid? then b.(bids := SetLevel(b.bids, c.price, c.quantity))
    else b.(asks := SetLevel(b.asks, c.price, c.quantity))
  }

  function AllApplied(b: FullBook, cs: seq<Change>): FullBook
    decreases |cs|
  {
    if cs == [] then b else AllApplied(Applied(b, cs[0]), cs[1..])
  }

  /** The exchange's book after the changes numbered 1 to `n`. */
  function BookAt(h: seq<Change>, n: nat): FullBook
    requires n <= |h|
  {
    if n == 0 then FullBook(map[], map[]) else Applied(BookAt(h, n - 1), h[n - 1])
  }

  function ChangeAt(m: DepthMessage, i: nat): Change
    requires i < LevelCount(m)
  {
    var u := UpdateAt(m, i);
    Change(u.side, u.price, u.quantity)
  }

  function ChangesOf(us: seq<OrderBookUpdate>): (cs: seq<Change>)
    ensures |cs| == |us|
  {
    seq(|us|, i requires 0 <= i < |us| => Change(us[i].side, us[i].price, us[i].quantity))
  }

  ghost predicate Touches(cs: seq<Change>, side: Side, price: u64) {
    exists i :: 0 <= i < |cs| && cs[i].side == side && cs[i].price == price
  }

  /** Every change of the list carries the quantity the level has in the book. */
  ghost predicate Final(b: FullBook, cs: seq<Change>) {
    forall i :: 0 <= i < |cs| ==> cs[i].quantity == QuantityAt(b, cs[i].side, cs[i].price)
  }

  /** The event lists every level touched between its two ids, with its quantity at the last one. */
  ghost predicate Summarises(h: seq<Change>, m: DepthMessage) {
    && 1 <= m.firstId <= m.lastId <= |h|
    && Final(BookAt(h, m.lastId), ChangesOf(UpdatesOf(m)))
    // change number k + 1 is at index k
    && forall k :: m.firstId - 1 <= k < m.lastId ==> Touches(ChangesOf(UpdatesOf(m)), h[k].side, h[k].price)
  }

  // ---- Books without empty levels are determined by their quantities ----

  ghost predicate NoEmptyLevels(b: FullBook) {
    NoEmpty(b.bids) && NoEmpty(b.asks)
  }

  lemma SameQuantities(a: FullBook, b: FullBook)
    requires NoEmptyLevels(a) && NoEmptyLevels(b)
    requires forall side, p :: QuantityAt(a, side, p) == QuantityAt(b, side, p)
    ensures a == b
  {
    assert forall p :: QuantityAt(a, Bid, p) == QuantityAt(b, Bid, p);
    assert forall p :: p in a.bids <==> QuantityAt(a, Bid, p) != 0;
    assert forall p :: p in b.bids <==> QuantityAt(b, Bid, p) != 0;
    assert a.bids == b.bids;
    assert forall p :: QuantityAt(a, Ask, p) == QuantityAt(b, Ask, p);
    assert forall p :: p in a.asks <==> QuantityAt(a, Ask, p) != 0;
    assert forall p :: p in b.asks <==> QuantityAt(b, Ask, p) != 0;
    assert a.asks == b.asks;
  }

  lemma {:induction false} HistoryHasNoEmptyLevels(h: seq<Change>, n: nat)
    requires n <= |h|
    ensures NoEmptyLevels(BookAt(h, n))
  {
    if n > 0 {
      HistoryHasNoEmptyLevels(h, n - 1);
    }
  }

  lemma {:induction false} AllAppliedHasNoEmptyLevels(b: FullBook, cs: seq<Change>)
    requires NoEmptyLevels(b)
    ensures NoEmptyLevels(AllApplied(b, cs))
    decreases |cs|
  {
    if cs != [] {
      AllAppliedHasNoEmptyLevels(Applied(b, cs[0]), cs[1..]);
    }
  }

  lemma TouchesHeadOrTail(cs: seq<Change>, side: Side, p: u64)
    requires cs != []
    ensures Touches(cs, side, p) <==> (cs[0].side == side && cs[0].price == p) || Touches(cs[1..], side, p)
  {
    if Touches(cs[1..], side, p) {
      var i :| 0 <= i < |cs[1..]| && cs[1..][i].side == side && cs[1..][i].price == p;
      assert cs[i + 1].side == side && cs[i + 1].price == p;
    }
    if Touches(cs, side, p) {
      var i :| 0 <= i < |cs| && cs[i].side == side && cs[i].price == p;
      assert i > 0 ==> cs[1..][i - 1] == cs[i];
    }
  }

  lemma {:induction false} AllAppliedQuantity(target: FullBook, b: FullBook, cs: seq<Change>, side: Side, p: u64)
    requires Final(target, cs)
    ensures QuantityAt(AllApplied(b, cs), side, p) ==
            if Touches(cs, side, p) then QuantityAt(target, side, p) else QuantityAt(b, side, p)
    decreases |cs|
  {
    if cs != [] {
      var c := cs[0];
      forall i | 0 <= i < |cs[1..]| ensures cs[1..][i].quantity == QuantityAt(target, cs[1..][i].side, cs[1..][i].price) {
        assert cs[1..][i] == cs[i + 1];
      }
      AllAppliedQuantity(target, Applied(b, c), cs[1..], side, p);
      TouchesHeadOrTail(cs, side, p);
    }
  }

  lemma {:induction false} UntouchedKeepsQuantity(h: seq<Change>, l: nat, n: nat, side: Side, p: u64)
    requires l <= n <= |h|
    requires forall k :: l <= k < n ==> !(h[k].side == side && h[k].price == p)
    ensures QuantityAt(BookAt(h, n), side, p) == QuantityAt(BookAt(h, l), side, p)
    decreases n
  {
    if l < n {
      UntouchedKeepsQuantity(h, l, n - 1, side, p);
    }
  }

  ghost predicate UntouchedSince(h: seq<Change>, l: nat, n: nat, side: Side, p: u64)
    requires l <= n <= |h|
  {
    forall k :: l <= k < n ==> h[k].side != side || h[k].price != p
  }

  /** A level holds what the last change to it set, and nothing if there was none. */
  lemma BookHoldsLastChange(h: seq<Change>, n: nat, side: Side, p: u64)
    requires n <= |h|
    ensures UntouchedSince(h, 0, n, side, p) ==> QuantityAt(BookAt(h, n), side, p) == 0
    ensures forall k :: 0 <= k < n && h[k].side == side && h[k].price == p && UntouchedSince(h, k + 1, n, side, p) ==>
              QuantityAt(BookAt(h, n), side, p) == h[k].quantity
  {
    if UntouchedSince(h, 0, n, side, p) {
      UntouchedKeepsQuantity(h, 0, n, side, p);
    }
    forall k | 0 <= k < n && h[k].side == side && h[k].price == p && UntouchedSince(h, k + 1, n, side, p)
      ensures QuantityAt(BookAt(h, n), side, p) == h[k].quantity
    {
      UntouchedKeepsQuantity(h, k + 1, n, side, p);
      assert BookAt(h, k + 1) == Applied(BookAt(h, k), h[k]);
    }
  }

  /** Overlap is harmless: an event that starts no later than the next id and ends no earlier than
      the current one takes the book of the current id to the book of the event's last id. */
  lemma EventAdvancesBook(h: seq<Change>, l: nat, m: DepthMessage)
    requires Summarises(h, m) && m.firstId <= l + 1 && l <= m.lastId
    ensures AllApplied(BookAt(h, l), ChangesOf(UpdatesOf(m))) == BookAt(h, m.lastId)
  {
    var cs := ChangesOf(UpdatesOf(m));
    var got, want := AllApplied(BookAt(h, l), cs), BookAt(h, m.lastId);
    HistoryHasNoEmptyLevels(h, l);
    HistoryHasNoEmptyLevels(h, m.lastId);
    AllAppliedHasNoEmptyLevels(BookAt(h, l), cs);
    forall side, p ensures QuantityAt(got, side, p) == QuantityAt(want, side, p) {
      AllAppliedQuantity(want, BookAt(h, l), cs, side, p);
      if !Touches(cs, side, p) {
        UntouchedKeepsQuantity(h, l, m.lastId, side, p);
      }
    }
    SameQuantities(got, want);
  }

  /** Applying again what the book already holds changes nothing. */
  lemma FinalChangesAreIdempotent(b: FullBook, cs: seq<Change>)
    requires NoEmptyLevels(b) && Final(b, cs)
    ensures AllApplied(b, cs) == b
  {
    AllAppliedHasNoEmptyLevels(b, cs);
    forall side, p ensures QuantityAt(AllApplied(b, cs), side, p) == QuantityAt(b, side, p) {
      AllAppliedQuantity(b, b, cs, side, p);
    }
    SameQuantities(AllApplied(b, cs), b);
  }

  // ---- The replica over unbounded sides ----

  datatype Decision = Corrupted | TooOld | Current

  function Classify(lastUpdateId: u64, u: OrderBookUpdate): Decision {
    if u.firstId > Wrap64(lastUpdateId + 1) then Corrupted
    else if u.lastId < lastUpdateId then TooOld
    else Current
  }

  datatype Replica = Replica(lastUpdateId: u64, book: FullBook)

  /** One update against the exchange's history; a reset takes the book at the id the snapshot
      service answers with. The remaining answers are returned. */
  function ApplyFull(h: seq<Change>, r: Replica, u: OrderBookUpdate, answers: seq<u64>): Option<(Replica, seq<u64>)> {
    match Classify(r.lastUpdateId, u)
    case Corrupted =>
      if answers == [] || answers[0] > |h| then None
      else Some((Replica(answers[0], BookAt(h, answers[0])), answers[1..]))
    case TooOld => Some((r, answers))
    case Current => Some((Replica(u.lastId, Applied(r.book, Change(u.side, u.price, u.quantity))), answers))
  }

  function ApplyAllFull(h: seq<Change>, r: Replica, us: seq<OrderBookUpdate>, answers: seq<u64>): Option<(Replica, seq<u64>)>
    decreases |us|
  {
    if us == [] then Some((r, answers))
    else match ApplyFull(h, r, us[0], answers)
         case None => None
         case Some((r', rest)) => ApplyAllFull(h, r', us[1..], rest)
  }

  ghost predicate Synced(h: seq<Change>, r: Replica) {
    r.lastUpdateId <= |h| < U64_LIMIT - 1 && r.book == BookAt(h, r.lastUpdateId)
  }

  ghost predicate SameEvent(us: seq<OrderBookUpdate>, m: DepthMessage) {
    forall i :: 0 <= i < |us| ==> us[i].firstId == m.firstId && us[i].lastId == m.lastId
  }

  lemma {:induction false} StaleUpdatesAreSkipped(h: seq<Change>, r: Replica, us: seq<OrderBookUpdate>, m: DepthMessage, answers: seq<u64>)
    requires SameEvent(us, m) && m.firstId <= m.lastId < r.lastUpdateId < U64_LIMIT - 1
    ensures ApplyAllFull(h, r, us, answers) == Some((r, answers))
    decreases |us|
  {
    if us != [] {
      StaleUpdatesAreSkipped(h, r, us[1..], m, answers);
    }
  }

  lemma {:induction false} CurrentUpdatesAreApplied(h: seq<Change>, r: Replica, us: seq<OrderBookUpdate>, m: DepthMessage, answers: seq<u64>)
    requires SameEvent(us, m) && m.firstId <= r.lastUpdateId + 1 && r.lastUpdateId <= m.lastId < U64_LIMIT - 1
    requires m.firstId <= m.lastId
    ensures ApplyAllFull(h, r, us, answers) ==
            Some((Replica(if us == [] then r.lastUpdateId else m.lastId, AllApplied(r.book, ChangesOf(us))), answers))
    decreases |us|
  {
    if us != [] {
      var r' := Replica(m.lastId, Applied(r.book, Change(us[0].side, us[0].price, us[0].quantity)));
      assert ApplyFull(h, r, us[0], answers) == Some((r', answers));
      CurrentUpdatesAreApplied(h, r', us[1..], m, answers);
      assert ChangesOf(us)[1..] == ChangesOf(us[1..]);
    }
  }

  /** The answers an event consumes are no older than the event. */
  ghost predicate FreshAnswers(h: seq<Change>, r: Replica, m: DepthMessage, answers: seq<u64>) {
    LevelCount(m) > 0 && Classify(r.lastUpdateId, UpdateAt(m, 0)) == Corrupted ==>
      answers != [] && m.lastId <= answers[0] <= |h|
  }

  /** Some of the levels of an event, with their quantities at its last id. */
  ghost predicate PartOf(h: seq<Change>, m: DepthMessage) {
    1 <= m.firstId <= m.lastId <= |h| && LevelCount(m) > 0 && Final(BookAt(h, m.lastId), ChangesOf(UpdatesOf(m)))
  }

  /** A whole event, or any part of one that shows a gap. */
  ghost predicate Followable(h: seq<Change>, lastUpdateId: u64, m: DepthMessage) {
    PartOf(h, m) && (Summarises(h, m) || m.firstId > lastUpdateId + 1)
  }

  lemma SummaryIsPart(h: seq<Change>, m: DepthMessage)
    requires Summarises(h, m)
    ensures PartOf(h, m)
  {
    assert Touches(ChangesOf(UpdatesOf(m)), h[m.firstId - 1].side, h[m.firstId - 1].price);
  }

  lemma TrimmedIsPart(h: seq<Change>, m: DepthMessage, k: nat)
    requires PartOf(h, m) && k < LevelCount(m)
    ensures PartOf(h, Trimmed(m, k))
  {
    TrimmedUpdates(m, k);
    var cs, ds := ChangesOf(UpdatesOf(m)), ChangesOf(UpdatesOf(Trimmed(m, k)));
    assert forall i :: 0 <= i < |ds| ==> ds[i] == cs[k + i];
  }

  /** What one event does to a synchronised replica. */
  lemma EventKeepsSync(h: seq<Change>, r: Replica, m: DepthMessage, answers: seq<u64>)
    requires Synced(h, r) && Followable(h, r.lastUpdateId, m) && FreshAnswers(h, r, m, answers)
    ensures var res := ApplyAllFull(h, r, UpdatesOf(m), answers);
            && res.Some?
            && Synced(h, res.value.0)
            && res.value.0.lastUpdateId == (
                 if m.firstId > r.lastUpdateId + 1 then answers[0] else Max(r.lastUpdateId, m.lastId))
            && res.value.1 == (if m.firstId > r.lastUpdateId + 1 then answers[1..] else answers)
  {
    var us := UpdatesOf(m);
    match Classify(r.lastUpdateId, us[0])
    case TooOld =>
      StaleUpdatesAreSkipped(h, r, us, m, answers);
    case Current =>
      CurrentUpdatesAreApplied(h, r, us, m, answers);
      EventAdvancesBook(h, r.lastUpdateId, m);
    case Corrupted =>
      var id := answers[0];
      SnapshotAnswersPart(h, m, us, id, answers[1..]);
      assert ApplyFull(h, r, us[0], answers) == Some((Replica(id, BookAt(h, id)), answers[1..]));
  }

  // ---- In the middle of an event ----

  /** The book has this change already. */
  predicate HoldsChange(b: FullBook, c: Change) {
    QuantityAt(b, c.side, c.price) == c.quantity
  }

  /** The event lists the level between `a` and `b`. */
  ghost predicate ListedBetween(m: DepthMessage, a: nat, b: nat, c: Change)
    requires a <= b <= LevelCount(m)
  {
    Touches(ChangesOf(UpdatesOf(m))[a..b], c.side, c.price)
  }

  /** Of the changes of the event outside `a` to `b` the book holds every one that is not listed
      again between them. */
  ghost predicate HoldsOthers(book: FullBook, m: DepthMessage, a: nat, b: nat)
    requires a <= b <= LevelCount(m)
  {
    forall i :: 0 <= i < LevelCount(m) && !(a <= i < b) ==>
      HoldsChange(book, ChangesOf(UpdatesOf(m))[i]) || ListedBetween(m, a, b, ChangesOf(UpdatesOf(m))[i])
  }

  /** With only the changes from `a` to `b` of an overlapping event the book is right exactly when it
      held all the others before. */
  lemma PartialEventExactly(h: seq<Change>, l: nat, m: DepthMessage, a: nat, b: nat)
    requires Summarises(h, m) && m.firstId <= l + 1 && l <= m.lastId
    requires a <= b <= LevelCount(m)
    ensures AllApplied(BookAt(h, l), ChangesOf(UpdatesOf(m))[a..b]) == BookAt(h, m.lastId) <==>
              HoldsOthers(BookAt(h, l), m, a, b)
  {
    var cs := ChangesOf(UpdatesOf(m));
    var got, want := AllApplied(BookAt(h, l), cs[a..b]), BookAt(h, m.lastId);
    assert forall j :: 0 <= j < b - a ==> cs[a..b][j] == cs[a + j];
    assert Final(want, cs[a..b]);
    if got == want {
      forall i | 0 <= i < |cs| && !(a <= i < b) ensures HoldsChange(BookAt(h, l), cs[i]) || ListedBetween(m, a, b, cs[i]) {
        AllAppliedQuantity(want, BookAt(h, l), cs[a..b], cs[i].side, cs[i].price);
      }
    }
    if HoldsOthers(BookAt(h, l), m, a, b) {
      HistoryHasNoEmptyLevels(h, l);
      HistoryHasNoEmptyLevels(h, m.lastId);
      AllAppliedHasNoEmptyLevels(BookAt(h, l), cs[a..b]);
      forall side, p ensures QuantityAt(got, side, p) == QuantityAt(want, side, p) {
        HeldOrApplied(h, l, m, a, b, side, p);
      }
      SameQuantities(got, want);
    }
  }

  lemma HeldOrApplied(h: seq<Change>, l: nat, m: DepthMessage, a: nat, b: nat, side: Side, p: u64)
    requires Summarises(h, m) && m.firstId <= l + 1 && l <= m.lastId && a <= b <= LevelCount(m)
    requires HoldsOthers(BookAt(h, l), m, a, b)
    ensures QuantityAt(AllApplied(BookAt(h, l), ChangesOf(UpdatesOf(m))[a..b]), side, p)
            == QuantityAt(BookAt(h, m.lastId), side, p)
  {
    var cs := ChangesOf(UpdatesOf(m));
    var want, part := BookAt(h, m.lastId), cs[a..b];
    assert forall j :: 0 <= j < b - a ==> part[j] == cs[a + j];
    assert Final(want, part);
    AllAppliedQuantity(want, BookAt(h, l), part, side, p);
    if !Touches(part, side, p) {
      forall i | a <= i < b ensures cs[i].side != side || cs[i].price != p {
        assert cs[i] == part[i - a];
      }
      if Touches(cs, side, p) {
        var i :| 0 <= i < |cs| && cs[i].side == side && cs[i].price == p;
        assert HoldsChange(BookAt(h, l), cs[i]) || ListedBetween(m, a, b, cs[i]);
      } else {
        UntouchedKeepsQuantity(h, l, m.lastId, side, p);
      }
    }
  }

  /** Nothing that the rest of an event brings is news: the event is stale or was answered with a
      fresh snapshot, or the book held the updates still to come before the event began, save those
      whose level the event has listed already. */
  ghost predicate NoNews(r: Replica, m: DepthMessage, n: nat)
    requires LevelCount(m) > 0 && n <= LevelCount(m)
  {
    || Classify(r.lastUpdateId, UpdateAt(m, 0)) != Current
    || forall i :: n <= i < LevelCount(m) ==> HoldsChange(r.book, ChangeAt(m, i)) || ListedBetween(m, 0, n, ChangeAt(m, i))
  }

  /** After the first `n` updates of an event the replica is the exchange's book at its id exactly
      when the rest of the event is no news. */
  lemma MidEventExactly(h: seq<Change>, r: Replica, m: DepthMessage, n: nat, answers: seq<u64>)
    requires Synced(h, r) && Followable(h, r.lastUpdateId, m) && FreshAnswers(h, r, m, answers)
    requires 0 < n <= LevelCount(m)
    ensures var res := ApplyAllFull(h, r, UpdatesOf(m)[..n], answers);
            && res.Some? && res.value.0.lastUpdateId <= |h|
            && (Synced(h, res.value.0) <==> NoNews(r, m, n))
  {
    var us := UpdatesOf(m);
    var cs := ChangesOf(us);
    assert us[..n][0] == us[0] == UpdateAt(m, 0);
    match Classify(r.lastUpdateId, us[0])
    case TooOld =>
      StaleUpdatesAreSkipped(h, r, us[..n], m, answers);
    case Current =>
      CurrentUpdatesAreApplied(h, r, us[..n], m, answers);
      assert ChangesOf(us[..n]) == cs[0..n];
      PartialEventExactly(h, r.lastUpdateId, m, 0, n);
      assert forall i :: 0 <= i < |cs| ==> cs[i] == ChangeAt(m, i);
      assert HoldsOthers(r.book, m, 0, n) <==> NoNews(r, m, n);
    case Corrupted =>
      var id := answers[0];
      SnapshotAnswersPart(h, m, us[..n], id, answers[1..]);
      assert ApplyFull(h, r, us[0], answers) == Some((Replica(id, BookAt(h, id)), answers[1..]));
  }

  /** The updates that follow the one that asked for a fresh snapshot change nothing: they are
      stale, or, when the snapshot id is the id of the event, already in the snapshot. */
  lemma SnapshotAnswersPart(h: seq<Change>, m: DepthMessage, us: seq<OrderBookUpdate>, id: u64, rest: seq<u64>)
    requires |h| < U64_LIMIT - 1 && PartOf(h, m) && us != [] && us <= UpdatesOf(m) && m.lastId <= id <= |h|
    ensures ApplyAllFull(h, Replica(id, BookAt(h, id)), us[1..], rest) == Some((Replica(id, BookAt(h, id)), rest))
  {
    var r := Replica(id, BookAt(h, id));
    if id > m.lastId {
      StaleUpdatesAreSkipped(h, r, us[1..], m, rest);
    } else {
      CurrentUpdatesAreApplied(h, r, us[1..], m, rest);
      HistoryHasNoEmptyLevels(h, id);
      var cs, ds := ChangesOf(UpdatesOf(m)), ChangesOf(us[1..]);
      assert forall i :: 0 <= i < |ds| ==> ds[i] == cs[i + 1];
      FinalChangesAreIdempotent(BookAt(h, id), ds);
    }
  }

  // ---- Snapshots of any age ----

  /** How many updates of an event go into snapshots: an answer that leaves a gap before the event
      makes the next update ask again. */
  function ResetsIn(updates: nat, firstId: u64, answers: seq<u64>): (n: nat)
    requires 1 <= updates <= |answers|
    ensures 1 <= n <= updates
  {
    if updates == 1 || firstId <= answers[0] as int + 1 then 1 else 1 + ResetsIn(updates - 1, firstId, answers[1..])
  }

  /** The updates that ask for snapshots are consumed; the last answer decides what follows. */
  lemma {:induction false} ResetChain(h: seq<Change>, r: Replica, us: seq<OrderBookUpdate>, m: DepthMessage, answers: seq<u64>)
    requires |h| < U64_LIMIT - 1 && SameEvent(us, m) && 1 <= |us| <= |answers|
    requires m.firstId > r.lastUpdateId + 1 && r.lastUpdateId <= |h|
    requires forall i :: 0 <= i < |us| ==> answers[i] <= |h|
    ensures var n := ResetsIn(|us|, m.firstId, answers);
            var id := answers[n - 1];
            && id <= |h| && (n == |us| || m.firstId <= id + 1)
            && ApplyAllFull(h, r, us, answers) == ApplyAllFull(h, Replica(id, BookAt(h, id)), us[n..], answers[n..])
    decreases |us|
  {
    var id := answers[0];
    var r' := Replica(id, BookAt(h, id));
    assert ApplyFull(h, r, us[0], answers) == Some((r', answers[1..]));
    if |us| > 1 && m.firstId > id + 1 {
      ResetChain(h, r', us[1..], m, answers[1..]);
      var n := ResetsIn(|us| - 1, m.firstId, answers[1..]);
      assert us[1..][n..] == us[n + 1..] && answers[1..][n..] == answers[n + 1..];
    }
  }

  lemma GapResets(h: seq<Change>, r: Replica, m: DepthMessage, answers: seq<u64>)
    requires |h| < U64_LIMIT - 1 && 1 <= LevelCount(m) <= |answers|
    requires m.firstId > r.lastUpdateId + 1 && r.lastUpdateId <= |h|
    requires forall i :: 0 <= i < LevelCount(m) ==> answers[i] <= |h|
    ensures var n := ResetsIn(LevelCount(m), m.firstId, answers);
            var id := answers[n - 1];
            && id <= |h| && (n == LevelCount(m) || m.firstId <= id + 1)
            && ApplyAllFull(h, r, UpdatesOf(m), answers)
               == ApplyAllFull(h, Replica(id, BookAt(h, id)), UpdatesOf(m)[n..], answers[n..])
  {
    var us := UpdatesOf(m);
    assert SameEvent(us, m);
    ResetChain(h, r, us, m, answers);
  }

  /** The first `n` updates of the event were used up by resets, the last one to this book, and no
      change was lost: they were all of the event, or the snapshot reaches its end, or already holds
      the updates used up, save those whose level is listed again. */
  ghost predicate NothingLost(book: FullBook, id: u64, m: DepthMessage, n: nat)
    requires n <= LevelCount(m)
  {
    || n == LevelCount(m) || id >= m.lastId
    || forall i :: 0 <= i < n ==> HoldsChange(book, ChangeAt(m, i)) || ListedBetween(m, n, LevelCount(m), ChangeAt(m, i))
  }

  /** An event that shows a gap, whatever snapshots it is answered with: `n` of its updates are used
      up by resets, and at the end of the event the replica is the exchange's book exactly when
      nothing was lost with them. */
  lemma GapEventOutcome(h: seq<Change>, r: Replica, m: DepthMessage, answers: seq<u64>)
    requires |h| < U64_LIMIT - 1 && Summarises(h, m)
    requires m.firstId > r.lastUpdateId + 1 && r.lastUpdateId <= |h|
    requires LevelCount(m) <= |answers| && forall i :: 0 <= i < LevelCount(m) ==> answers[i] <= |h|
    ensures LevelCount(m) >= 1
    ensures var res := ApplyAllFull(h, r, UpdatesOf(m), answers);
            var n := ResetsIn(LevelCount(m), m.firstId, answers);
            var id := answers[n - 1];
            && res.Some?
            && (Synced(h, res.value.0) <==> NothingLost(BookAt(h, id), id, m, n))
  {
    SummaryIsPart(h, m);
    GapResets(h, r, m, answers);
    var n := ResetsIn(LevelCount(m), m.firstId, answers);
    RestOfEvent(h, m, n, answers[n - 1], answers[n..]);
  }

  lemma RestOfEvent(h: seq<Change>, m: DepthMessage, n: nat, id: u64, answers: seq<u64>)
    requires |h| < U64_LIMIT - 1 && Summarises(h, m) && id <= |h|
    requires n <= LevelCount(m) && (n == LevelCount(m) || m.firstId <= id + 1)
    ensures var res := ApplyAllFull(h, Replica(id, BookAt(h, id)), UpdatesOf(m)[n..], answers);
            && res.Some?
            && (Synced(h, res.value.0) <==> NothingLost(BookAt(h, id), id, m, n))
  {
    var us := UpdatesOf(m);
    var cs := ChangesOf(us);
    var r := Replica(id, BookAt(h, id));
    assert forall i :: 0 <= i < |cs| ==> cs[i] == ChangeAt(m, i);
    if n == |us| {
      assert us[n..] == [];
    } else if id > m.lastId {
      StaleUpdatesAreSkipped(h, r, us[n..], m, answers);
    } else {
      assert ChangesOf(us[n..]) == cs[n..|cs|];
      CurrentUpdatesAreApplied(h, r, us[n..], m, answers);
      PartialEventExactly(h, id, m, n, |cs|);
      if id == m.lastId {
        assert forall i :: 0 <= i < n ==> HoldsChange(BookAt(h, id), cs[i]);
      }
    }
  }

  const GAP_HISTORY := [Change(Bid, 1, 5), Change(Bid, 2, 5), Change(Bid, 3, 5)]

  const GAP_EVENT := DepthMessage(0, 2, 3, BtcUsdt, [Row(2, 5), Row(3, 5)], [])

  /** A real loss: an empty replica meets the event with ids 2 to 3, and the snapshot it is answered
      with ends just before the event. The first level of the event is lost. */
  lemma OldSnapshotLosesUpdate()
    ensures Summarises(GAP_HISTORY, GAP_EVENT)
    ensures var res := ApplyAllFull(GAP_HISTORY, Replica(0, BookAt(GAP_HISTORY, 0)), UpdatesOf(GAP_EVENT), [1, 1]);
            && res.Some? && res.value.0.lastUpdateId == 3
            && QuantityAt(res.value.0.book, Bid, 2) == 0 && QuantityAt(BookAt(GAP_HISTORY, 3), Bid, 2) == 5
            && !Synced(GAP_HISTORY, res.value.0)
  {
    var h, m := GAP_HISTORY, GAP_EVENT;
    var cs := ChangesOf(UpdatesOf(m));
    var b1 := Applied(BookAt(h, 0), h[0]);
    var b2 := Applied(b1, h[1]);
    var b3 := Applied(b2, h[2]);
    assert BookAt(h, 1) == b1 && BookAt(h, 2) == b2 && BookAt(h, 3) == b3;
    assert UpdateAt(m, 0).price == 2 && UpdateAt(m, 1).price == 3;
    assert cs[0] == h[1] && cs[1] == h[2];
    assert Final(BookAt(h, 3), cs);
    assert Touches(cs, Bid, 2) && Touches(cs, Bid, 3);
    var us := UpdatesOf(m);
    var r1, r2 := Replica(1, b1), Replica(3, Applied(b1, h[2]));
    assert ApplyFull(h, Replica(0, BookAt(h, 0)), us[0], [1, 1]) == Some((r1, [1]));
    assert us[1..] == [us[1]];
    assert ApplyFull(h, r1, us[1], [1]) == Some((r2, [1]));
    assert ApplyAllFull(h, r1, [us[1]], [1]) == Some((r2, [1]));
  }

  // ---- Runs ----

  function RunFull(h: seq<Change>, r: Replica, ms: seq<DepthMessage>, answers: seq<u64>): Option<(Replica, seq<u64>)>
    decreases |ms|
  {
    if ms == [] then Some((r, answers))
    else match ApplyAllFull(h, r, UpdatesOf(ms[0]), answers)
         case None => None
         case Some((r', rest)) => RunFull(h, r', ms[1..], rest)
  }

  /** Every snapshot taken during the run has an id no smaller than the event that asked for it. */
  ghost predicate FreshThroughout(h: seq<Change>, r: Replica, ms: seq<DepthMessage>, answers: seq<u64>)
    decreases |ms|
  {
    ms == [] || (
      && FreshAnswers(h, r, ms[0], answers)
      && var res := ApplyAllFull(h, r, UpdatesOf(ms[0]), answers);
         res.Some? ==> FreshThroughout(h, res.value.0, ms[1..], res.value.1))
  }

  /** Whole events, except that the first may be a part of one that shows a gap. */
  ghost predicate AllFollowable(h: seq<Change>, lastUpdateId: u64, ms: seq<DepthMessage>) {
    && (ms != [] ==> Followable(h, lastUpdateId, ms[0]))
    && forall i :: 1 <= i < |ms| ==> Summarises(h, ms[i])
  }

  lemma AllFollowableNext(h: seq<Change>, lastUpdateId: u64, ms: seq<DepthMessage>)
    requires AllFollowable(h, lastUpdateId, ms) && ms != []
    ensures forall id: u64 :: AllFollowable(h, id, ms[1..])
  {
    if |ms| > 1 {
      SummaryIsPart(h, ms[1]);
    }
  }

  /** Over any run of events, with gaps, repetitions and stale events in any order: at every event
      boundary the replica is the exchange's book at its own last id, which never decreases. */
  lemma {:induction false} RunKeepsSync(h: seq<Change>, r: Replica, ms: seq<DepthMessage>, answers: seq<u64>)
    requires Synced(h, r) && AllFollowable(h, r.lastUpdateId, ms)
    requires FreshThroughout(h, r, ms, answers)
    ensures var res := RunFull(h, r, ms, answers);
            res.Some? && Synced(h, res.value.0) && res.value.0.lastUpdateId >= r.lastUpdateId
    decreases |ms|
  {
    if ms != [] {
      EventKeepsSync(h, r, ms[0], answers);
      AllFollowableNext(h, r.lastUpdateId, ms);
      var (r', rest) := ApplyAllFull(h, r, UpdatesOf(ms[0]), answers).value;
      RunKeepsSync(h, r', ms[1..], rest);
    }
  }
}
