/** The sliding window of trades: a circular buffer with running sums. */
module TradeFlowWindow {
  import opened Words
  import opened MarketData

  const CAPACITY: nat := 2048

  datatype Entry = Entry(eventTime: u64, buy: u64, sell: u64)

  function EntryFor(eventTime: u64, isBuyerMaker: bool, quantity: u64): Entry {
    Entry(eventTime, if isBuyerMaker then 0 else quantity, if isBuyerMaker then quantity else 0)
  }

  function BuyTotal(es: seq<Entry>): nat {
    if es == [] then 0 else es[0].buy + BuyTotal(es[1..])
  }

  function SellTotal(es: seq<Entry>): nat {
    if es == [] then 0 else es[0].sell + SellTotal(es[1..])
  }

  lemma {:induction false} TotalsAppend(es: seq<Entry>, e: Entry)
    ensures BuyTotal(es + [e]) == BuyTotal(es) + e.buy
    ensures SellTotal(es + [e]) == SellTotal(es) + e.sell
  {
    if es == [] {
    } else {
      assert (es + [e])[1..] == es[1..] + [e];
      TotalsAppend(es[1..], e);
    }
  }

  /** Trades older than this leave the window. */
  function Cutoff(window: u64, eventTime: u64): u64 {
    if eventTime > window then eventTime - window else 0
  }

  /** Oldest entries are dropped while they are too old. */
  function Evicted(es: seq<Entry>, cutoff: u64): (r: seq<Entry>)
    ensures |r| <= |es|
  {
    if es != [] && es[0].eventTime < cutoff then Evicted(es[1..], cutoff) else es
  }

  lemma {:induction false} EvictedIsSuffix(es: seq<Entry>, cutoff: u64)
    ensures Evicted(es, cutoff) == es[|es| - |Evicted(es, cutoff)|..]
  {
    if es != [] && es[0].eventTime < cutoff {
      EvictedIsSuffix(es[1..], cutoff);
    }
  }

  /** The window after one more trade. */
  function Slid(es: seq<Entry>, window: u64, e: Entry): (r: seq<Entry>) {
    var kept := Evicted(es, Cutoff(window, e.eventTime));
    (if |kept| == CAPACITY then kept[1..] else kept) + [e]
  }

  /** The slot `i` places after another, around the ring. */
  function SlotAt(head: nat, i: nat): (r: nat)
    requires head < CAPACITY && i <= CAPACITY
    ensures r < CAPACITY
  {
    if head + i < CAPACITY then head + i else head + i - CAPACITY
  }

  lemma SlotIsRemainder(head: nat, i: nat)
    requires head < CAPACITY && i <= CAPACITY
    ensures (head + i) % CAPACITY == SlotAt(head, i)
  {
    assert (head + i) % 2048 == SlotAt(head, i);
  }

  /** The running sums are the totals of the window, modulo 2^64. */
  predicate SumsMatch(sumBuy: u64, sumSell: u64, es: seq<Entry>) {
    sumBuy == Wrap64(BuyTotal(es)) && sumSell == Wrap64(SellTotal(es))
  }

  lemma SumsAfterPop(sumBuy: u64, sumSell: u64, es: seq<Entry>)
    requires SumsMatch(sumBuy, sumSell, es) && es != []
    ensures SumsMatch(Wrap64(sumBuy - es[0].buy), Wrap64(sumSell - es[0].sell), es[1..])
  {
    var buy: int, sell: int := es[0].buy, es[0].sell;
    WrapOfSum(BuyTotal(es), -buy);
    WrapOfSum(SellTotal(es), -sell);
  }

  lemma SumsAfterPush(sumBuy: u64, sumSell: u64, es: seq<Entry>, e: Entry)
    requires SumsMatch(sumBuy, sumSell, es)
    ensures SumsMatch(Wrap64(sumBuy + e.buy), Wrap64(sumSell + e.sell), es + [e])
  {
    WrapOfSum(BuyTotal(es), e.buy);
    WrapOfSum(SellTotal(es), e.sell);
    TotalsAppend(es, e);
  }

  class TradeFlowWindow {
    const ring: array<Entry>
    var head: nat
    var tail: nat
    var size: nat
    var sumBuy: u64
    var sumSell: u64
    const window: u64
    /** Every trade seen, oldest first, and how many have left the window. */
    ghost var history: seq<Entry>
    ghost var popped: nat

    ghost predicate Valid()
      reads this, ring
    {
      && ring.Length == CAPACITY && head < CAPACITY && size <= CAPACITY
      && tail == SlotAt(head, size)
      && popped + size == |history|
      && (forall i {:trigger SlotAt(head, i)} :: 0 <= i < size ==> ring[SlotAt(head, i)] == history[popped + i])
      && SumsMatch(sumBuy, sumSell, Window())
    }

    /** The trades in the window: a suffix of the history. */
    ghost function Window(): (es: seq<Entry>)
      requires popped <= |history|
      reads this
    {
      history[popped..]
    }

    /** Between two trades: the window is what the whole history leaves. */
    ghost predicate Settled()
      requires popped <= |history|
      reads this
    {
      Window() == WindowAfter(window, history)
    }

    constructor (window: u64)
      ensures Valid() && Settled() && fresh(ring) && this.window == window
      ensures history == [] && popped == 0
    {
      ring := new Entry[CAPACITY];
      head, tail, size, sumBuy, sumSell := 0, 0, 0, 0, 0;
      this.window := window;
      history, popped := [], 0;
    }

    method PopOldest()
      requires Valid() && size > 0
      modifies this`head, this`size, this`sumBuy, this`sumSell, this`popped
      ensures Valid()
      ensures popped == old(popped) + 1 && size == old(size) - 1
    {
      ghost var before := Window();
      assert before[1..] == history[popped + 1..];
      assert ring[SlotAt(head, 0)] == before[0];
      SumsAfterPop(sumBuy, sumSell, before);
      SlotIsRemainder(head, 1);
      forall i | 0 <= i < size - 1 ensures ring[SlotAt(SlotAt(head, 1), i)] == history[popped + 1 + i] {
        assert SlotAt(SlotAt(head, 1), i) == SlotAt(head, i + 1);
      }
      sumBuy := Wrap64(sumBuy - ring[head].buy);
      sumSell := Wrap64(sumSell - ring[head].sell);
      head := (head + 1) % CAPACITY;
      size := size - 1;
      popped := popped + 1;
    }

    method EvictOlderThan(cutoff: u64)
      requires Valid()
      modifies this`head, this`size, this`sumBuy, this`sumSell, this`popped
      ensures Valid()
      ensures Window() == Evicted(old(Window()), cutoff)
      ensures popped >= old(popped)
    {
      while size > 0 && ring[head].eventTime < cutoff
        invariant Valid()
        invariant popped >= old(popped)
        invariant Evicted(Window(), cutoff) == Evicted(old(Window()), cutoff)
        decreases size
      {
        assert ring[SlotAt(head, 0)] == Window()[0];
        assert Window()[1..] == history[popped + 1..];
        PopOldest();
      }
      assert size > 0 ==> ring[SlotAt(head, 0)] == Window()[0];
    }

    method Push(e: Entry)
      requires Valid() && size < CAPACITY
      modifies this`tail, this`size, this`sumBuy, this`sumSell, this`history, ring
      ensures Valid()
      ensures history == old(history) + [e] && Window() == old(Window()) + [e]
    {
      SumsAfterPush(sumBuy, sumSell, Window(), e);
      assert Window() + [e] == (history + [e])[popped..];
      SlotIsRemainder(tail, 1);
      assert SlotAt(tail, 1) == SlotAt(head, size + 1);
      ring[tail] := e;
      assert forall i :: 0 <= i < size ==> SlotAt(head, i) != tail;
      tail := (tail + 1) % CAPACITY;
      size := size + 1;
      sumBuy := Wrap64(sumBuy + e.buy);
      sumSell := Wrap64(sumSell + e.sell);
      history := history + [e];
    }

    method Slide(e: Entry)
      requires Valid()
      modifies this`head, this`tail, this`size, this`sumBuy, this`sumSell, this`history, this`popped, ring
      ensures Valid() && popped >= old(popped)
      ensures history == old(history) + [e]
      ensures Window() == Slid(old(Window()), window, e)
    {
      var cutoff := if e.eventTime > window then e.eventTime - window else 0;
      EvictOlderThan(cutoff);
      ghost var kept := Window();
      assert |kept| == size;
      MakeRoom();
      assert Window() == if |kept| == CAPACITY then kept[1..] else kept;
      Push(e);
    }

    method MakeRoom()
      requires Valid()
      modifies this`head, this`size, this`sumBuy, this`sumSell, this`popped
      ensures Valid() && size < CAPACITY && popped >= old(popped)
      ensures Window() == if old(size) == CAPACITY then old(Window())[1..] else old(Window())
    {
      if size == CAPACITY {
        assert Window()[1..] == history[popped + 1..];
        PopOldest();
      }
    }

    /** One trade: the window slides, the sums stay the totals of what is in it, modulo 2^64. */
    method OnTrade(eventTime: u64, isBuyerMaker: bool, quantity: u64)
      requires Valid() && Settled()
      modifies this`head, this`tail, this`size, this`sumBuy, this`sumSell, this`history, this`popped, ring
      ensures Valid() && Settled() && popped >= old(popped)
      ensures history == old(history) + [EntryFor(eventTime, isBuyerMaker, quantity)]
      ensures Window() == Slid(old(Window()), window, EntryFor(eventTime, isBuyerMaker, quantity))
      ensures var newest := history[|history| - 1];
              && newest in Window() && newest.eventTime == eventTime
              && (!isBuyerMaker ==> newest.buy == quantity && newest.sell == 0)
              && (isBuyerMaker ==> newest.buy == 0 && newest.sell == quantity)
    {
      var e := Entry(eventTime, if isBuyerMaker then 0 else quantity, if isBuyerMaker then quantity else 0);
      WindowAfterUnfolds(window, history + [e], history, e);
      Slide(e);
      assert Window()[|Window()| - 1] == e;
    }

    method AggressiveBuyVolume() returns (v: u64)
      requires Valid()
      ensures v == Wrap64(BuyTotal(Window()))
    {
      v := sumBuy;
    }

    method AggressiveSellVolume() returns (v: u64)
      requires Valid()
      ensures v == Wrap64(SellTotal(Window()))
    {
      v := sumSell;
    }
  }

  // ---- Whole histories ----

  /** The window after a whole history of trades. */
  function WindowAfter(window: u64, history: seq<Entry>): seq<Entry> {
    if history == [] then []
    else Slid(WindowAfter(window, history[..|history| - 1]), window, history[|history| - 1])
  }

  /** The last `k` elements before position `n`. */
  function LastBefore(history: seq<Entry>, n: nat, k: nat): (r: seq<Entry>)
    requires k <= n <= |history|
    ensures |r| == k
  {
    history[n - k..n]
  }

  lemma SuffixOfLast(history: seq<Entry>, n: nat, k: nat, j: nat)
    requires j <= k <= n <= |history|
    ensures LastBefore(history, n, k)[k - j..] == LastBefore(history, n, j)
  {}

  lemma LastAndNext(history: seq<Entry>, n: nat, k: nat)
    requires k <= n < |history|
    ensures LastBefore(history, n, k) + [history[n]] == LastBefore(history, n + 1, k + 1)
  {}

  /** How many trades a window of `k` keeps when the `n`-th trade slides it. */
  function SlidLength(window: u64, history: seq<Entry>, n: nat, k: nat): (length: nat)
    requires k <= n < |history|
    ensures 1 <= length <= k + 1
    ensures k <= CAPACITY ==> length <= CAPACITY
  {
    var kept := |Evicted(LastBefore(history, n, k), Cutoff(window, history[n].eventTime))|;
    if kept == CAPACITY then kept else kept + 1
  }

  /** Sliding a window that ends before a trade gives a window that ends with it. */
  lemma SlidLast(window: u64, history: seq<Entry>, n: nat, k: nat)
    requires k <= n < |history|
    ensures Slid(LastBefore(history, n, k), window, history[n])
            == LastBefore(history, n + 1, SlidLength(window, history, n, k))
  {
    var w := LastBefore(history, n, k);
    var kept := Evicted(w, Cutoff(window, history[n].eventTime));
    EvictedIsSuffix(w, Cutoff(window, history[n].eventTime));
    SuffixOfLast(history, n, k, |kept|);
    if |kept| == CAPACITY {
      SuffixOfLast(history, n, |kept|, |kept| - 1);
      LastAndNext(history, n, |kept| - 1);
    } else {
      LastAndNext(history, n, |kept|);
    }
  }

  /** For any time stamps, in order or not: a suffix of the history, at most as long as the ring,
      that holds at least the newest trade. */
  lemma {:induction false} WindowIsSuffix(window: u64, history: seq<Entry>)
    ensures var w := WindowAfter(window, history);
            && |w| <= |history| && |w| <= CAPACITY
            && w == history[|history| - |w|..]
            && (history != [] ==> w != [])
    decreases |history|
  {
    if history != [] {
      var n := |history| - 1;
      var before := history[..n];
      WindowIsSuffix(window, before);
      var k := |WindowAfter(window, before)|;
      assert before[n - k..] == LastBefore(history, n, k);
      SlidLast(window, history, n, k);
    }
  }

  ghost predicate InTimeOrder(history: seq<Entry>) {
    forall i, j :: 0 <= i < j < |history| ==> history[i].eventTime <= history[j].eventTime
  }

  /** Trades no older than the cutoff. */
  function Recent(history: seq<Entry>, cutoff: u64): (n: nat)
    ensures n <= |history|
  {
    if history == [] then 0
    else (if history[0].eventTime >= cutoff then 1 else 0) + Recent(history[1..], cutoff)
  }

  lemma {:induction false} RecentAreLast(history: seq<Entry>, cutoff: u64)
    requires InTimeOrder(history)
    ensures var n := Recent(history, cutoff);
            && (forall i :: 0 <= i < |history| - n ==> history[i].eventTime < cutoff)
            && (forall i :: |history| - n <= i < |history| ==> history[i].eventTime >= cutoff)
  {
    if history != [] {
      RecentAreLast(history[1..], cutoff);
      var m := Recent(history[1..], cutoff);
      assert forall i :: 1 <= i < |history| ==> history[i] == history[1..][i - 1];
      if history[0].eventTime >= cutoff {
        assert forall i :: 0 <= i < |history| ==> history[i].eventTime >= cutoff;
        assert m == |history| - 1;
      }
    }
  }

  lemma {:induction false} EvictedKeepsRecent(es: seq<Entry>, cutoff: u64)
    requires InTimeOrder(es)
    ensures |Evicted(es, cutoff)| == Recent(es, cutoff)
  {
    RecentAreLast(es, cutoff);
    if es != [] && es[0].eventTime < cutoff {
      EvictedKeepsRecent(es[1..], cutoff);
    }
  }

  /** In a suffix that keeps enough of the history the recent trades are as many as in all of it. */
  lemma RecentInSuffix(history: seq<Entry>, k: nat, cutoff: u64)
    requires InTimeOrder(history) && k <= |history|
    ensures Recent(history[|history| - k..], cutoff) == Min(k, Recent(history, cutoff))
  {
    var suffix := history[|history| - k..];
    RecentAreLast(history, cutoff);
    RecentAreLast(suffix, cutoff);
    var n, m := Recent(history, cutoff), Recent(suffix, cutoff);
    assert forall i :: 0 <= i < k ==> suffix[i] == history[|history| - k + i];
    assert m < k ==> suffix[k - m - 1].eventTime < cutoff;
    assert m < n ==> history[|history| - m - 1].eventTime >= cutoff;
    assert m > 0 ==> suffix[k - m].eventTime >= cutoff;
  }

  /** Trades of the history that are recent as of its last trade. */
  function RecentAtEnd(window: u64, history: seq<Entry>): nat
    requires history != []
  {
    Recent(history, Cutoff(window, history[|history| - 1].eventTime))
  }

  lemma KeptAreRecent(history: seq<Entry>, k: nat, cutoff: u64)
    requires InTimeOrder(history) && k <= |history|
    ensures |Evicted(history[|history| - k..], cutoff)| == Min(k, Recent(history, cutoff))
  {
    EvictedKeepsRecent(history[|history| - k..], cutoff);
    RecentInSuffix(history, k, cutoff);
  }

  lemma SlidSize(es: seq<Entry>, window: u64, e: Entry)
    ensures var kept := |Evicted(es, Cutoff(window, e.eventTime))|;
            |Slid(es, window, e)| == if kept == CAPACITY then kept else kept + 1
  {}

  /** The window is full, or holds everything that was recent at its last trade. */
  ghost predicate HoldsRecent(window: u64, history: seq<Entry>, k: nat) {
    k <= |history| && (history != [] ==> k == Min(CAPACITY, RecentAtEnd(window, history)))
  }

  /** One more trade: it is recent itself, and no other trade becomes recent. */
  lemma RecentAtNext(window: u64, history: seq<Entry>, before: seq<Entry>, e: Entry)
    requires InTimeOrder(history) && history == before + [e]
    ensures RecentAtEnd(window, history) == Recent(before, Cutoff(window, e.eventTime)) + 1
    ensures before != [] ==> Recent(before, Cutoff(window, e.eventTime)) <= RecentAtEnd(window, before)
  {
    assert history[..|history| - 1] == before;
    RecentOfLast(history, Cutoff(window, e.eventTime));
    if before != [] {
      var last := before[|before| - 1];
      assert last == history[|before| - 1] && e == history[|before|];
      RecentShrinks(before, Cutoff(window, last.eventTime), Cutoff(window, e.eventTime));
    }
  }

  lemma WindowLengthStep(window: u64, history: seq<Entry>, before: seq<Entry>, e: Entry, k: nat)
    requires InTimeOrder(history) && history == before + [e] && InTimeOrder(before)
    requires HoldsRecent(window, before, k)
    ensures |Slid(before[|before| - k..], window, e)| == Min(CAPACITY, RecentAtEnd(window, history))
  {
    RecentAtNext(window, history, before, e);
    KeptAreRecent(before, k, Cutoff(window, e.eventTime));
    SlidSize(before[|before| - k..], window, e);
  }

  lemma WindowAfterUnfolds(window: u64, history: seq<Entry>, before: seq<Entry>, e: Entry)
    requires history == before + [e]
    ensures WindowAfter(window, history) == Slid(WindowAfter(window, before), window, e)
    ensures 1 <= |WindowAfter(window, history)| <= |history|
  {
    assert history[..|history| - 1] == before;
    WindowIsSuffix(window, history);
  }

  lemma WindowLengthNext(window: u64, history: seq<Entry>, before: seq<Entry>, e: Entry)
    requires InTimeOrder(history) && history == before + [e] && InTimeOrder(before)
    requires HoldsRecent(window, before, |WindowAfter(window, before)|)
    ensures HoldsRecent(window, history, |WindowAfter(window, history)|)
  {
    WindowIsSuffix(window, before);
    var k := |WindowAfter(window, before)|;
    assert WindowAfter(window, before) == before[|before| - k..];
    WindowLengthStep(window, history, before, e, k);
    WindowAfterUnfolds(window, history, before, e);
  }

  lemma PrefixInTimeOrder(history: seq<Entry>)
    requires InTimeOrder(history) && history != []
    ensures InTimeOrder(history[..|history| - 1])
  {
    var before := history[..|history| - 1];
    forall i, j | 0 <= i < j < |before| ensures before[i].eventTime <= before[j].eventTime {
      assert before[i] == history[i] && before[j] == history[j];
    }
  }

  lemma {:induction false} WindowLength(window: u64, history: seq<Entry>)
    requires InTimeOrder(history)
    ensures HoldsRecent(window, history, |WindowAfter(window, history)|)
    decreases |history|
  {
    if history != [] {
      var before, e := history[..|history| - 1], history[|history| - 1];
      PrefixInTimeOrder(history);
      WindowLength(window, before);
      assert history == before + [e];
      WindowLengthNext(window, history, before, e);
    }
  }

  /** With time stamps in order the window is exactly the last trades no older than the cutoff, up
      to the size of the ring. */
  lemma WindowIsRecentTrades(window: u64, history: seq<Entry>)
    requires InTimeOrder(history) && history != []
    ensures WindowAfter(window, history) == history[|history| - Min(CAPACITY, RecentAtEnd(window, history))..]
  {
    WindowLength(window, history);
    WindowIsSuffix(window, history);
  }

  lemma {:induction false} RecentOfLast(history: seq<Entry>, cutoff: u64)
    requires history != [] && history[|history| - 1].eventTime >= cutoff
    ensures Recent(history, cutoff) == Recent(history[..|history| - 1], cutoff) + 1
  {
    if |history| > 1 {
      RecentOfLast(history[1..], cutoff);
      assert history[1..][..|history| - 2] == history[..|history| - 1][1..];
    }
  }

  lemma {:induction false} RecentShrinks(history: seq<Entry>, cutoff: u64, later: u64)
    requires cutoff <= later
    ensures Recent(history, later) <= Recent(history, cutoff)
  {
    if history != [] {
      RecentShrinks(history[1..], cutoff, later);
    }
  }

  // ---- On the trades themselves ----

  function EntriesFor(ts: seq<Trade>): (es: seq<Entry>)
    ensures |es| == |ts|
    ensures forall i :: 0 <= i < |ts| ==> es[i] == EntryFor(ts[i].eventTime, ts[i].isBuyerMaker, ts[i].quantity)
  {
    seq(|ts|, i requires 0 <= i < |ts| => EntryFor(ts[i].eventTime, ts[i].isBuyerMaker, ts[i].quantity))
  }

  /** What buyers took: the quantities of the trades whose maker was not the buyer. */
  function Bought(ts: seq<Trade>): nat {
    if ts == [] then 0 else (if ts[0].isBuyerMaker then 0 else ts[0].quantity) + Bought(ts[1..])
  }

  /** What sellers took: the quantities of the trades whose maker was the buyer. */
  function Sold(ts: seq<Trade>): nat {
    if ts == [] then 0 else (if ts[0].isBuyerMaker then ts[0].quantity else 0) + Sold(ts[1..])
  }

  lemma {:induction false} TotalsOfTrades(ts: seq<Trade>)
    ensures BuyTotal(EntriesFor(ts)) == Bought(ts) && SellTotal(EntriesFor(ts)) == Sold(ts)
  {
    if ts != [] {
      TotalsOfTrades(ts[1..]);
      assert EntriesFor(ts)[1..] == EntriesFor(ts[1..]);
    }
  }

  /** The last trades of a history. */
  function LastTrades(ts: seq<Trade>, k: nat): seq<Trade>
    requires k <= |ts|
  {
    ts[|ts| - k..]
  }

  /** After any history the two volumes are what buyers and sellers took in the trades of the window,
      modulo 2^64; the window holds the newest trades, at most 2048. */
  lemma VolumesOfTrades(window: u64, ts: seq<Trade>)
    ensures var w := WindowAfter(window, EntriesFor(ts));
            && |w| <= |ts| && |w| <= 2048 && (ts != [] ==> w != [])
            && w == EntriesFor(LastTrades(ts, |w|))
            && Wrap64(BuyTotal(w)) == Wrap64(Bought(LastTrades(ts, |w|)))
            && Wrap64(SellTotal(w)) == Wrap64(Sold(LastTrades(ts, |w|)))
  {
    var w := WindowAfter(window, EntriesFor(ts));
    WindowIsSuffix(window, EntriesFor(ts));
    assert w == EntriesFor(LastTrades(ts, |w|));
    TotalsOfTrades(LastTrades(ts, |w|));
  }

  ghost predicate TradesInOrder(ts: seq<Trade>) {
    forall i, j :: 0 <= i < j < |ts| ==> ts[i].eventTime <= ts[j].eventTime
  }

  /** The last `k` trades are within the time window of the newest one, and the one before them is not,
      unless there is none or the ring is full. */
  ghost predicate AreRecent(window: u64, ts: seq<Trade>, k: nat) {
    && 0 < k <= |ts| && k <= 2048
    && (forall i :: |ts| - k <= i < |ts| ==> ts[i].eventTime + window >= ts[|ts| - 1].eventTime)
    && (k == |ts| || k == 2048 || ts[|ts| - k - 1].eventTime + window < ts[|ts| - 1].eventTime)
  }

  /** With time stamps in order the window holds exactly the recent trades. */
  lemma WindowIsRecent(window: u64, ts: seq<Trade>)
    requires TradesInOrder(ts) && ts != []
    ensures AreRecent(window, ts, |WindowAfter(window, EntriesFor(ts))|)
  {
    var es := EntriesFor(ts);
    var cutoff := Cutoff(window, es[|es| - 1].eventTime);
    assert InTimeOrder(es);
    WindowLength(window, es);
    WindowIsSuffix(window, es);
    RecentAreLast(es, cutoff);
    assert forall i :: 0 <= i < |ts| ==> es[i].eventTime == ts[i].eventTime;
  }

  /** One more trade, whatever its time: the oldest entries go while they are too old for it, and one
      more when the ring is full. */
  lemma SlidByTime(es: seq<Entry>, window: u64, e: Entry) returns (j: nat)
    requires |es| <= 2048
    ensures j <= |es| && Slid(es, window, e) == (if j == 0 && |es| == 2048 then es[1..] else es[j..]) + [e]
    ensures forall i :: 0 <= i < j ==> es[i].eventTime + window < e.eventTime
    ensures j < |es| ==> es[j].eventTime + window >= e.eventTime
  {
    j := EvictedByTime(es, window, e.eventTime);
    assert j == 0 ==> es[j..] == es;
  }

  lemma {:induction false} EvictedByTime(es: seq<Entry>, window: u64, time: u64) returns (j: nat)
    ensures j <= |es| && Evicted(es, Cutoff(window, time)) == es[j..]
    ensures forall i :: 0 <= i < j ==> es[i].eventTime + window < time
    ensures j < |es| ==> es[j].eventTime + window >= time
  {
    if es != [] && es[0].eventTime < Cutoff(window, time) {
      var k := EvictedByTime(es[1..], window, time);
      j := k + 1;
      assert es[1..][k..] == es[j..];
      assert forall i :: 1 <= i < |es| ==> es[i] == es[1..][i - 1];
    } else {
      j := 0;
    }
  }
}
