/** Time stamps from feeder to executor: the parts of an order's latency add up to the whole. */
module LatencyPipeline {
  import opened Words
  import opened BookProcessor
  import opened TradeFlowWindow

  /** What the feeder stamps on every record. */
  datatype Stamped = Stamped(read: u64, write: u64)

  datatype StampedTrade = StampedTrade(stamp: Stamped, entry: Entry)

  datatype OrderStamps = OrderStamps(feederRead: u64, feederWrite: u64, traderRead: u64, traderWrite: u64)

  datatype Sample = Sample(total: u64, feeder: u64, mdQueue: u64, trader: u64, orderQueue: u64)

  function MonotonicDelta(end: u64, begin: u64): u64 {
    if begin == 0 || end < begin then 0 else end - begin
  }

  function SampleOf(o: OrderStamps, now: u64): Sample {
    Sample(MonotonicDelta(now, o.feederRead), MonotonicDelta(o.feederWrite, o.feederRead),
           MonotonicDelta(o.traderRead, o.feederWrite), MonotonicDelta(o.traderWrite, o.traderRead),
           MonotonicDelta(now, o.traderWrite))
  }

  predicate Conserved(s: Sample) {
    s.feeder + s.mdQueue + s.trader + s.orderQueue == s.total
  }

  /** Feeder, one trader and the executor, with the rings between them as queues, and the history the
      claims speak about. */
  datatype State = State(
    clock: u64, feederRead: u64, updates: seq<Stamped>, trades: seq<StampedTrade>,
    stamps: Stamps, window: u64, flow: seq<Entry>,
    orders: seq<OrderStamps>, samples: seq<Sample>,
    records: seq<Stamps>,        // stamps of the records the trader has read, and when it did
    written: seq<OrderStamps>,   // orders the trader has written
    seen: seq<Seen>,             // what it had read at each of them, and when that was
    taken: seq<u64>)             // when the executor read each order

  datatype Seen = Seen(records: nat, clock: u64)

  datatype Action =
    | Tick(step: u64)
    | FeederReads
    | FeederWritesUpdate
    | FeederWritesTrade(entry: Entry)
    | TraderReadsUpdate
    | TraderReadsTrade
    | TraderOrders
    | ExecutorReads

  function Initial(clock: u64, window: u64): State {
    State(clock, 0, [], [], Stamps(0, 0, 0), window, [], [], [], [], [], [], [])
  }

  /** The rule makes no order unless one side of the flow leads, whatever the book. */
  predicate FlowLeads(flow: seq<Entry>) {
    Wrap64(BuyTotal(flow)) != Wrap64(SellTotal(flow))
  }

  function ReadAt(r: Stamped, clock: u64): Stamps {
    Stamps(r.read, r.write, clock)
  }

  function Step(s: State, a: Action): State {
    match a
    case Tick(step) => if s.clock + step < U64_LIMIT then s.(clock := s.clock + step) else s
    case FeederReads => s.(feederRead := s.clock)
    case FeederWritesUpdate =>
      if s.feederRead == 0 then s else s.(updates := s.updates + [Stamped(s.feederRead, s.clock)])
    case FeederWritesTrade(e) =>
      if s.feederRead == 0 then s else s.(trades := s.trades + [StampedTrade(Stamped(s.feederRead, s.clock), e)])
    case TraderReadsUpdate =>
      if s.updates == [] then s
      else s.(updates := s.updates[1..], records := s.records + [ReadAt(s.updates[0], s.clock)],
              stamps := StampsAfter(s.stamps, s.updates[0].read, s.updates[0].write, s.clock))
    case TraderReadsTrade =>
      if s.trades == [] then s
      else s.(trades := s.trades[1..], flow := Slid(s.flow, s.window, s.trades[0].entry),
              records := s.records + [ReadAt(s.trades[0].stamp, s.clock)],
              stamps := StampsAfter(s.stamps, s.trades[0].stamp.read, s.trades[0].stamp.write, s.clock))
    case TraderOrders =>
      if !FlowLeads(s.flow) then s
      else
        var o := OrderStamps(s.stamps.feederRead, s.stamps.feederWrite, s.stamps.traderRead, s.clock);
        s.(orders := s.orders + [o], written := s.written + [o], seen := s.seen + [Seen(|s.records|, s.clock)])
    case ExecutorReads =>
      if s.orders == [] then s
      else s.(orders := s.orders[1..], samples := s.samples + [SampleOf(s.orders[0], s.clock)], taken := s.taken + [s.clock])
  }

  function Run(s: State, acts: seq<Action>): State
    decreases |acts|
  {
    if acts == [] then s else Run(Step(s, acts[0]), acts[1..])
  }

  predicate GoodStamp(t: Stamped, clock: u64) {
    0 < t.read <= t.write <= clock
  }

  predicate GoodStamps(t: Stamps, clock: u64) {
    0 < t.feederRead <= t.feederWrite <= t.traderRead <= clock
  }

  predicate GoodOrder(o: OrderStamps, clock: u64) {
    0 < o.feederRead <= o.feederWrite <= o.traderRead <= o.traderWrite <= clock
  }

  const NO_STAMPS := Stamps(0, 0, 0)

  /** The stamps the trader holds after reading the records. */
  ghost predicate HoldsLatest(t: Stamps, records: seq<Stamps>, clock: u64) {
    Latest(NO_STAMPS, records, t) && (records != [] ==> GoodStamps(t, clock))
  }

  /** The `i`-th order carries the latest stamps of the records read before it, and its own time. */
  ghost predicate CarriesLatest(s: State, i: nat)
    requires i < |s.written| == |s.seen|
  {
    var o := s.written[i];
    && 0 < s.seen[i].records <= |s.records| && o.traderWrite == s.seen[i].clock
    && Latest(NO_STAMPS, s.records[..s.seen[i].records], Stamps(o.feederRead, o.feederWrite, o.traderRead))
    && GoodOrder(o, s.clock)
  }

  /** The `i`-th sample measures the `i`-th order: each part is the time between two of its stamps. */
  ghost predicate Measures(s: State, i: nat)
    requires i < |s.samples| == |s.taken| && i < |s.written|
  {
    var o, sample, now := s.written[i], s.samples[i], s.taken[i];
    && o.traderWrite <= now <= s.clock
    && sample.feeder == o.feederWrite - o.feederRead
    && sample.mdQueue == o.traderRead - o.feederWrite
    && sample.trader == o.traderWrite - o.traderRead
    && sample.orderQueue == now - o.traderWrite
    && sample.total == now - o.feederRead
  }

  /** Orders wait in the order they were written, and are measured in that order. */
  ghost predicate OrdersInLine(s: State) {
    && |s.seen| == |s.written| && |s.taken| == |s.samples| <= |s.written|
    && s.orders == s.written[|s.samples|..]
    && (forall i :: 0 <= i < |s.written| ==> CarriesLatest(s, i))
    && (forall i :: 0 <= i < |s.samples| ==> Measures(s, i))
  }

  ghost predicate RecordsInOrder(s: State) {
    && (forall i :: 0 <= i < |s.updates| ==> GoodStamp(s.updates[i], s.clock))
    && (forall i :: 0 <= i < |s.trades| ==> GoodStamp(s.trades[i].stamp, s.clock))
  }

  ghost predicate Inv(s: State) {
    && 0 < s.clock && s.feederRead <= s.clock
    && RecordsInOrder(s)
    && HoldsLatest(s.stamps, s.records, s.clock)
    // no order is possible before the first trade has been read
    && (s.records == [] ==> s.flow == [])
    && OrdersInLine(s)
  }

  lemma LatestNext(t: Stamps, records: seq<Stamps>, r: Stamped, clock: u64)
    requires HoldsLatest(t, records, clock) && GoodStamp(r, clock)
    ensures HoldsLatest(StampsAfter(t, r.read, r.write, clock), records + [ReadAt(r, clock)], clock)
  {
    LatestOfOne(t, r.read, r.write, clock);
    LatestAgain(NO_STAMPS, records, t, [ReadAt(r, clock)], StampsAfter(t, r.read, r.write, clock));
  }

  /** A later clock and more records change nothing for the orders. */
  lemma OrdersStayInLine(s: State, s': State)
    requires OrdersInLine(s) && s.records <= s'.records && s.clock <= s'.clock
    requires s'.orders == s.orders && s'.written == s.written && s'.seen == s.seen
    requires s'.samples == s.samples && s'.taken == s.taken
    ensures OrdersInLine(s')
  {
    forall i | 0 <= i < |s'.written| ensures CarriesLatest(s', i) {
      assert CarriesLatest(s, i);
      assert s'.records[..s.seen[i].records] == s.records[..s.seen[i].records];
    }
    forall i | 0 <= i < |s'.samples| ensures Measures(s', i) {
      assert Measures(s, i);
    }
  }

  lemma OrderNeedsTrade(s: State)
    requires s.flow == []
    ensures Step(s, TraderOrders) == s
  {
    assert BuyTotal(s.flow) == SellTotal(s.flow) == 0;
  }

  lemma OrderKeepsInv(s: State)
    requires Inv(s) && s.records != []
    ensures Inv(Step(s, TraderOrders))
  {
    var s' := Step(s, TraderOrders);
    if FlowLeads(s.flow) {
      var n := |s.written|;
      forall i | 0 <= i < |s'.written| ensures CarriesLatest(s', i) {
        if i < n {
          assert CarriesLatest(s, i);
        } else {
          assert s'.records[..s'.seen[n].records] == s.records;
        }
      }
      forall i | 0 <= i < |s'.samples| ensures Measures(s', i) {
        assert Measures(s, i);
      }
    }
  }

  lemma SampleKeepsInv(s: State)
    requires Inv(s)
    ensures Inv(Step(s, ExecutorReads))
  {
    var s' := Step(s, ExecutorReads);
    if s.orders != [] {
      var n := |s.samples|;
      assert s.orders[0] == s.written[n] && CarriesLatest(s, n);
      forall i | 0 <= i < |s'.written| ensures CarriesLatest(s', i) {
        assert CarriesLatest(s, i);
      }
      forall i | 0 <= i < |s'.samples| ensures Measures(s', i) {
        assert i < n ==> Measures(s, i);
      }
    }
  }

  lemma ReadKeepsInv(s: State, a: Action)
    requires Inv(s) && (a.TraderReadsUpdate? || a.TraderReadsTrade?)
    ensures Inv(Step(s, a))
  {
    OrdersStayInLine(s, Step(s, a));
    if a.TraderReadsUpdate? && s.updates != [] {
      LatestNext(s.stamps, s.records, s.updates[0], s.clock);
    } else if a.TraderReadsTrade? && s.trades != [] {
      LatestNext(s.stamps, s.records, s.trades[0].stamp, s.clock);
    }
  }

  lemma StepKeepsInv(s: State, a: Action)
    requires Inv(s)
    ensures Inv(Step(s, a))
  {
    match a
    case TraderReadsUpdate => ReadKeepsInv(s, a);
    case TraderReadsTrade => ReadKeepsInv(s, a);
    case TraderOrders =>
      if s.records == [] {
        OrderNeedsTrade(s);
      } else {
        OrderKeepsInv(s);
      }
    case ExecutorReads => SampleKeepsInv(s);
    case _ => OrdersStayInLine(s, Step(s, a));
  }

  lemma {:induction false} RunKeepsInv(s: State, acts: seq<Action>)
    requires Inv(s)
    ensures Inv(Run(s, acts))
    decreases |acts|
  {
    if acts != [] {
      StepKeepsInv(s, acts[0]);
      RunKeepsInv(Step(s, acts[0]), acts[1..]);
    }
  }

  lemma InitialSatisfiesInv(clock: u64, window: u64)
    requires clock > 0
    ensures Inv(Initial(clock, window))
  {}

  /** In every run from the start: every order carries the latest stamps over the records that the
      trader had read from both rings, in order; every sample measures one order, in the order they
      were written, by the times between its stamps; and so the feeder, queue, trader and order-queue
      parts of every sample add up to its total, although the maxima are kept separately. */
  lemma EverySampleIsConserved(clock: u64, window: u64, acts: seq<Action>)
    requires clock > 0
    ensures var s := Run(Initial(clock, window), acts);
            && OrdersInLine(s)
            && forall i :: 0 <= i < |s.samples| ==> Conserved(s.samples[i])
  {
    InitialSatisfiesInv(clock, window);
    RunKeepsInv(Initial(clock, window), acts);
    var s := Run(Initial(clock, window), acts);
    forall i | 0 <= i < |s.samples| ensures Conserved(s.samples[i]) {
      assert Measures(s, i);
    }
  }

  /** For ordered stamps the parts add up exactly when the order was stamped by a read record, or
      was taken at the very moment it was written: a missing stamp loses the trader's share. */
  lemma ConservedIffStamped(o: OrderStamps, now: u64)
    requires o.feederRead <= o.feederWrite <= o.traderRead <= o.traderWrite <= now
    ensures Conserved(SampleOf(o, now)) <==>
            o.feederRead > 0 || (
              // without a read stamp the total is zero, so every other part must be
              && (o.feederWrite == 0 || o.feederWrite == o.traderRead)
              && (o.traderRead == 0 || o.traderRead == o.traderWrite)
              && (o.traderWrite == 0 || o.traderWrite == now))
  {}
}
