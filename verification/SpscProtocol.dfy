/** The single-producer single-consumer ring as a step system: one atomic access is one step,
    and copying a slot in or out takes two, so that a copy can be torn. Accesses are
    sequentially consistent. Every interleaving of the two threads is a sequence of actions. */
module SpscProtocol {
  import opened Words
  import opened MaskedIncrement

  /** A slot is torn while its item is being overwritten. */
  datatype Cell<T> = Whole(item: T) | Torn

  /** Where the producer stands inside `Write`. */
  datatype Producer<T> =
    | Idle
    | HeadLoaded(item: T, slot: u32)
    | Disabling(item: T, slot: u32)   // the tail check matched, the store is pending
    | Clear(item: T, slot: u32)       // past the tail check
    | Filling(item: T, slot: u32)     // the slot is being overwritten
    | Filled(item: T, slot: u32)      // the head store is pending

  /** Where the consumer stands inside `Read` or `ResetConsumer`. */
  datatype Consumer<T> =
    | Resting
    | Admitted
    | TailLoaded(tail: u32)
    | MayCopy(slot: u32)
    | Copying(slot: u32, dirty: bool) // dirty: the slot was written since the copy began
    | Copied(slot: u32, data: Cell<T>)
    | HeadTaken(head: u32)
    | TailMoved

  datatype ReadOutcome<T> = Success(data: Cell<T>) | BufferIsEmpty | ConsumerIsDisabled

  /** The shared memory, both program counters, and the history the claims speak about. */
  datatype State<T> = State(
    n: u32, head: u32, tail: u32, active: bool, slots: seq<Cell<T>>,
    producer: Producer<T>, consumer: Consumer<T>,
    log: seq<T>,                    // items of all writes started, in order
    published: nat,                 // writes whose head store is done
    position: nat,                  // number of the last write read or skipped
    resetHead: nat,                 // `published` when the latest reset loaded the head
    base: nat,                      // `position` set by the latest reset
    delivered: seq<Cell<T>>,        // data of the successful reads since then
    outcomes: seq<ReadOutcome<T>>,  // results of all completed reads
    clean: bool,                    // not disabled since a reset that was not lapped
    exact: bool                     // no copy since the latest reset was overtaken
  )

  datatype Action<T> = StartWrite(item: T) | ProducerStep | StartRead | StartReset | ConsumerStep

  predicate WellFormed<T>(s: State<T>) {
    && ValidLength(s.n) && |s.slots| == s.n && s.head < s.n && s.tail < s.n
    && (!s.producer.Idle? ==> s.producer.slot < s.n)
    && (s.consumer.TailLoaded? ==> s.consumer.tail < s.n)
    && (s.consumer.MayCopy? || s.consumer.Copying? || s.consumer.Copied? ==> s.consumer.slot < s.n)
    && (s.consumer.HeadTaken? ==> s.consumer.head < s.n)
  }

  /** The constructed ring; the slots hold default items. */
  function Initial<T>(n: u32, default: T): (s: State<T>)
    requires ValidLength(n)
    ensures WellFormed(s) && s.n == n
  {
    State(n, 0, 0, true, seq(n, _ => Whole(default)), Idle, Resting, [], 0, 0, 0, 0, [], [], true, true)
  }

  function Smudge<T>(c: Consumer<T>, slot: u32): Consumer<T> {
    if c.Copying? && c.slot == slot then c.(dirty := true) else c
  }

  /** Writes that have begun to overwrite their slot. */
  function Begun<T>(s: State<T>): nat {
    if s.producer.Filling? || s.producer.Filled? then s.published + 1 else s.published
  }

  function StepProducer<T>(s: State<T>): (s': State<T>)
    requires WellFormed(s)
    ensures WellFormed(s') && s'.n == s.n
  {
    match s.producer
    case Idle => s
    case HeadLoaded(item, slot) =>
      s.(producer := if slot == s.tail then Disabling(item, slot) else Clear(item, slot))
    case Disabling(item, slot) =>
      s.(active := false, producer := Clear(item, slot), clean := false)
    case Clear(item, slot) =>
      s.(slots := s.slots[slot := Torn], producer := Filling(item, slot), consumer := Smudge(s.consumer, slot))
    case Filling(item, slot) =>
      s.(slots := s.slots[slot := Whole(item)], producer := Filled(item, slot), consumer := Smudge(s.consumer, slot))
    case Filled(item, slot) =>
      s.(head := slot, producer := Idle, published := s.published + 1)
  }

  function StepConsumer<T>(s: State<T>): (s': State<T>)
    requires WellFormed(s)
    ensures WellFormed(s') && s'.n == s.n
  {
    match s.consumer
    case Resting => s
    case Admitted => s.(consumer := TailLoaded(s.tail))
    case TailLoaded(tail) =>
      if tail == s.head then s.(consumer := Resting, outcomes := s.outcomes + [BufferIsEmpty])
      else s.(consumer := MayCopy(Increment(s.n, tail)))
    case MayCopy(slot) => s.(consumer := Copying(slot, s.slots[slot].Torn?))
    case Copying(slot, dirty) =>
      s.(consumer := Copied(slot, if dirty then Torn else s.slots[slot]),
         exact := s.exact && Begun(s) <= s.position + s.n)
    case Copied(slot, data) =>
      s.(tail := slot, consumer := Resting, position := s.position + 1,
         delivered := s.delivered + [data], outcomes := s.outcomes + [Success(data)])
    case HeadTaken(head) =>
      s.(tail := head, consumer := TailMoved, position := s.resetHead, base := s.resetHead,
         delivered := [], exact := true)
    case TailMoved =>
      s.(active := true, consumer := Resting, clean := LagBounded(s))
  }

  /** One step of one thread; an action the thread is not ready for changes nothing. */
  function Step<T>(s: State<T>, a: Action<T>): (s': State<T>)
    requires WellFormed(s)
    ensures WellFormed(s') && s'.n == s.n
  {
    match a
    case StartWrite(item) =>
      if s.producer.Idle?
      then s.(producer := HeadLoaded(item, Increment(s.n, s.head)), log := s.log + [item])
      else s
    case ProducerStep => StepProducer(s)
    case StartRead =>
      if !s.consumer.Resting? then s
      else if s.active then s.(consumer := Admitted)
      else s.(outcomes := s.outcomes + [ConsumerIsDisabled])
    case StartReset =>
      if s.consumer.Resting? then s.(consumer := HeadTaken(s.head), resetHead := s.published, clean := false)
      else s
    case ConsumerStep => StepConsumer(s)
  }

  function Run<T>(s: State<T>, acts: seq<Action<T>>): (s': State<T>)
    requires WellFormed(s)
    ensures WellFormed(s') && s'.n == s.n
    decreases |acts|
  {
    if acts == [] then s else Run(Step(s, acts[0]), acts[1..])
  }

  // ---- What every step keeps ----

  ghost predicate Holds<T>(s: State<T>, w: nat)
    requires WellFormed(s)
  {
    1 <= w <= |s.log| && s.slots[SlotOf(s.n, w)] == Whole(s.log[w - 1])
  }

  ghost predicate ProducerInv<T>(s: State<T>)
    requires WellFormed(s)
  {
    && s.head == SlotOf(s.n, s.published)
    && |s.log| == s.published + (if s.producer.Idle? then 0 else 1)
    && (!s.producer.Idle? ==> s.producer.slot == SlotOf(s.n, s.published + 1) && s.producer.item == s.log[s.published])
    // the last lap of published writes is in the slots, except for the slot being overwritten
    && (forall w: nat {:trigger Holds(s, w)} :: 1 <= w <= s.published && Begun(s) < w + s.n ==> Holds(s, w))
    && (s.producer.Filling? ==> s.slots[s.producer.slot] == Torn)
    && (s.producer.Filled? ==> Holds(s, s.published + 1))
  }

  ghost predicate ConsumerInv<T>(s: State<T>)
    requires WellFormed(s)
  {
    && s.base <= s.position <= s.published <= |s.log|
    && s.tail == SlotOf(s.n, s.position)
    && match s.consumer
       case Resting => true
       case Admitted => true
       case TailLoaded(tail) => tail == s.tail
       case MayCopy(slot) => slot == SlotOf(s.n, s.position + 1) && s.position < s.published
       case Copying(slot, dirty) =>
         slot == SlotOf(s.n, s.position + 1) && s.position < s.published &&
         (Begun(s) <= s.position + s.n ==> !dirty)
       case Copied(slot, data) =>
         slot == SlotOf(s.n, s.position + 1) && s.position < s.published &&
         (s.exact ==> data == Whole(s.log[s.position]))
       case HeadTaken(head) => head == SlotOf(s.n, s.resetHead) && s.position <= s.resetHead <= s.published
       case TailMoved => s.position == s.base == s.resetHead && s.exact
  }

  ghost predicate DeliveryInv<T>(s: State<T>)
    requires s.position <= |s.log|
  {
    && s.base + |s.delivered| == s.position
    && (s.exact ==> forall i :: 0 <= i < |s.delivered| ==> s.delivered[i] == Whole(s.log[s.base + i]))
  }

  /** Writes past their tail check are at most one lap minus one slot ahead of the reads. */
  predicate LagBounded<T>(s: State<T>) {
    var ahead := s.published - s.position;
    match s.producer
    case Idle => ahead <= s.n - 1
    case HeadLoaded(_, _) => ahead <= s.n - 1
    case Disabling(_, _) => ahead <= s.n - 1
    case _ => ahead + 1 <= s.n - 1
  }

  ghost predicate CleanInv<T>(s: State<T>) {
    s.clean ==> s.active && s.exact && LagBounded(s) && !s.consumer.HeadTaken? && !s.consumer.TailMoved?
  }

  ghost predicate Inv<T>(s: State<T>) {
    WellFormed(s) && ProducerInv(s) && ConsumerInv(s) && DeliveryInv(s) && CleanInv(s)
  }

  lemma InitialInv<T>(n: u32, default: T)
    requires ValidLength(n)
    ensures Inv(Initial(n, default))
  {
    var s := Initial(n, default);
    assert SlotOf(n, 0) == 0;
  }

  lemma StartWriteInv<T>(s: State<T>, item: T)
    requires Inv(s)
    ensures Inv(Step(s, StartWrite(item)))
  {
    if s.producer.Idle? {
      var s' := Step(s, StartWrite(item));
      NextSlot(s.n, s.published);
      forall w: nat | 1 <= w <= s.published && Begun(s) < w + s.n ensures Holds(s', w) {
        assert Holds(s, w);
      }
    }
  }

  /** A write that passes the tail check leaves room for itself. */
  lemma TailCheckLag<T>(s: State<T>)
    requires Inv(s) && s.producer.HeadLoaded?
    ensures CleanInv(StepProducer(s))
  {
    if s.clean {
      SlotsAgree(s.n, s.position, s.published + 1);
    }
  }

  lemma TailCheckSlots<T>(s: State<T>)
    requires WellFormed(s) && ProducerInv(s) && s.producer.HeadLoaded?
    ensures ProducerInv(StepProducer(s))
  {
    var s' := StepProducer(s);
    forall w: nat | 1 <= w <= s.published && Begun(s) < w + s.n ensures Holds(s', w) {
      assert Holds(s, w);
    }
  }

  lemma TailCheckInv<T>(s: State<T>)
    requires Inv(s) && s.producer.HeadLoaded?
    ensures Inv(StepProducer(s))
  {
    TailCheckLag(s);
    TailCheckSlots(s);
    assert Begun(StepProducer(s)) == Begun(s);
  }

  /** Overwriting the next slot leaves the rest of the lap in place. */
  lemma OverwriteKeepsLap<T>(s: State<T>, w: nat)
    requires WellFormed(s) && ProducerInv(s) && (s.producer.Clear? || s.producer.Filling?)
    requires 1 <= w <= s.published < w + s.n - 1
    ensures Holds(StepProducer(s), w)
  {
    assert Holds(s, w);
    SlotsDiffer(s.n, w, s.published + 1);
  }

  lemma OverwriteKeepsSlots<T>(s: State<T>)
    requires WellFormed(s) && ProducerInv(s) && (s.producer.Clear? || s.producer.Filling?)
    ensures ProducerInv(StepProducer(s))
  {
    var s' := StepProducer(s);
    assert Begun(s') == s.published + 1 && s'.published == s.published;
    forall w: nat | 1 <= w <= s'.published && Begun(s') < w + s'.n ensures Holds(s', w) {
      OverwriteKeepsLap(s, w);
    }
  }

  lemma OverwriteInv<T>(s: State<T>)
    requires Inv(s) && (s.producer.Clear? || s.producer.Filling?)
    ensures Inv(StepProducer(s))
  {
    var s' := StepProducer(s);
    OverwriteKeepsSlots(s);
    if s'.consumer.Copying? && Begun(s') <= s.position + s.n {
      if s.position + 1 < s.published + 1 {
        SlotsDiffer(s.n, s.position + 1, s.published + 1);
      }
    }
  }

  lemma PublishInv<T>(s: State<T>)
    requires Inv(s) && (s.producer.Filled? || s.producer.Disabling?)
    ensures Inv(StepProducer(s))
  {
    var s' := StepProducer(s);
    forall w: nat | 1 <= w <= s'.published && Begun(s') < w + s.n ensures Holds(s', w) {
      assert Holds(s, w);
    }
  }

  lemma SlotsUntouched<T>(s: State<T>, s': State<T>)
    requires WellFormed(s) && WellFormed(s') && ProducerInv(s)
    requires s'.(consumer := s.consumer, tail := s.tail, position := s.position, delivered := s.delivered,
                 outcomes := s.outcomes, exact := s.exact, base := s.base, active := s.active,
                 clean := s.clean, resetHead := s.resetHead) == s
    ensures ProducerInv(s')
  {
    forall w: nat | 1 <= w <= s'.published && Begun(s') < w + s.n ensures Holds(s', w) {
      assert Holds(s, w);
    }
  }

  lemma LoadTailInv<T>(s: State<T>)
    requires Inv(s) && (s.consumer.Resting? || s.consumer.Admitted?)
    ensures Inv(StepConsumer(s))
  {
    SlotsUntouched(s, StepConsumer(s));
  }

  /** A read advances to the oldest unread write. */
  lemma AdvanceInv<T>(s: State<T>)
    requires Inv(s) && s.consumer.TailLoaded?
    ensures Inv(StepConsumer(s))
  {
    SlotsUntouched(s, StepConsumer(s));
    NextSlot(s.n, s.position);
    assert s.tail != s.head ==> s.position < s.published;
    assert ConsumerInv(StepConsumer(s));
  }

  lemma StartCopyInv<T>(s: State<T>)
    requires Inv(s) && s.consumer.MayCopy?
    ensures Inv(StepConsumer(s))
  {
    var s' := StepConsumer(s);
    SlotsUntouched(s, s');
    if Begun(s) <= s.position + s.n {
      assert Holds(s, s.position + 1);
      assert !s.slots[s.consumer.slot].Torn?;
    }
    assert ConsumerInv(s');
  }

  lemma EndCopyInv<T>(s: State<T>)
    requires Inv(s) && s.consumer.Copying?
    ensures Inv(StepConsumer(s))
  {
    SlotsUntouched(s, StepConsumer(s));
    if Begun(s) <= s.position + s.n {
      assert Holds(s, s.position + 1);
    }
  }

  lemma FinishReadInv<T>(s: State<T>)
    requires Inv(s) && s.consumer.Copied?
    ensures Inv(StepConsumer(s))
  {
    SlotsUntouched(s, StepConsumer(s));
  }

  lemma ResetInv<T>(s: State<T>)
    requires Inv(s) && (s.consumer.HeadTaken? || s.consumer.TailMoved?)
    ensures Inv(StepConsumer(s))
  {
    SlotsUntouched(s, StepConsumer(s));
  }

  lemma StartConsumerInv<T>(s: State<T>, a: Action<T>)
    requires Inv(s) && (a.StartRead? || a.StartReset?)
    ensures Inv(Step(s, a))
  {
    SlotsUntouched(s, Step(s, a));
  }

  /** Every step of either thread, from every state that satisfies it, keeps the invariant. */
  lemma StepInv<T>(s: State<T>, a: Action<T>)
    requires Inv(s)
    ensures Inv(Step(s, a))
  {
    match a
    case StartWrite(item) => StartWriteInv(s, item);
    case ProducerStep =>
      match s.producer {
        case Idle =>
        case HeadLoaded(_, _) => TailCheckInv(s);
        case Disabling(_, _) => PublishInv(s);
        case Clear(_, _) => OverwriteInv(s);
        case Filling(_, _) => OverwriteInv(s);
        case Filled(_, _) => PublishInv(s);
      }
    case StartRead => StartConsumerInv(s, a);
    case StartReset => StartConsumerInv(s, a);
    case ConsumerStep =>
      if s.consumer.HeadTaken? || s.consumer.TailMoved? {
        ResetInv(s);
      } else if s.consumer.MayCopy? {
        StartCopyInv(s);
      } else if s.consumer.Copying? {
        EndCopyInv(s);
      } else if s.consumer.Copied? {
        FinishReadInv(s);
      } else if s.consumer.TailLoaded? {
        AdvanceInv(s);
      } else {
        LoadTailInv(s);
      }
  }

  lemma {:induction false} RunInv<T>(s: State<T>, acts: seq<Action<T>>)
    requires Inv(s)
    ensures Inv(Run(s, acts))
    decreases |acts|
  {
    if acts != [] {
      StepInv(s, acts[0]);
      RunInv(Step(s, acts[0]), acts[1..]);
    }
  }

  // ---- Safety over whole runs ----

  /** In every interleaving: while the consumer has not been disabled since an unlapped reset, the
      lag is bounded, the slot being written is never the slot being copied, and the successful
      reads are exactly the writes that follow the reset: in order, none lost, repeated or torn. */
  lemma EveryRunIsSafe<T>(n: u32, default: T, acts: seq<Action<T>>)
    requires ValidLength(n)
    ensures var s := Run(Initial(n, default), acts);
            && s.base <= s.position <= s.published <= |s.log| <= s.published + 1
            && |s.delivered| == s.position - s.base
            && (s.exact ==> forall i :: 0 <= i < |s.delivered| ==> s.delivered[i] == Whole(s.log[s.base + i]))
            && (s.clean ==> s.active && s.exact && LagBounded(s) && s.published - s.position <= n - 1)
            && (s.clean && s.producer.Filling? && s.consumer.Copying? ==> s.producer.slot != s.consumer.slot)
  {
    InitialInv(n, default);
    RunInv(Initial(n, default), acts);
    var s := Run(Initial(n, default), acts);
    if s.clean && s.producer.Filling? && s.consumer.Copying? {
      SlotsDiffer(n, s.position + 1, s.published + 1);
    }
  }

  /** A consumer is disabled by a write exactly when the ring was full at its tail check. */
  lemma DisabledExactlyWhenFull<T>(s: State<T>)
    requires Inv(s) && s.clean && s.producer.HeadLoaded?
    ensures StepProducer(s).producer.Disabling? <==> s.published - s.position == s.n - 1
  {
    SlotsAgree(s.n, s.position, s.published + 1);
  }

  /** A read in flight survives the disabling write: the copy holds the oldest unread item, disabled
      or not, as long as no write more than one lap ahead has begun; once one has, it does not. */
  lemma GraceOfOneWrite<T>(s: State<T>)
    requires Inv(s) && s.consumer.Copying?
    ensures var data := StepConsumer(s).consumer.data;
            && (Begun(s) <= s.position + s.n ==> data == Whole(s.log[s.position]))
            && (Distinct(s.log) && Begun(s) > s.position + s.n ==> data != Whole(s.log[s.position]))
  {
    if Begun(s) <= s.position + s.n {
      assert Holds(s, s.position + 1);
    } else if !s.consumer.dirty {
      var w := LatestInSlot(s.n, s.position + 1, Begun(s));
      if w <= s.published {
        assert Begun(s) < w + s.n;
        assert Holds(s, w);
      }
    }
  }

  predicate MidRead<T>(c: Consumer<T>) {
    c.Admitted? || c.TailLoaded? || c.MayCopy? || c.Copying? || c.Copied?
  }

  predicate NoReset<T>(acts: seq<Action<T>>) {
    forall i :: 0 <= i < |acts| ==> !acts[i].StartReset?
  }

  predicate Resetting<T>(c: Consumer<T>) {
    c.HeadTaken? || c.TailMoved?
  }

  /** The producer leaves what the consumer has alone. */
  lemma ProducerEffects<T>(s: State<T>)
    requires WellFormed(s)
    ensures var s' := StepProducer(s);
            && s'.tail == s.tail && s'.position == s.position && s'.base == s.base && s'.resetHead == s.resetHead
            && s'.delivered == s.delivered && s'.outcomes == s.outcomes && s'.log == s.log && s'.exact == s.exact
            && (s.consumer == s'.consumer || (s.consumer.Copying? && s'.consumer == s.consumer.(dirty := true)))
  {
    match s.producer
    case Idle =>
    case HeadLoaded(_, _) =>
    case Disabling(_, _) =>
    case Clear(_, _) =>
    case Filling(_, _) =>
    case Filled(_, _) =>
  }

  lemma ProducerProgress<T>(s: State<T>)
    requires WellFormed(s)
    ensures var s' := StepProducer(s);
            && (s.active == s'.active || (s.producer.Disabling? && !s'.active && !s'.clean))
            && (s'.clean ==> s.clean)
            && (s.producer.Idle? || StepsLeft(s'.producer) < StepsLeft(s.producer))
  {}

  lemma DisabledConsumerStep<T>(s: State<T>)
    requires WellFormed(s) && !s.active && !Resetting(s.consumer)
    ensures var s' := StepConsumer(s);
            && !s'.active && !Resetting(s'.consumer)
            && ((s'.outcomes == s.outcomes && MidRead(s'.consumer) == MidRead(s.consumer))
                || (!MidRead(s'.consumer) && MidRead(s.consumer)
                    && |s'.outcomes| == |s.outcomes| + 1 && s.outcomes <= s'.outcomes))
  {}

  lemma DisabledStep<T>(s: State<T>, a: Action<T>)
    requires WellFormed(s) && !s.active && !a.StartReset? && !Resetting(s.consumer)
    ensures var s' := Step(s, a);
            && !s'.active && !Resetting(s'.consumer)
            && ((s'.outcomes == s.outcomes && MidRead(s'.consumer) == MidRead(s.consumer))
                || (!MidRead(s'.consumer) && |s'.outcomes| == |s.outcomes| + 1 && s.outcomes <= s'.outcomes
                    && (s'.outcomes[|s.outcomes|] == ConsumerIsDisabled || MidRead(s.consumer))))
  {
    if a.ProducerStep? {
      ProducerEffects(s);
      ProducerProgress(s);
    } else if a.ConsumerStep? {
      DisabledConsumerStep(s);
    }
  }

  /** Once the consumer is disabled, every read that starts later reports it, until a reset. Only
      the read that had already passed the check may still complete otherwise. */
  lemma {:induction false} DisabledUntilReset<T>(s: State<T>, acts: seq<Action<T>>)
    requires WellFormed(s) && !s.active && NoReset(acts) && !Resetting(s.consumer)
    ensures var s' := Run(s, acts);
            && !s'.active
            && s.outcomes <= s'.outcomes
            && forall i :: |s.outcomes| <= i < |s'.outcomes| ==>
                 s'.outcomes[i] == ConsumerIsDisabled || (i == |s.outcomes| && MidRead(s.consumer))
    decreases |acts|
  {
    if acts != [] {
      DisabledStep(s, acts[0]);
      DisabledUntilReset(Step(s, acts[0]), acts[1..]);
    }
  }

  /** A completed reset is clean when fewer writes than the length of the ring were started beyond
      the head it loaded, writes already in flight included. */
  lemma ResetIsClean<T>(s: State<T>)
    requires Inv(s) && s.consumer.TailMoved?
    ensures var s' := StepConsumer(s);
            && Inv(s') && s'.active && s'.consumer == Resting && s'.base == s'.position == s.resetHead
            && (s'.clean <==> LagBounded(s'))
            && (|s.log| - s.resetHead <= s.n - 1 ==> s'.clean)
  {
    ResetInv(s);
  }

  lemma CleanOrDisabledStep<T>(s: State<T>, a: Action<T>)
    requires Inv(s) && (s.clean || !s.active) && !a.StartReset? && !Resetting(s.consumer)
    ensures var s' := Step(s, a);
            && (s'.clean || !s'.active) && !Resetting(s'.consumer) && s'.base == s.base
            && s.delivered <= s'.delivered && s.log <= s'.log
  {
    if a.ConsumerStep? {
      ReadingKeepsClean(s);
    } else if a.ProducerStep? {
      ProducerEffects(s);
      ProducerProgress(s);
      StepInv(s, a);
    }
  }

  lemma ReadingKeepsClean<T>(s: State<T>)
    requires WellFormed(s) && !Resetting(s.consumer)
    ensures var s' := StepConsumer(s);
            && s'.clean == s.clean && s'.active == s.active && !Resetting(s'.consumer) && s'.base == s.base
            && s.delivered <= s'.delivered && s.log == s'.log
  {}

  /** The first `k` cells are the items of the log from `base` on. */
  ghost predicate FollowLog<T>(cells: seq<Cell<T>>, log: seq<T>, base: nat, k: nat) {
    && k <= |cells| && base + k <= |log|
    && forall i :: 0 <= i < k ==> cells[i] == Whole(log[base + i])
  }

  /** The first `k` items delivered since the latest reset are the writes that follow it. */
  ghost predicate FirstDelivered<T>(s: State<T>, k: nat) {
    FollowLog(s.delivered, s.log, s.base, k)
  }

  /** The deliveries that are certain: all of them, except one that the disable has overtaken. */
  function Certain<T>(s: State<T>): nat {
    if s.active || MidRead(s.consumer) || s.delivered == [] then |s.delivered| else |s.delivered| - 1
  }

  lemma CertainStep<T>(s: State<T>, a: Action<T>)
    requires Inv(s) && (s.clean || !s.active) && !a.StartReset? && !Resetting(s.consumer)
    requires FirstDelivered(s, Certain(s))
    ensures FirstDelivered(Step(s, a), Certain(Step(s, a)))
  {
    StepInv(s, a);
    CleanOrDisabledStep(s, a);
  }

  /** After a clean reset only items newer than the head it loaded are delivered, in order. A
      disable store that an earlier write left pending can end the clean period, and then the
      consumer is disabled; of all items delivered, before and after, only the last can be wrong,
      and only by the read that was in flight when the consumer was disabled. */
  lemma {:induction false} AfterCleanReset<T>(s: State<T>, acts: seq<Action<T>>)
    requires Inv(s) && (s.clean || !s.active) && NoReset(acts) && !Resetting(s.consumer)
    requires FirstDelivered(s, Certain(s))
    ensures var s' := Run(s, acts);
            && Inv(s') && !Resetting(s'.consumer)
            && s'.base == s.base
            && (s'.clean || !s'.active)
            && s.delivered <= s'.delivered && s.log <= s'.log
            && FirstDelivered(s', Certain(s')) && Certain(s') >= |s'.delivered| - 1
    decreases |acts|
  {
    if acts != [] {
      StepInv(s, acts[0]);
      CleanOrDisabledStep(s, acts[0]);
      CertainStep(s, acts[0]);
      AfterCleanReset(Step(s, acts[0]), acts[1..]);
    }
  }

  // ---- What the consumer sees ----

  /** The data of the successful reads. */
  function Successes<T>(os: seq<ReadOutcome<T>>): seq<Cell<T>> {
    if os == [] then [] else (if os[0].Success? then [os[0].data] else []) + Successes(os[1..])
  }

  lemma SuccessesOfOne<T>(o: ReadOutcome<T>)
    ensures Successes([o]) == if o.Success? then [o.data] else []
  {}

  /** The outcomes that one step adds, none or one. */
  function NewOutcomes<T>(s: State<T>, a: Action<T>): seq<ReadOutcome<T>>
    requires WellFormed(s)
  {
    match a
    case StartRead => if s.consumer.Resting? && !s.active then [ConsumerIsDisabled] else []
    case ConsumerStep =>
      if s.consumer.TailLoaded? && s.consumer.tail == s.head then [BufferIsEmpty]
      else if s.consumer.Copied? then [Success(s.consumer.data)]
      else []
    case _ => []
  }

  lemma OutcomesStep<T>(s: State<T>, a: Action<T>)
    requires WellFormed(s) && !a.StartReset? && !Resetting(s.consumer)
    ensures Step(s, a).outcomes == s.outcomes + NewOutcomes(s, a)
    ensures Step(s, a).delivered == s.delivered + Successes(NewOutcomes(s, a))
    ensures s.active ==> ConsumerIsDisabled !in NewOutcomes(s, a)
    ensures !Resetting(Step(s, a).consumer)
  {
    var os := NewOutcomes(s, a);
    if os != [] {
      SuccessesOfOne(os[0]);
    }
    if a.ProducerStep? {
      ProducerEffects(s);
      assert s.outcomes + [] == s.outcomes && s.delivered + [] == s.delivered;
    }
  }

  lemma {:induction false} SuccessesAppend<T>(xs: seq<ReadOutcome<T>>, ys: seq<ReadOutcome<T>>)
    ensures Successes(xs + ys) == Successes(xs) + Successes(ys)
  {
    if xs == [] {
      assert xs + ys == ys;
    } else {
      var head := if xs[0].Success? then [xs[0].data] else [];
      assert (xs + ys)[1..] == xs[1..] + ys;
      SuccessesAppend(xs[1..], ys);
      assert head + (Successes(xs[1..]) + Successes(ys)) == (head + Successes(xs[1..])) + Successes(ys);
    }
  }

  /** Between resets the successful outcomes are the deliveries, and a consumer that is active at
      the end has never been told that it was disabled. */
  lemma {:induction false} OutcomesAreDeliveries<T>(s: State<T>, acts: seq<Action<T>>) returns (os: seq<ReadOutcome<T>>)
    requires WellFormed(s) && NoReset(acts) && !Resetting(s.consumer)
    ensures Run(s, acts).outcomes == s.outcomes + os
    ensures Run(s, acts).delivered == s.delivered + Successes(os)
    ensures Run(s, acts).active ==> ConsumerIsDisabled !in os
    decreases |acts|
  {
    if acts == [] {
      os := [];
    } else {
      var mid := Step(s, acts[0]);
      OutcomesStep(s, acts[0]);
      var rest := OutcomesAreDeliveries(mid, acts[1..]);
      var first, last := NewOutcomes(s, acts[0]), Run(mid, acts[1..]);
      os := first + rest;
      SuccessesAppend(first, rest);
      Regrouped(s.outcomes, first, rest, last.outcomes);
      Regrouped(s.delivered, Successes(first), Successes(rest), last.delivered);
      if last.active && !s.active {
        DisabledUntilReset(s, acts);
      }
    }
  }

  /** Right after a clean reset, or before the first read. */
  ghost predicate JustClean<T>(s: State<T>) {
    Inv(s) && s.clean && s.consumer.Resting? && s.delivered == []
  }

  /** A run from a clean reset without another one; the consumer may be disabled on the way. */
  ghost predicate RunFromReset<T>(s: State<T>, acts: seq<Action<T>>)
    decreases |acts|
  {
    && WellFormed(s)
    && if acts == [] then JustClean(s)
       else !acts[|acts| - 1].StartReset? && RunFromReset(s, acts[..|acts| - 1])
  }

  lemma {:induction false} RunFromResetMeans<T>(s: State<T>, acts: seq<Action<T>>)
    ensures RunFromReset(s, acts) <==> JustClean(s) && NoReset(acts)
    decreases |acts|
  {
    if acts != [] {
      var before := acts[..|acts| - 1];
      RunFromResetMeans(s, before);
      assert NoReset(acts) <==> NoReset(before) && !acts[|acts| - 1].StartReset? by {
        assert forall i :: 0 <= i < |before| ==> acts[i] == before[i];
      }
    }
  }

  /** The successful reads of such a run are the writes that follow the reset, up to the last one. */
  lemma ReadsAfterReset<T>(s: State<T>, acts: seq<Action<T>>) returns (os: seq<ReadOutcome<T>>, k: nat)
    requires RunFromReset(s, acts)
    ensures Run(s, acts).outcomes == s.outcomes + os && k == Certain(Run(s, acts))
    ensures FollowLog(Successes(os), Run(s, acts).log, s.base, k)
    ensures |Successes(os)| - 1 <= k && (Run(s, acts).active ==> k == |Successes(os)| && ConsumerIsDisabled !in os)
  {
    RunFromResetMeans(s, acts);
    AfterCleanReset(s, acts);
    os := OutcomesAreDeliveries(s, acts);
    k := Certain(Run(s, acts));
    assert [] + Successes(os) == Successes(os);
  }

  lemma Regrouped<U>(a: seq<U>, x: seq<U>, y: seq<U>, all: seq<U>)
    requires all == (a + x) + y
    ensures all == a + (x + y)
  {}

  // ---- What one read reports, and that it ends ----

  /** At the three points where a read of a clean ring can end: it is let in; it finds the ring empty
      exactly when every published write has been read; and what it has copied is the oldest unread
      write, which it reports and then counts as read. */
  lemma ReadReports<T>(s: State<T>)
    requires Inv(s) && s.clean
    ensures s.consumer.Resting? ==> Step(s, StartRead) == s.(consumer := Admitted)
    ensures s.consumer.TailLoaded? ==>
              var s' := Step(s, ConsumerStep);
              if s.position == s.published then s' == s.(consumer := Resting, outcomes := s.outcomes + [BufferIsEmpty])
              else s' == s.(consumer := MayCopy(SlotOf(s.n, s.position + 1)))
    ensures s.consumer.Copied? ==>
              var s' := Step(s, ConsumerStep);
              && s'.consumer.Resting? && s'.position == s.position + 1 && s.position < |s.log|
              && s'.outcomes == s.outcomes + [Success(Whole(s.log[s.position]))]
  {
    if s.consumer.TailLoaded? {
      NextSlot(s.n, s.position);
      SlotsAgree(s.n, s.position, s.published);
    }
  }

  function Count<T>(acts: seq<Action<T>>, consumer: bool): nat {
    if acts == [] then 0
    else (if (if consumer then acts[0].ConsumerStep? else acts[0].ProducerStep?) then 1 else 0) + Count(acts[1..], consumer)
  }

  lemma ReadAdvances<T>(s: State<T>, a: Action<T>)
    requires WellFormed(s) && MidRead(s.consumer)
    ensures var s' := Step(s, a);
            if !a.ConsumerStep? then
              s'.outcomes == s.outcomes && MidRead(s'.consumer) && ReadStepsLeft(s'.consumer) == ReadStepsLeft(s.consumer)
            else if MidRead(s'.consumer) then
              s'.outcomes == s.outcomes && ReadStepsLeft(s'.consumer) < ReadStepsLeft(s.consumer)
            else |s'.outcomes| > |s.outcomes|
  {
    if a.ProducerStep? {
      ProducerEffects(s);
    }
  }

  lemma {:induction false} OutcomesStay<T>(s: State<T>, acts: seq<Action<T>>)
    requires WellFormed(s)
    ensures |Run(s, acts).outcomes| >= |s.outcomes|
    decreases |acts|
  {
    if acts != [] {
      if acts[0].ProducerStep? {
        ProducerEffects(s);
      }
      OutcomesStay(Step(s, acts[0]), acts[1..]);
    }
  }

  /** Reads are wait-free: whatever the producer does, a read reports after at most five more of the
      consumer's own steps. */
  lemma {:induction false} ReadsAreWaitFree<T>(s: State<T>, acts: seq<Action<T>>)
    requires WellFormed(s) && MidRead(s.consumer) && Count(acts, true) >= ReadStepsLeft(s.consumer)
    ensures ReadStepsLeft(s.consumer) <= 5 && |Run(s, acts).outcomes| > |s.outcomes|
    decreases |acts|
  {
    var s' := Step(s, acts[0]);
    ReadAdvances(s, acts[0]);
    if MidRead(s'.consumer) {
      ReadsAreWaitFree(s', acts[1..]);
    } else {
      OutcomesStay(s', acts[1..]);
    }
  }

  lemma WriteAdvances<T>(s: State<T>, a: Action<T>)
    requires WellFormed(s) && !s.producer.Idle?
    ensures var s' := Step(s, a);
            if !a.ProducerStep? then
              s'.published == s.published && s'.producer == s.producer
            else if s'.producer.Idle? then s'.published == s.published + 1
            else s'.published == s.published && StepsLeft(s'.producer) < StepsLeft(s.producer)
  {
    if a.ProducerStep? {
      ProducerProgress(s);
    }
  }

  lemma NeverUnpublished<T>(s: State<T>, a: Action<T>)
    requires WellFormed(s)
    ensures Step(s, a).published >= s.published
  {
    if !s.producer.Idle? {
      WriteAdvances(s, a);
    }
  }

  lemma {:induction false} PublishedStays<T>(s: State<T>, acts: seq<Action<T>>)
    requires WellFormed(s)
    ensures Run(s, acts).published >= s.published
    decreases |acts|
  {
    if acts != [] {
      NeverUnpublished(s, acts[0]);
      PublishedStays(Step(s, acts[0]), acts[1..]);
    }
  }

  /** Writes are wait-free: whatever the consumer does, a write is published after at most five more
      of the producer's own steps. */
  lemma {:induction false} WritesAreWaitFree<T>(s: State<T>, acts: seq<Action<T>>)
    requires WellFormed(s) && !s.producer.Idle? && Count(acts, false) >= StepsLeft(s.producer)
    ensures StepsLeft(s.producer) <= 5 && Run(s, acts).published > s.published
    decreases |acts|
  {
    var s' := Step(s, acts[0]);
    WriteAdvances(s, acts[0]);
    if s'.producer.Idle? {
      PublishedStays(s', acts[1..]);
    } else {
      WritesAreWaitFree(s', acts[1..]);
    }
  }

  // ---- The bound on a reset is tight ----

  lemma {:induction false} RunAppend<T>(s: State<T>, xs: seq<Action<T>>, ys: seq<Action<T>>)
    requires WellFormed(s)
    ensures Run(s, xs + ys) == Run(Run(s, xs), ys)
    decreases |xs|
  {
    if xs == [] {
      assert xs + ys == ys;
    } else {
      assert (xs + ys)[1..] == xs[1..] + ys;
      RunAppend(Step(s, xs[0]), xs[1..], ys);
    }
  }

  function WritesStarted<T>(acts: seq<Action<T>>): nat {
    if acts == [] then 0 else (if acts[0].StartWrite? then 1 else 0) + WritesStarted(acts[1..])
  }

  lemma {:induction false} WritesStartedAppend<T>(xs: seq<Action<T>>, ys: seq<Action<T>>)
    ensures WritesStarted(xs + ys) == WritesStarted(xs) + WritesStarted(ys)
  {
    if xs == [] {
      assert xs + ys == ys;
    } else {
      assert (xs + ys)[1..] == xs[1..] + ys;
      WritesStartedAppend(xs[1..], ys);
    }
  }

  /** The consumer is unaffected while the producer finishes the write it is in. */
  ghost predicate WriteDone(s: State<int>, s': State<int>) {
    && Inv(s') && s'.n == s.n && s'.producer.Idle? && s'.published == s.published + 1
    && s'.log == s.log && s'.tail == s.tail && s'.position == s.position && s'.resetHead == s.resetHead
    && s'.consumer == s.consumer && s'.outcomes == s.outcomes
    && s'.delivered == s.delivered && s'.base == s.base
  }

  lemma RunCons<T>(s: State<T>, a: Action<T>, rest: seq<Action<T>>)
    requires WellFormed(s)
    ensures Run(s, [a] + rest) == Run(Step(s, a), rest)
  {
    assert ([a] + rest)[1..] == rest;
  }

  function StepsLeft<T>(p: Producer<T>): nat {
    match p
    case Idle => 0
    case HeadLoaded(_, _) => 5
    case Disabling(_, _) => 4
    case Clear(_, _) => 3
    case Filling(_, _) => 2
    case Filled(_, _) => 1
  }

  lemma WriteProgress(s: State<int>)
    requires Inv(s) && !s.producer.Idle? && !s.consumer.Copying?
    ensures var s' := Step(s, ProducerStep);
            && Inv(s') && StepsLeft(s'.producer) < StepsLeft(s.producer)
            && s'.log == s.log && s'.tail == s.tail && s'.position == s.position && s'.resetHead == s.resetHead
            && s'.consumer == s.consumer && s'.outcomes == s.outcomes && s'.n == s.n
            && s'.delivered == s.delivered && s'.base == s.base
            && s'.published == s.published + (if s'.producer.Idle? then 1 else 0)
            && (Undisturbed(s) ==> s'.active == s.active && (s'.producer.Idle? || Undisturbed(s')))
  {
    StepInv(s, ProducerStep);
    ProducerEffects(s);
    ProducerProgress(s);
  }

  /** The write in progress will not disable the consumer. */
  predicate Undisturbed<T>(s: State<T>) {
    !s.producer.Disabling? && (s.producer.HeadLoaded? ==> s.producer.slot != s.tail)
  }

  lemma {:induction false} FinishWrite(s: State<int>) returns (acts: seq<Action<int>>)
    requires Inv(s) && !s.producer.Idle? && !s.consumer.Copying?
    ensures NoReset(acts) && WritesStarted(acts) == 0 && WriteDone(s, Run(s, acts))
    ensures Undisturbed(s) ==> Run(s, acts).active == s.active
    decreases StepsLeft(s.producer)
  {
    WriteProgress(s);
    var s' := Step(s, ProducerStep);
    if s'.producer.Idle? {
      acts := [ProducerStep];
      RunCons(s, ProducerStep, []);
      assert [ProducerStep] + [] == acts;
      assert Run(s, acts) == s';
    } else {
      var rest := FinishWrite(s');
      acts := [ProducerStep] + rest;
      RunCons(s, ProducerStep, rest);
      WritesStartedAppend([ProducerStep], rest);
    }
  }

  lemma CompleteWrite(s: State<int>, x: int) returns (acts: seq<Action<int>>)
    requires Inv(s) && s.producer.Idle? && !s.consumer.Copying?
    ensures NoReset(acts) && WritesStarted(acts) == 1
    ensures var s' := Run(s, acts);
            && WriteDone(s.(log := s.log + [x]), s')
            && (SlotOf(s.n, s.published + 1) != s.tail ==> s'.active == s.active)
  {
    var a := StartWrite(x);
    WriteStarted(s, x);
    var rest := FinishWrite(Step(s, a));
    acts := [a] + rest;
    RunCons(s, a, rest);
    WritesStartedAppend([a], rest);
  }

  lemma WriteStarted(s: State<int>, x: int)
    requires Inv(s) && s.producer.Idle? && !s.consumer.Copying?
    ensures var s' := Step(s, StartWrite(x));
            && Inv(s') && s' == s.(producer := s'.producer, log := s.log + [x])
            && s'.producer == HeadLoaded(x, SlotOf(s.n, s.published + 1))
  {
    StepInv(s, StartWrite(x));
    NextSlot(s.n, s.published);
  }

  lemma {:induction false} WriteBurst(s: State<int>, k: nat) returns (acts: seq<Action<int>>)
    requires Inv(s) && s.producer.Idle? && !s.consumer.Copying?
    requires forall i :: 0 <= i < |s.log| ==> s.log[i] == i
    ensures NoReset(acts) && WritesStarted(acts) == k
    ensures var s' := Run(s, acts);
            && Inv(s') && s'.n == s.n && s'.producer.Idle? && s'.published == s.published + k
            && |s'.log| == |s.log| + k && (forall i :: 0 <= i < |s'.log| ==> s'.log[i] == i)
            && s'.tail == s.tail && s'.position == s.position && s'.resetHead == s.resetHead
            && s'.consumer == s.consumer && s'.outcomes == s.outcomes && s'.delivered == s.delivered
    decreases k
  {
    if k == 0 {
      acts := [];
    } else {
      var one := CompleteWrite(s, |s.log|);
      var rest := WriteBurst(Run(s, one), k - 1);
      acts := one + rest;
      RunAppend(s, one, rest);
      WritesStartedAppend(one, rest);
    }
  }

  /** The item a read copies when the producer stands still. */
  function NextCell(s: State<int>): Cell<int>
    requires WellFormed(s)
  {
    s.slots[Increment(s.n, s.tail)]
  }

  /** A read has delivered the item after the tail; the producer has not moved. */
  ghost predicate Delivers(s: State<int>, s': State<int>)
    requires WellFormed(s)
  {
    && s'.outcomes == s.outcomes + [Success(NextCell(s))] && s'.delivered == s.delivered + [NextCell(s)]
    && s'.base == s.base && s'.log == s.log && s'.active == s.active
  }

  function ReadStepsLeft<T>(c: Consumer<T>): nat {
    match c
    case Admitted => 5
    case TailLoaded(_) => 4
    case MayCopy(_) => 3
    case Copying(_, _) => 2
    case Copied(_, _) => 1
    case _ => 0
  }

  lemma {:induction false} FinishRead(s: State<int>) returns (acts: seq<Action<int>>)
    requires WellFormed(s) && MidRead(s.consumer) && s.tail != s.head && NextCell(s).Whole?
    requires s.consumer.TailLoaded? ==> s.consumer.tail == s.tail
    requires s.consumer.MayCopy? || s.consumer.Copying? || s.consumer.Copied? ==> s.consumer.slot == Increment(s.n, s.tail)
    requires s.consumer.Copying? ==> !s.consumer.dirty
    requires s.consumer.Copied? ==> s.consumer.data == NextCell(s)
    ensures NoReset(acts) && Delivers(s, Run(s, acts))
    decreases ReadStepsLeft(s.consumer)
  {
    if s.consumer.Copied? {
      acts := [ConsumerStep];
      assert Run(s, acts) == Step(s, ConsumerStep);
    } else {
      var rest := FinishRead(Step(s, ConsumerStep));
      acts := [ConsumerStep] + rest;
      RunCons(s, ConsumerStep, rest);
    }
  }

  lemma ReadOldest(s: State<int>) returns (acts: seq<Action<int>>)
    requires WellFormed(s) && s.active && s.consumer.Resting? && s.tail != s.head && NextCell(s).Whole?
    ensures NoReset(acts) && Delivers(s, Run(s, acts))
  {
    var rest := FinishRead(Step(s, StartRead));
    acts := [StartRead] + rest;
    RunCons(s, StartRead, rest);
  }

  // ---- Exactly when a reset is safe ----

  ghost predicate InOrder<T>(s: State<T>) {
    && s.base + |s.delivered| <= |s.log|
    && forall i :: 0 <= i < |s.delivered| ==> s.delivered[i] == Whole(s.log[s.base + i])
  }

  /** Without another reset no run delivers a wrong item to a consumer that is still active. */
  ghost predicate NoSilentLoss(s: State<int>)
    requires WellFormed(s)
  {
    forall acts: seq<Action<int>> {:trigger Run(s, acts)} :: NoReset(acts) && Run(s, acts).active ==> InOrder(Run(s, acts))
  }

  /** The disable store is pending and, until it lands, the ring looks empty. */
  predicate DisableAwaits<T>(s: State<T>) {
    s.producer.Disabling? && s.head == s.tail
  }

  /** The consumer has read nothing since the reset and will not before it is disabled. */
  ghost predicate Quiet(s: State<int>) {
    !Resetting(s.consumer) && (s.active ==>
      && s.delivered == [] && s.base <= |s.log|
      && !s.consumer.MayCopy? && !s.consumer.Copying? && !s.consumer.Copied?
      && (s.n == 1 || (DisableAwaits(s) && (s.consumer.TailLoaded? ==> s.consumer.tail == s.tail))))
  }

  lemma QuietStep(s: State<int>, a: Action<int>)
    requires WellFormed(s) && Quiet(s) && !a.StartReset?
    ensures Quiet(Step(s, a))
  {
    if !s.active {
      DisabledStep(s, a);
    } else if a.ConsumerStep? {
      assert s.consumer.TailLoaded? ==> s.consumer.tail == s.head;
    }
  }

  lemma {:induction false} QuietRun(s: State<int>, acts: seq<Action<int>>)
    requires WellFormed(s) && Quiet(s) && NoReset(acts)
    ensures Quiet(Run(s, acts))
    decreases |acts|
  {
    if acts != [] {
      QuietStep(s, acts[0]);
      QuietRun(Step(s, acts[0]), acts[1..]);
    }
  }

  /** The last write up to `b` that uses the slot of write `a`. */
  lemma {:induction false} LatestInSlot(n: u32, a: nat, b: nat) returns (w: nat)
    requires n != 0 && a <= b
    ensures a <= w <= b < w + n && SlotOf(n, w) == SlotOf(n, a)
    decreases b - a
  {
    if b < a + n {
      w := a;
    } else {
      SlotRepeats(n, a);
      w := LatestInSlot(n, a + n, b);
    }
  }

  /** No two writes carry the same item, so that a lost one shows. */
  predicate Distinct<T(==)>(log: seq<T>) {
    forall i, j :: 0 <= i < j < |log| ==> log[i] != log[j]
  }

  function FreshItem(log: seq<int>): (x: int)
    ensures forall i :: 0 <= i < |log| ==> log[i] < x
  {
    if log == [] then 0 else Max(FreshItem(log[..|log| - 1]), log[|log| - 1] + 1)
  }

  /** Before any read after a reset. */
  ghost predicate JustReset(s: State<int>) {
    && Inv(s) && s.n >= 2 && s.active && s.consumer == Resting
    && s.delivered == [] && s.base == s.position && Distinct(s.log)
  }

  /** The producer is more than a lap ahead and not writing: the next read is wrong. */
  lemma ReadAfterLap(s: State<int>) returns (acts: seq<Action<int>>)
    requires JustReset(s) && (s.producer.Idle? || s.producer.HeadLoaded? || s.producer.Disabling?)
    requires s.published - s.position >= s.n && s.tail != s.head
    ensures NoReset(acts) && Run(s, acts).active && !InOrder(Run(s, acts))
  {
    var w := NextCellAfterLap(s);
    acts := ReadOldest(s);
    assert Run(s, acts).delivered == [Whole(s.log[w - 1])];
    assert Run(s, acts).delivered[0] != Whole(s.log[s.base]);
  }

  /** The slot after the tail then holds a later write than the next one. */
  lemma NextCellAfterLap(s: State<int>) returns (w: nat)
    requires Inv(s) && (s.producer.Idle? || s.producer.HeadLoaded? || s.producer.Disabling?)
    requires s.published - s.position >= s.n && s.tail != s.head
    ensures s.position + 1 < w <= |s.log| && NextCell(s) == Whole(s.log[w - 1])
  {
    w := LatestInSlot(s.n, s.position + 1, s.published);
    NextSlot(s.n, s.position);
    assert Holds(s, w);
    SlotRepeats(s.n, s.position);
  }

  lemma IdleAfterLap(s: State<int>) returns (acts: seq<Action<int>>)
    requires JustReset(s) && s.producer.Idle? && s.published - s.position >= s.n
    ensures NoReset(acts) && Run(s, acts).active && !InOrder(Run(s, acts))
  {
    if s.tail != s.head {
      acts := ReadAfterLap(s);
    } else {
      SlotsDiffer(s.n, s.published, s.published + 1);
      var write := CompleteWrite(s, FreshItem(s.log));
      var read := ReadAfterLap(Run(s, write));
      acts := write + read;
      RunAppend(s, write, read);
    }
  }

  lemma FinishAfterLap(s: State<int>) returns (acts: seq<Action<int>>)
    requires JustReset(s) && !s.producer.Idle? && Undisturbed(s) && s.published + 1 - s.position >= s.n
    ensures NoReset(acts) && Run(s, acts).active && !InOrder(Run(s, acts))
  {
    var finish := FinishWrite(s);
    var rest := IdleAfterLap(Run(s, finish));
    acts := finish + rest;
    RunAppend(s, finish, rest);
  }

  lemma UncaughtLoses(s: State<int>) returns (acts: seq<Action<int>>)
    requires JustReset(s) && !LagBounded(s) && !DisableAwaits(s)
    ensures NoReset(acts) && Run(s, acts).active && !InOrder(Run(s, acts))
  {
    match s.producer
    case Idle => acts := IdleAfterLap(s);
    case HeadLoaded(_, _) =>
      if s.tail != s.head {
        acts := ReadAfterLap(s);
      } else {
        SlotsDiffer(s.n, s.published, s.published + 1);
        acts := FinishAfterLap(s);
      }
    case Disabling(_, _) => acts := ReadAfterLap(s);
    case _ => acts := FinishAfterLap(s);
  }

  lemma CaughtKeeps(s: State<int>)
    requires Inv(s) && s.active && s.consumer == Resting && s.delivered == []
    requires s.clean || s.n == 1 || DisableAwaits(s)
    ensures NoSilentLoss(s)
  {
    forall acts: seq<Action<int>> | NoReset(acts) && Run(s, acts).active ensures InOrder(Run(s, acts)) {
      if s.clean {
        AfterCleanReset(s, acts);
      } else {
        QuietRun(s, acts);
      }
    }
  }

  /** A reset that ends now can never lose an item unnoticed exactly when the writes past their tail
      check are less than a lap ahead of the head it loaded, or the producer stands before the store
      that disables the consumer and the ring looks empty. (A ring of one slot delivers nothing.) */
  lemma ResetSafeExactly(s: State<int>)
    requires Inv(s) && s.consumer.TailMoved?
    ensures s.n == 1 || LagBounded(s) || DisableAwaits(s) ==> NoSilentLoss(StepConsumer(s))
    ensures Distinct(s.log) && NoSilentLoss(StepConsumer(s)) ==> s.n == 1 || LagBounded(s) || DisableAwaits(s)
  {
    var s' := StepConsumer(s);
    ResetIsClean(s);
    if s.n == 1 || LagBounded(s) || DisableAwaits(s) {
      CaughtKeeps(s');
    } else if Distinct(s.log) {
      var acts := UncaughtLoses(s');
    }
  }

  /** One write more than `ResetIsClean` allows loses items without notice, for every length: with
      a write in flight when the reset loads the head, `n - 1` further writes during the reset put
      the producer a whole lap ahead. The disable store is undone by the reset, and after one more
      write the consumer, still active, delivers write `n + 1` where write 1 was next. */
  lemma ResetOvertaken(n: u32) returns (during: seq<Action<int>>, after: seq<Action<int>>)
    requires ValidLength(n) && n >= 2
    ensures WritesStarted(during) == n - 1
    ensures var s := Run(Initial(n, 0), [StartWrite(0), StartReset] + during + [ConsumerStep, ConsumerStep]);
            && s.active && s.consumer == Resting && s.position == 0 && s.outcomes == []
            && |s.log| == n && s.log[0] == 0
            && Run(s, after).outcomes == [Success(Whole(n))]
  {
    var s2, first := InFlightAtReset(n);
    var s4: State<int>;
    during, s4 := FillDuringReset(s2);
    var s6 := FinishReset(s4);
    RunAppend(Initial(n, 0), first, during);
    RunAppend(Initial(n, 0), first + during, [ConsumerStep, ConsumerStep]);
    after := ReadPastTheLap(s6);
  }

  lemma InFlightAtReset(n: u32) returns (s: State<int>, acts: seq<Action<int>>)
    requires ValidLength(n) && n >= 2
    ensures acts == [StartWrite(0), StartReset] && s == Run(Initial(n, 0), acts)
    ensures Inv(s) && s.n == n && s.producer.HeadLoaded? && s.log == [0] && s.published == 0 && s.position == 0
    ensures s.tail == 0 && s.consumer == HeadTaken(0) && s.resetHead == 0 && s.outcomes == [] && s.active
  {
    var s0 := Initial(n, 0);
    InitialInv(n, 0);
    var s1 := Step(s0, StartWrite(0));
    StepInv(s0, StartWrite(0));
    s := Step(s1, StartReset);
    StepInv(s1, StartReset);
    acts := [StartWrite(0)] + [StartReset];
    RunCons(s0, StartWrite(0), [StartReset]);
    RunCons(s1, StartReset, []);
  }

  lemma FinishReset(s: State<int>) returns (s': State<int>)
    requires Inv(s) && s.consumer.HeadTaken?
    ensures s' == Run(s, [ConsumerStep, ConsumerStep]) && Inv(s')
    ensures s'.active && s'.consumer == Resting && s'.position == s.resetHead
    ensures s'.n == s.n && s'.producer == s.producer && s'.log == s.log && s'.published == s.published
    ensures s'.outcomes == s.outcomes
  {
    var mid := Step(s, ConsumerStep);
    StepInv(s, ConsumerStep);
    s' := Step(mid, ConsumerStep);
    StepInv(mid, ConsumerStep);
    var one: seq<Action<int>> := [ConsumerStep];
    assert [ConsumerStep, ConsumerStep] == one + one;
    RunCons(s, ConsumerStep, one);
    assert one == [ConsumerStep] + [];
    RunCons(mid, ConsumerStep, []);
  }

  lemma FillDuringReset(s: State<int>) returns (acts: seq<Action<int>>, s': State<int>)
    requires Inv(s) && s.n >= 2 && s.producer.HeadLoaded? && s.log == [0] && s.consumer == HeadTaken(0)
    ensures WritesStarted(acts) == s.n - 1 && s' == Run(s, acts)
    ensures Inv(s') && s'.n == s.n && s'.producer.Idle? && s'.published == |s'.log| == s.n
    ensures s'.position == s.position && s'.resetHead == s.resetHead && s'.tail == s.tail
    ensures s'.consumer == s.consumer && s'.outcomes == s.outcomes
    ensures forall i :: 0 <= i < |s'.log| ==> s'.log[i] == i
  {
    var finish := FinishWrite(s);
    var mid := Run(s, finish);
    var burst := WriteBurst(mid, s.n - 1);
    acts := finish + burst;
    s' := Run(s, acts);
    WritesStartedAppend(finish, burst);
    RunAppend(s, finish, burst);
  }

  lemma ReadPastTheLap(s: State<int>) returns (acts: seq<Action<int>>)
    requires Inv(s) && s.n >= 2 && s.active && s.consumer == Resting && s.producer.Idle?
    requires s.position == 0 && s.published == |s.log| == s.n
    ensures Run(s, acts).outcomes == s.outcomes + [Success(Whole(s.n))]
  {
    var write := CompleteWrite(s, |s.log|);
    var s' := Run(s, write);
    LapHidesOldest(s');
    var read := ReadOldest(s');
    acts := write + read;
    RunAppend(s, write, read);
  }

  /** A whole lap and one write ahead, the slot after the tail holds the newest write. */
  lemma LapHidesOldest(s: State<int>)
    requires Inv(s) && s.n >= 2 && s.producer.Idle? && s.position == 0 && s.published == |s.log| == s.n as int + 1
    ensures s.tail != s.head && NextCell(s) == Whole(s.log[s.n])
  {
    var n := s.n;
    SlotsDiffer(n, 0, 1);
    SlotRepeats(n, 1);
    assert Holds(s, n as int + 1);
    NextSlot(n, 0);
  }

  // ---- A torn delivery ----

  lemma RunTwo<T>(s: State<T>, a: Action<T>, b: Action<T>)
    requires WellFormed(s)
    ensures Run(s, [a, b]) == Step(Step(s, a), b)
  {
    assert [a, b] == [a] + [b] && [b] == [b] + [];
    RunCons(s, a, [b]);
    RunCons(Step(s, a), b, []);
  }

  lemma RunThree<T>(s: State<T>, a: Action<T>, b: Action<T>, c: Action<T>)
    requires WellFormed(s)
    ensures Run(s, [a, b, c]) == Step(Step(Step(s, a), b), c)
    ensures WritesStarted([b, c]) == WritesStarted([b]) + WritesStarted([c])
  {
    assert [a, b, c] == [a] + [b, c] && [b, c] == [b] + [c];
    RunCons(s, a, [b, c]);
    RunTwo(Step(s, a), b, c);
    WritesStartedAppend([b], [c]);
  }

  /** A read up to the point where it is about to copy. */
  lemma StartReading(s: State<int>) returns (acts: seq<Action<int>>)
    requires Inv(s) && s.active && s.consumer.Resting? && s.tail != s.head
    ensures NoReset(acts) && WritesStarted(acts) == 0
    ensures Inv(Run(s, acts)) && Run(s, acts) == s.(consumer := MayCopy(Increment(s.n, s.tail)))
  {
    acts := [StartRead, ConsumerStep, ConsumerStep];
    RunThree(s, StartRead, ConsumerStep, ConsumerStep);
    RunInv(s, acts);
    assert acts[1..] == [ConsumerStep, ConsumerStep] && acts[1..][1..] == [ConsumerStep] && acts[1..][1..][1..] == [];
  }

  /** A write up to the point where it is overwriting its slot. */
  lemma StartFilling(s: State<int>, x: int) returns (acts: seq<Action<int>>)
    requires Inv(s) && s.producer.Idle? && !s.consumer.Copying? && SlotOf(s.n, s.published + 1) != s.tail
    ensures NoReset(acts) && WritesStarted(acts) == 1
    ensures var s' := Run(s, acts);
            && Inv(s') && s'.slots[SlotOf(s.n, s.published + 1)] == Torn
            && s'.n == s.n && s'.consumer == s.consumer && s'.outcomes == s.outcomes && s'.delivered == s.delivered
  {
    acts := [StartWrite(x), ProducerStep, ProducerStep];
    WriteStarted(s, x);
    RunThree(s, StartWrite(x), ProducerStep, ProducerStep);
    RunInv(s, acts);
    assert acts[1..] == [ProducerStep, ProducerStep] && acts[1..][1..] == [ProducerStep] && acts[1..][1..][1..] == [];
  }

  /** The copy of a slot that is being overwritten, and its delivery. */
  lemma CopyTorn(s: State<int>) returns (acts: seq<Action<int>>)
    requires WellFormed(s) && s.consumer.MayCopy? && s.slots[s.consumer.slot] == Torn
    ensures NoReset(acts) && WritesStarted(acts) == 0
    ensures Run(s, acts).outcomes == s.outcomes + [Success(Torn)] && Run(s, acts).delivered == s.delivered + [Torn]
  {
    acts := [ConsumerStep, ConsumerStep, ConsumerStep];
    RunThree(s, ConsumerStep, ConsumerStep, ConsumerStep);
    assert acts[1..] == [ConsumerStep, ConsumerStep] && acts[1..][1..] == [ConsumerStep] && acts[1..][1..][1..] == [];
  }

  /** One item is written and a read of it is about to copy. */
  lemma ReaderAtFirstItem(n: u32) returns (acts: seq<Action<int>>, s: State<int>)
    requires ValidLength(n) && n >= 2
    ensures NoReset(acts) && WritesStarted(acts) == 1 && s == Run(Initial(n, 0), acts)
    ensures Inv(s) && s.n == n && s.producer.Idle? && s.published == 1 && s.log == [0]
    ensures s.tail == 0 && s.consumer == MayCopy(SlotOf(n, 1)) && s.outcomes == [] && s.delivered == []
  {
    var s0 := Initial(n, 0);
    InitialInv(n, 0);
    SlotsDiffer(n, 0, 1);
    NextSlot(n, 0);
    assert SlotOf(n, 0) == 0;
    var one := CompleteWrite(s0, 0);
    var reading := StartReading(Run(s0, one));
    acts := one + reading;
    s := Run(s0, acts);
    JoinRuns(s0, one, reading);
  }

  /** From there the producer laps the reader and stops half way through the slot. */
  lemma LapTheReader(s: State<int>) returns (acts: seq<Action<int>>)
    requires Inv(s) && s.n >= 2 && s.producer.Idle? && s.published == 1 && s.log == [0]
    requires s.tail == 0 && s.consumer == MayCopy(SlotOf(s.n, 1))
    ensures NoReset(acts) && WritesStarted(acts) == s.n
    ensures var s' := Run(s, acts);
            && WellFormed(s') && s'.consumer == s.consumer && s'.slots[SlotOf(s.n, 1)] == Torn
            && s'.outcomes == s.outcomes && s'.delivered == s.delivered
  {
    var n := s.n;
    SlotRepeats(n, 1);
    SlotsDiffer(n, 0, 1);
    assert SlotOf(n, 0) == 0;
    var lap := WriteBurst(s, n - 1);
    var filling := StartFilling(Run(s, lap), n);
    acts := lap + filling;
    JoinRuns(s, lap, filling);
  }

  /** The grace of one write is all a read in flight has, for every length: it passes the active check
      with one item unread, the producer laps it, disabling the consumer on the way, and the copy
      meets the slot half overwritten. The read reports success. */
  lemma TornDelivery(n: u32) returns (acts: seq<Action<int>>)
    requires ValidLength(n) && n >= 2
    ensures NoReset(acts) && WritesStarted(acts) == n + 1
    ensures var s := Run(Initial(n, 0), acts);
            s.outcomes == [Success(Torn)] && s.delivered == [Torn] && !s.active
  {
    var s0 := Initial(n, 0);
    InitialInv(n, 0);
    var reading, s := ReaderAtFirstItem(n);
    var lap := LapTheReader(s);
    var copy := CopyTorn(Run(s, lap));
    acts := reading + (lap + copy);
    JoinRuns(s, lap, copy);
    JoinRuns(s0, reading, lap + copy);
    TornMeansDisabled(s0, acts);
  }

  lemma JoinRuns<T>(s: State<T>, xs: seq<Action<T>>, ys: seq<Action<T>>)
    requires WellFormed(s) && NoReset(xs) && NoReset(ys)
    ensures Run(s, xs + ys) == Run(Run(s, xs), ys) && NoReset(xs + ys)
    ensures WritesStarted(xs + ys) == WritesStarted(xs) + WritesStarted(ys)
  {
    RunAppend(s, xs, ys);
    WritesStartedAppend(xs, ys);
  }

  lemma TornMeansDisabled(s: State<int>, acts: seq<Action<int>>)
    requires Inv(s) && s.clean && s.consumer.Resting? && s.delivered == [] && NoReset(acts)
    requires Run(s, acts).delivered == [Torn]
    ensures !Run(s, acts).active
  {
    AfterCleanReset(s, acts);
    FirstIsWhole(Run(s, acts));
  }

  lemma FirstIsWhole(s: State<int>)
    requires FirstDelivered(s, Certain(s)) && s.delivered != []
    ensures s.active ==> s.delivered[0] == Whole(s.log[s.base])
  {}
}
