/** The event bridge as a state machine: one producer thread, one consumer thread,
    a ring of 256 slots and an eventfd counter. Every atomic load or store, every word
    of a slot copy and every eventfd call is one step of its own, so a run of actions
    is an interleaving of the two threads.
 */
module EventRing {
  const CAPACITY: nat := 256
  const WORD: nat := 0x1_0000_0000
  // An eventfd counter holds at most 2^64 - 2; a write that would exceed it fails with EAGAIN.
  const COUNTER_MAX: nat := 0xFFFF_FFFF_FFFF_FFFE
  // subsystem, event type, timestamp and the four data words
  const EVENT_WORDS: nat := 7

  type HardwareEvent = e: seq<int> | |e| == EVENT_WORDS witness [0, 0, 0, 0, 0, 0, 0]

  function Increment(x: nat): (r: nat)
    ensures r < WORD
  {
    (x + 1) % WORD
  }

  /** Unsigned 32-bit subtraction. */
  function Distance(tail: nat, head: nat): (r: nat)
    requires tail < WORD && head < WORD
    ensures r < WORD
  {
    (tail - head) % WORD
  }

  /** Where the producer stands inside eventfd_bridge_post_event. */
  datatype Producer =
    | Idle
    | Begun(event: HardwareEvent)
    | TailLoaded(event: HardwareEvent, tail: nat)
    | HeadLoaded(event: HardwareEvent, tail: nat, head: nat)
    | Filling(event: HardwareEvent, tail: nat, words: nat)
    | Notifying(event: HardwareEvent)

  /** One activation of eventfd_bridge_dispatch_pending on the consumer's stack. */
  datatype Frame =
    | Entered
    | Draining
    | HeadSeen(head: nat)
    | BothSeen(head: nat, tail: nat)
    | Taking(head: nat, words: seq<int>)
    | Handing(event: HardwareEvent)
    | Calling

  /** Shared memory, both threads' registers, and the history the properties speak of:
      `published` by a tail store, `popped` by a head store, `delivered` to the callback,
      `accepted` by a post that returned true. */
  datatype State = State(
    slots: seq<HardwareEvent>,
    head: nat,
    tail: nat,
    counter: nat,
    producer: Producer,
    frames: seq<Frame>,
    published: seq<HardwareEvent>,
    popped: nat,
    delivered: seq<HardwareEvent>,
    accepted: seq<HardwareEvent>,
    hardErrors: nat,
    signalLost: bool)

  /** `Produce(true)` is an eventfd write that fails with an error other than EAGAIN;
      away from that write the flag means nothing. `Dispatch` enters the dispatcher,
      from the main loop or from inside a running callback. */
  datatype Action = Post(event: HardwareEvent) | Produce(hardError: bool) | Dispatch | Consume

  function Init(slots: seq<HardwareEvent>): State
  {
    State(slots, 0, 0, 0, Idle, [], [], 0, [], [], 0, false)
  }

  function Step(s: State, a: Action): State
    requires WellFormed(s)
  {
    match a
    case Post(e) => if s.producer.Idle? then s.(producer := Begun(e)) else s
    case Produce(hardError) => ProducerStep(s, hardError)
    case Dispatch => if s.frames == [] || Top(s).Calling? then s.(frames := s.frames + [Entered]) else s
    case Consume => if s.frames == [] then s else ConsumerStep(s)
  }

  function Run(s: State, actions: seq<Action>): (r: State)
    requires WellFormed(s)
    ensures WellFormed(r)
    decreases |actions|
  {
    if actions == [] then s
    else
      var last := |actions| - 1;
      var before := Run(s, actions[..last]);
      StepWellFormed(before, actions[last]);
      Step(before, actions[last])
  }

  function ProducerStep(s: State, hardError: bool): State
    requires WellFormed(s)
  {
    match s.producer
    case Idle => s
    case Begun(e) => s.(producer := TailLoaded(e, s.tail))
    case TailLoaded(e, t) => s.(producer := HeadLoaded(e, t, s.head))
    case HeadLoaded(e, t, h) =>
      s.(producer := if Distance(t, h) >= CAPACITY then Idle else Filling(e, t, 0))
    case Filling(e, t, k) =>
      if k < EVENT_WORDS then
        var i := t % CAPACITY;
        s.(slots := s.slots[i := s.slots[i][k := e[k]]], producer := Filling(e, t, k + 1))
      else
        s.(tail := Increment(t), published := s.published + [e], producer := Notifying(e))
    case Notifying(e) =>
      if hardError then
        s.(hardErrors := s.hardErrors + 1, signalLost := true, producer := Idle)
      else
        s.(counter := if s.counter < COUNTER_MAX then s.counter + 1 else s.counter,
           accepted := s.accepted + [e], signalLost := false, producer := Idle)
  }

  function Top(s: State): Frame
    requires s.frames != []
  {
    s.frames[|s.frames| - 1]
  }

  function SetTop(frames: seq<Frame>, f: Frame): (r: seq<Frame>)
    requires frames != []
  {
    frames[|frames| - 1 := f]
  }

  function ConsumerStep(s: State): State
    requires WellFormed(s) && s.frames != []
  {
    match Top(s)
    case Entered =>
      if s.counter == 0 then s.(frames := s.frames[..|s.frames| - 1])
      else s.(counter := 0, frames := SetTop(s.frames, Draining))
    case Draining => s.(frames := SetTop(s.frames, HeadSeen(s.head)))
    case HeadSeen(h) => s.(frames := SetTop(s.frames, BothSeen(h, s.tail)))
    case BothSeen(h, t) =>
      if h == t then s.(frames := s.frames[..|s.frames| - 1])
      else s.(frames := SetTop(s.frames, Taking(h, [])))
    case Taking(h, w) =>
      if |w| < EVENT_WORDS then
        s.(frames := SetTop(s.frames, Taking(h, w + [s.slots[h % CAPACITY][|w|]])))
      else
        s.(head := Increment(h), popped := s.popped + 1, frames := SetTop(s.frames, Handing(w)))
    case Handing(e) => s.(delivered := s.delivered + [e], frames := SetTop(s.frames, Calling))
    case Calling => s.(frames := SetTop(s.frames, Draining))
  }

  /** The shapes the steps need: register ranges, and that only the newest frame moves. */
  predicate WellFormed(s: State)
  {
    && |s.slots| == CAPACITY
    && s.head < WORD && s.tail < WORD && s.counter <= COUNTER_MAX
    && (match s.producer
        case TailLoaded(_, t) => t < WORD
        case HeadLoaded(_, t, h) => t < WORD && h < WORD
        case Filling(_, t, k) => t < WORD && k <= EVENT_WORDS
        case _ => true)
    && (forall i :: 0 <= i < |s.frames| - 1 ==> s.frames[i] == Calling)
    && (s.frames != [] ==>
          match Top(s)
          case HeadSeen(h) => h < WORD
          case BothSeen(h, t) => h < WORD && t < WORD
          case Taking(h, w) => h < WORD && |w| <= EVENT_WORDS
          case _ => true)
  }

  lemma ProducerWellFormed(s: State, hardError: bool)
    requires WellFormed(s)
    ensures WellFormed(ProducerStep(s, hardError))
  {
  }

  /** Every consumer step replaces the top frame or takes it away. */
  lemma FramesWellFormed(s: State, r: State)
    requires WellFormed(s) && s.frames != []
    requires r.frames == s.frames[..|s.frames| - 1] || (r.frames != [] && r.frames == SetTop(s.frames, Top(r)))
    ensures forall i :: 0 <= i < |r.frames| - 1 ==> r.frames[i] == Calling
    ensures |r.frames| < |s.frames| && r.frames != [] ==> Top(r) == Calling
  {
  }

  lemma ConsumerWellFormed(s: State)
    requires WellFormed(s) && s.frames != []
    ensures WellFormed(ConsumerStep(s))
  {
    FramesWellFormed(s, ConsumerStep(s));
  }

  lemma StepWellFormed(s: State, a: Action)
    requires WellFormed(s)
    ensures WellFormed(Step(s, a))
  {
    match a
    case Post(_) =>
    case Produce(hardError) =>
      ProducerWellFormed(s, hardError);
      hide ProducerStep, WellFormed;
    case Dispatch =>
    case Consume =>
      if s.frames != [] {
        ConsumerWellFormed(s);
        hide ConsumerStep, WellFormed;
      }
  }

  // ---- What every interleaving keeps ----

  /** Popped but not yet passed to the callback. */
  function InFlight(s: State): seq<HardwareEvent>
  {
    if s.frames != [] && Top(s).Handing? then [Top(s).event] else []
  }

  /** The live part of the ring, read from the memory the two indices delimit. */
  function Queued(s: State): seq<HardwareEvent>
    requires WellFormed(s)
  {
    seq(Distance(s.tail, s.head), i requires 0 <= i => s.slots[(s.head + i) % CAPACITY])
  }

  predicate IndicesInv(s: State)
  {
    && s.popped <= |s.published| <= s.popped + CAPACITY
    && s.head == s.popped % WORD
    && s.tail == |s.published| % WORD
  }

  predicate SlotsInv(s: State)
    requires |s.slots| == CAPACITY && s.popped <= |s.published|
  {
    forall i :: s.popped <= i < |s.published| ==> s.slots[i % CAPACITY] == s.published[i]
  }

  predicate ProducerInv(s: State)
    requires WellFormed(s) && s.popped <= |s.published|
  {
    match s.producer
    case Idle => true
    case Begun(_) => true
    case TailLoaded(_, t) => t == s.tail
    case HeadLoaded(_, t, h) => t == s.tail && |s.published| - s.popped <= Distance(t, h)
    case Filling(e, t, k) =>
      && t == s.tail
      && |s.published| - s.popped < CAPACITY
      && s.slots[|s.published| % CAPACITY][..k] == e[..k]
    case Notifying(e) => |s.published| > 0 && s.published[|s.published| - 1] == e
  }

  predicate ConsumerInv(s: State)
    requires WellFormed(s) && s.popped <= |s.published|
  {
    s.frames != [] ==>
      match Top(s)
      case Entered => true
      case Draining => true
      case HeadSeen(h) => h == s.head
      case BothSeen(h, t) => h == s.head && Distance(t, h) <= |s.published| - s.popped
      case Taking(h, w) => h == s.head && s.popped < |s.published| && w == s.published[s.popped][..|w|]
      case Handing(_) => true
      case Calling => true
  }

  predicate HistoryInv(s: State)
    requires s.popped <= |s.published|
  {
    && s.delivered + InFlight(s) == s.published[..s.popped]
    && (s.hardErrors == 0 ==>
          s.accepted + Unsignalled(s) == s.published)
    && |s.accepted| + s.hardErrors + |Unsignalled(s)| == |s.published|
  }

  /** Published by a post that has not returned yet. */
  function Unsignalled(s: State): seq<HardwareEvent>
  {
    if s.producer.Notifying? then [s.producer.event] else []
  }

  /** The producer has stored its tail and not yet written the eventfd. */
  predicate ProducerOwesSignal(s: State)
  {
    s.producer.Notifying?
  }

  /** Some dispatcher has emptied the eventfd and not yet seen the ring empty. */
  predicate ConsumerDraining(s: State)
  {
    s.frames != [] && (|s.frames| > 1 || !Top(s).Entered?)
  }

  predicate Signalled(s: State)
  {
    s.counter > 0 || s.producer.Notifying? || s.signalLost
  }

  /** At the empty check with a tail older than the newest publication. */
  predicate StaleTail(s: State)
    requires WellFormed(s)
  {
    s.frames != [] && Top(s).BothSeen? && Distance(Top(s).tail, Top(s).head) < |s.published| - s.popped
  }

  /** Work that nobody is about to look at is announced. At the empty check that is
      about to end the loop, "nobody looks" covers every event stored after the tail load. */
  predicate WakeInv(s: State)
    requires WellFormed(s) && s.popped <= |s.published|
  {
    && (!ConsumerDraining(s) && s.popped < |s.published| ==> Signalled(s))
    && (StaleTail(s) ==> Signalled(s))
  }

  predicate Inv(s: State)
  {
    && WellFormed(s)
    && IndicesInv(s)
    && SlotsInv(s)
    && ProducerInv(s)
    && ConsumerInv(s)
    && HistoryInv(s)
    && WakeInv(s)
  }

  // ---- Arithmetic of the wrapping indices ----

  /** Free-running indices keep their slot across the 32-bit wrap, because 256 divides 2^32. */
  lemma WrapKeepsSlot(n: nat)
    ensures (n % 4294967296) % 256 == n % 256
  {
    assert n == WORD * (n / WORD) + n % WORD;
    assert n == CAPACITY * (0x100_0000 * (n / WORD)) + n % WORD;
    ModSame(n % WORD, n, 0x100_0000 * (n / WORD));
  }

  lemma ModSame(a: nat, b: nat, q: nat)
    requires b == CAPACITY * q + a
    ensures a % CAPACITY == b % CAPACITY
  {
  }

  lemma WrapDistance(tail: nat, head: nat)
    requires head <= tail <= head + CAPACITY
    ensures Distance(tail % WORD, head % WORD) == tail - head
  {
  }

  lemma IncrementWraps(n: nat)
    ensures Increment(n % WORD) == (n + 1) % WORD
  {
  }

  lemma OtherSlot(i: nat, n: nat)
    requires i < n < i + CAPACITY
    ensures i % CAPACITY != n % CAPACITY
  {
  }

  // ---- Every step keeps the invariant ----

  lemma FillWordKeepsInv(s: State)
    requires Inv(s) && s.producer.Filling? && s.producer.words < EVENT_WORDS
    ensures Inv(ProducerStep(s, false))
  {
    var n, k, e := |s.published|, s.producer.words, s.producer.event;
    var r := ProducerStep(s, false);
    WrapKeepsSlot(n);
    var i := n % CAPACITY;
    assert r.slots == s.slots[i := s.slots[i][k := e[k]]];
    assert r.slots[i][..k + 1] == e[..k + 1];
    forall j | s.popped <= j < n ensures r.slots[j % CAPACITY] == s.published[j] {
      OtherSlot(j, n);
    }
  }

  lemma Whole(words: HardwareEvent, e: HardwareEvent)
    requires words[..EVENT_WORDS] == e[..EVENT_WORDS]
    ensures words == e
  {
    assert words[..EVENT_WORDS] == words && e[..EVENT_WORDS] == e;
  }

  lemma StoreTailKeepsInv(s: State)
    requires Inv(s) && s.producer.Filling? && s.producer.words == EVENT_WORDS
    ensures Inv(ProducerStep(s, false))
  {
    var n, e := |s.published|, s.producer.event;
    var r := ProducerStep(s, false);
    WrapKeepsSlot(n);
    IncrementWraps(n);
    Whole(s.slots[n % CAPACITY], e);
    assert r.published[..r.popped] == s.published[..s.popped];
    assert InFlight(r) == InFlight(s);
    ProducerWellFormed(s, false);
    hide Increment, Distance, InFlight, WellFormed;
  }

  lemma FullCheckKeepsInv(s: State)
    requires Inv(s) && (s.producer.Begun? || s.producer.TailLoaded? || s.producer.HeadLoaded?)
    ensures Inv(ProducerStep(s, false))
  {
    WrapDistance(|s.published|, s.popped);
    assert InFlight(ProducerStep(s, false)) == InFlight(s);
  }

  lemma NotifyKeepsInv(s: State, hardError: bool)
    requires Inv(s) && s.producer.Notifying?
    ensures Inv(ProducerStep(s, hardError))
  {
    assert InFlight(ProducerStep(s, hardError)) == InFlight(s);
  }

  lemma ProducerKeepsInv(s: State, hardError: bool)
    requires Inv(s)
    ensures Inv(ProducerStep(s, hardError))
  {
    match s.producer
    case Idle =>
    case Filling(e, t, k) => if k < EVENT_WORDS { FillWordKeepsInv(s); } else { StoreTailKeepsInv(s); }
    case Notifying(e) => NotifyKeepsInv(s, hardError);
    case _ => FullCheckKeepsInv(s);
  }

  lemma TakeWordKeepsInv(s: State)
    requires Inv(s) && s.frames != [] && Top(s).Taking? && |Top(s).words| < EVENT_WORDS
    ensures Inv(ConsumerStep(s))
  {
    var w := Top(s).words;
    WrapKeepsSlot(s.popped);
    assert w + [s.published[s.popped][|w|]] == s.published[s.popped][..|w| + 1];
  }

  lemma StoreHeadKeepsInv(s: State)
    requires Inv(s) && s.frames != [] && Top(s).Taking? && |Top(s).words| == EVENT_WORDS
    ensures Inv(ConsumerStep(s))
  {
    var w := Top(s).words;
    IncrementWraps(s.popped);
    hide Increment, Distance;
    assert w == s.published[s.popped];
    assert s.published[..s.popped + 1] == s.published[..s.popped] + [w];
    var r := ConsumerStep(s);
    assert r.delivered + InFlight(r) == r.published[..r.popped];
  }

  /** A step that moves only frames carries most of the invariant along. */
  lemma FramesCarry(s: State, r: State)
    requires Inv(s) && WellFormed(r) && r == s.(frames := r.frames) && InFlight(r) == InFlight(s)
    ensures IndicesInv(r) && SlotsInv(r) && ProducerInv(r) && HistoryInv(r)
  {
  }

  lemma LoadsKeepInv(s: State)
    requires Inv(s) && s.frames != []
    requires Top(s).Draining? || Top(s).HeadSeen? || Top(s).Calling?
    ensures Inv(ConsumerStep(s))
  {
    ConsumerWellFormed(s);
    FramesCarry(s, ConsumerStep(s));
    WrapDistance(|s.published|, s.popped);
    hide WellFormed, SlotsInv, ProducerInv, HistoryInv;
  }

  lemma FdReadKeepsInv(s: State)
    requires Inv(s) && s.frames != [] && Top(s).Entered?
    ensures Inv(ConsumerStep(s))
  {
    var r := ConsumerStep(s);
    if s.counter == 0 && r.frames != [] {
      assert Top(r) == Calling;
    }
  }

  lemma EmptyCheckKeepsInv(s: State)
    requires Inv(s) && s.frames != [] && Top(s).BothSeen?
    ensures Inv(ConsumerStep(s))
  {
    var r := ConsumerStep(s);
    ConsumerWellFormed(s);
    FramesWellFormed(s, r);
    assert r.frames != [] && Top(s).head == Top(s).tail ==> Top(r) == Calling;
    FramesCarry(s, r);
    hide WellFormed, SlotsInv, ProducerInv, HistoryInv;
  }

  lemma ConsumerKeepsInv(s: State)
    requires Inv(s) && s.frames != []
    ensures Inv(ConsumerStep(s))
  {
    match Top(s)
    case Taking(h, w) => if |w| < EVENT_WORDS { TakeWordKeepsInv(s); } else { StoreHeadKeepsInv(s); }
    case Entered => FdReadKeepsInv(s);
    case BothSeen(_, _) => EmptyCheckKeepsInv(s);
    case Handing(e) => assert s.delivered + [e] + [] == s.published[..s.popped];
    case _ => LoadsKeepInv(s);
  }

  lemma StepKeepsInv(s: State, a: Action)
    requires Inv(s)
    ensures Inv(Step(s, a))
  {
    match a
    case Produce(hardError) => ProducerKeepsInv(s, hardError);
    case Consume => if s.frames != [] { ConsumerKeepsInv(s); }
    case _ =>
  }

  lemma {:induction false} RunKeepsInv(s: State, actions: seq<Action>)
    requires Inv(s)
    ensures Inv(Run(s, actions))
    decreases |actions|
  {
    if actions != [] {
      var last := |actions| - 1;
      RunKeepsInv(s, actions[..last]);
      StepKeepsInv(Run(s, actions[..last]), actions[last]);
    }
  }

  // ---- Theorems over every run ----

  /** A state some interleaving reaches from a freshly created bridge. */
  ghost predicate Reachable(s: State)
  {
    exists slots, actions :: |slots| == CAPACITY && s == Run(Init(slots), actions)
  }

  lemma ReachableInv(s: State)
    requires Reachable(s)
    ensures Inv(s)
  {
    var slots, actions :| |slots| == CAPACITY && s == Run(Init(slots), actions);
    RunKeepsInv(Init(slots), actions);
  }

  /** In order and exactly once: what was delivered, what is in the consumer's hands and
      what the ring's memory holds between the two wrapped indices is what was published. */
  lemma FifoExactlyOnce(s: State)
    requires Reachable(s)
    ensures s.delivered + InFlight(s) + Queued(s) == s.published
    ensures |Queued(s)| <= 256
  {
    ReachableInv(s);
    QueuedIsLive(s);
    hide Queued, Distance;
    assert s.published[..s.popped] + s.published[s.popped..] == s.published;
  }

  /** A post's result can be trusted exactly as long as no eventfd write has failed with an
      error other than EAGAIN: such a post returns false after its event became visible. */
  lemma PostResultsTruthful(s: State)
    requires Reachable(s)
    ensures s.accepted + Unsignalled(s) == s.published <==> s.hardErrors == 0
  {
    ReachableInv(s);
  }

  lemma QueuedIsLive(s: State)
    requires Inv(s)
    ensures Queued(s) == s.published[s.popped..]
  {
    WrapDistance(|s.published|, s.popped);
    forall i | 0 <= i < |s.published| - s.popped
      ensures s.slots[(s.head + i) % CAPACITY] == s.published[s.popped..][i]
    {
      SlotOfOffset(s.popped, i);
    }
  }

  lemma SlotOfOffset(n: nat, i: nat)
    ensures (n % WORD + i) % CAPACITY == (n + i) % CAPACITY
  {
    ModSame(n % WORD + i, n + i, 0x100_0000 * (n / WORD));
  }

  /** The slot the producer is writing holds no event that is still to be consumed. */
  lemma NoLiveSlotOverwritten(s: State, i: nat)
    requires Reachable(s) && s.producer.Filling? && s.popped <= i < |s.published|
    ensures s.producer.tail % 256 != i % 256
  {
    ReachableInv(s);
    WrapKeepsSlot(|s.published|);
    OtherSlot(i, |s.published|);
  }

  /** Every word the consumer reads belongs to the oldest published event, so a handed
      event is never torn, whatever the producer does during the copy. */
  lemma NoUnpublishedSlotRead(s: State)
    requires Reachable(s) && s.frames != [] && Top(s).Taking? && |Top(s).words| < EVENT_WORDS
    ensures s.popped < |s.published|
    ensures s.slots[Top(s).head % 256] == s.published[s.popped]
    ensures Top(s).words <= s.published[s.popped]
  {
    ReachableInv(s);
    WrapKeepsSlot(s.popped);
  }

  /** No lost wake-up, unless the last eventfd write failed with something other than EAGAIN. */
  lemma NoLostWakeup(s: State)
    requires Reachable(s) && !ProducerOwesSignal(s) && !ConsumerDraining(s) && !s.signalLost
    ensures Queued(s) != [] ==> s.counter > 0
  {
    ReachableInv(s);
    QueuedIsLive(s);
  }

  lemma {:induction false} RunConcat(s: State, a: seq<Action>, b: seq<Action>)
    requires WellFormed(s)
    ensures Run(s, a + b) == Run(Run(s, a), b)
    decreases |b|
  {
    if b == [] {
      assert a + b == a;
    } else {
      var last := |b| - 1;
      assert (a + b)[..|a + b| - 1] == a + b[..last];
      RunConcat(s, a, b[..last]);
    }
  }

  lemma RunAppend(s: State, actions: seq<Action>, a: Action)
    requires WellFormed(s)
    ensures Run(s, actions + [a]) == Step(Run(s, actions), a)
  {
    assert (actions + [a])[..|actions|] == actions;
  }

  // ---- Progress: a dispatch left alone empties the bridge ----

  function Repeat(a: Action, n: nat): (r: seq<Action>)
    ensures |r| == n && forall i :: 0 <= i < n ==> r[i] == a
  {
    seq(n, _ => a)
  }

  lemma RepeatMore(s: State, a: Action, n: nat)
    requires WellFormed(s)
    ensures Run(s, Repeat(a, n + 1)) == Step(Run(s, Repeat(a, n)), a)
  {
    assert Repeat(a, n + 1) == Repeat(a, n) + [a];
    hide Step, Run, Repeat;
    RunAppend(s, Repeat(a, n), a);
  }

  lemma RunNone(s: State, a: Action)
    requires WellFormed(s)
    ensures Run(s, Repeat(a, 0)) == s
  {
  }

  lemma RepeatSplit(s: State, a: Action, m: nat, n: nat)
    requires WellFormed(s)
    ensures Run(s, Repeat(a, m + n)) == Run(Run(s, Repeat(a, m)), Repeat(a, n))
  {
    assert Repeat(a, m + n) == Repeat(a, m) + Repeat(a, n);
    hide Step, Run, Repeat;
    RunConcat(s, Repeat(a, m), Repeat(a, n));
  }

  // head load, tail load, empty check, seven words, head store, call, return
  const ITERATION: nat := EVENT_WORDS + 6

  /** The bridge `n` consumer steps into one pass of the drain loop. */
  function Pass(s: State, n: nat): State
    requires s.popped < |s.published| && n <= ITERATION
  {
    var e := s.published[s.popped];
    if n == 0 then s
    else if n == 1 then s.(frames := [HeadSeen(s.head)])
    else if n == 2 then s.(frames := [BothSeen(s.head, s.tail)])
    else if n <= 3 + EVENT_WORDS then s.(frames := [Taking(s.head, e[..n - 3])])
    else
      var t := s.(head := Increment(s.head), popped := s.popped + 1);
      if n == 4 + EVENT_WORDS then t.(frames := [Handing(e)])
      else t.(delivered := s.delivered + [e], frames := [if n < ITERATION then Calling else Draining])
  }

  predicate ReadyToDrain(s: State)
  {
    WellFormed(s) && IndicesInv(s) && SlotsInv(s) && s.frames == [Draining]
  }

  lemma PassStep(s: State, n: nat)
    requires ReadyToDrain(s) && s.popped < |s.published| && n < ITERATION
    ensures WellFormed(Pass(s, n)) && Step(Pass(s, n), Consume) == Pass(s, n + 1)
  {
    var e := s.published[s.popped];
    WrapKeepsSlot(s.popped);
    WrapDistance(|s.published|, s.popped);
    if 3 <= n < 3 + EVENT_WORDS {
      assert e[..n - 3] + [e[n - 3]] == e[..n - 2];
    } else if n == 3 + EVENT_WORDS {
      assert e[..n - 3] == e;
    }
  }

  lemma ReadyIsWellFormed(s: State)
    requires ReadyToDrain(s)
    ensures WellFormed(s)
  {
  }

  lemma {:induction false} PassRun(s: State, n: nat)
    requires ReadyToDrain(s) && s.popped < |s.published| && n <= ITERATION
    ensures Run(s, Repeat(Consume, n)) == Pass(s, n)
  {
    if n == 0 {
      RunNone(s, Consume);
    } else {
      hide Step, Run, Pass, Repeat, ReadyToDrain;
      ReadyIsWellFormed(s);
      PassRun(s, n - 1);
      PassStep(s, n - 1);
      RepeatMore(s, Consume, n - 1);
    }
  }

  function Passed(s: State): State
    requires s.popped < |s.published|
  {
    s.(head := Increment(s.head), popped := s.popped + 1, delivered := s.delivered + [s.published[s.popped]])
  }

  lemma PassDone(s: State)
    requires ReadyToDrain(s) && s.popped < |s.published| && s.delivered == s.published[..s.popped]
    ensures ReadyToDrain(Passed(s)) && Passed(s).delivered == s.published[..s.popped + 1]
  {
    IncrementWraps(s.popped);
  }

  lemma PassThen(s: State, n: nat)
    requires ReadyToDrain(s) && s.popped < |s.published| && WellFormed(Passed(s))
    ensures Run(s, Repeat(Consume, ITERATION + n)) == Run(Passed(s), Repeat(Consume, n))
  {
    assert Pass(s, ITERATION) == Passed(s);
    hide Step, Run, Pass, Passed, Repeat;
    PassRun(s, ITERATION);
    RepeatSplit(s, Consume, ITERATION, n);
  }

  /** The last three steps find the ring empty and leave. */
  lemma LastPass(s: State)
    requires ReadyToDrain(s) && s.popped == |s.published|
    ensures Run(s, Repeat(Consume, 3)) == s.(frames := [])
  {
    var s1, s2 := s.(frames := [HeadSeen(s.head)]), s.(frames := [BothSeen(s.head, s.tail)]);
    RepeatMore(s, Consume, 0);
    assert Run(s, Repeat(Consume, 1)) == s1;
    RepeatMore(s, Consume, 1);
    assert Run(s, Repeat(Consume, 2)) == s2;
    RepeatMore(s, Consume, 2);
  }

  /** Events published and not yet popped. */
  function Pending(s: State): (n: nat)
  {
    if s.popped <= |s.published| then |s.published| - s.popped else 0
  }

  function DrainSteps(passes: nat): nat
  {
    if passes == 0 then 3 else ITERATION + DrainSteps(passes - 1)
  }

  lemma {:induction false} DrainAll(s: State, passes: nat)
    requires ReadyToDrain(s) && s.delivered == s.published[..s.popped]
    requires passes == |s.published| - s.popped
    ensures var r := Run(s, Repeat(Consume, DrainSteps(passes)));
            r.frames == [] && r.delivered == r.published == s.published
    decreases passes
  {
    hide Step, Run, Repeat, Pass;
    if passes == 0 {
      LastPass(s);
    } else {
      PassDone(s);
      DrainAll(Passed(s), passes - 1);
      PassThen(s, DrainSteps(passes - 1));
    }
  }

  lemma DispatchEnters(s: State)
    requires WellFormed(s) && s.frames == []
    ensures Run(s, [Dispatch] + Repeat(Consume, 1)) ==
            s.(counter := 0, frames := if s.counter > 0 then [Draining] else [])
  {
    RunAppend(s, [], Dispatch);
    assert [] + [Dispatch] == [Dispatch];
    RunConcat(s, [Dispatch], Repeat(Consume, 1));
    RepeatMore(Step(s, Dispatch), Consume, 0);
  }

  lemma DispatchFrom(s: State, n: nat)
    requires WellFormed(s) && s.frames == [] && n == DrainSteps(Pending(s))
    ensures Run(s, [Dispatch] + Repeat(Consume, 1 + n)) ==
            Run(s.(counter := 0, frames := if s.counter > 0 then [Draining] else []), Repeat(Consume, n))
  {
    hide Step;
    DispatchEnters(s);
    var start := [Dispatch] + Repeat(Consume, 1);
    assert [Dispatch] + Repeat(Consume, 1 + n) == start + Repeat(Consume, n);
    RunConcat(s, start, Repeat(Consume, n));
  }

  /** After one dispatch that nothing disturbs. */
  function AfterDispatch(s: State): State
    requires WellFormed(s)
  {
    Run(s, [Dispatch] + Repeat(Consume, 1 + DrainSteps(Pending(s))))
  }

  /** What the first read of the eventfd makes of a state without dispatcher. */
  function AfterFdRead(s: State): State
  {
    s.(counter := 0, frames := if s.counter > 0 then [Draining] else [])
  }

  lemma FdReadReady(s: State)
    requires Inv(s) && s.frames == []
    ensures s.delivered == s.published[..s.popped] && s.popped <= |s.published|
    ensures WellFormed(AfterFdRead(s)) && (s.counter > 0 ==> ReadyToDrain(AfterFdRead(s)))
  {
    assert InFlight(s) == [];
  }

  lemma QueuedEmptyIff(s: State)
    requires Inv(s)
    ensures Queued(s) == [] <==> s.popped == |s.published|
  {
    QueuedIsLive(s);
  }

  lemma DispatchOutcome(s: State)
    requires Inv(s) && s.frames == []
    ensures var r := AfterDispatch(s);
            r.frames == [] && r.published == s.published &&
            (r.delivered == s.published <==> s.counter > 0 || s.popped == |s.published|)
  {
    FdReadReady(s);
    var n := DrainSteps(Pending(s));
    DispatchFrom(s, n);
    assert AfterDispatch(s) == Run(AfterFdRead(s), Repeat(Consume, n));
    hide Step, Run, Inv, ReadyToDrain, WellFormed, DrainSteps, Repeat, AfterDispatch;
    if s.counter > 0 {
      DrainAll(AfterFdRead(s), Pending(s));
    } else {
      NothingToConsume(AfterFdRead(s), n);
    }
  }

  /** From any reachable state with no dispatcher running, whatever eventfd writes have failed: one
      undisturbed dispatch delivers every published event exactly when the eventfd is positive or
      nothing is queued.
   */
  lemma DispatchDeliversIff(s: State)
    requires Reachable(s) && s.frames == []
    ensures WellFormed(s)
    ensures var r := AfterDispatch(s);
            r.frames == [] && r.published == s.published &&
            (r.delivered == s.published <==> s.counter > 0 || Queued(s) == [])
  {
    ReachableInv(s);
    DispatchOutcome(s);
    QueuedEmptyIff(s);
  }

  /** So once both threads are outside the bridge and no signal was lost, it always does. */
  lemma DispatchDeliversAll(s: State)
    requires Reachable(s) && s.frames == [] && !ProducerOwesSignal(s) && !s.signalLost
    ensures WellFormed(s)
    ensures AfterDispatch(s).frames == [] && AfterDispatch(s).delivered == AfterDispatch(s).published == s.published
  {
    DispatchDeliversIff(s);
    NoLostWakeup(s);
  }

  lemma {:induction false} NothingToConsume(s: State, n: nat)
    requires WellFormed(s) && s.frames == []
    ensures Run(s, Repeat(Consume, n)) == s
  {
    if n > 0 {
      NothingToConsume(s, n - 1);
      RepeatMore(s, Consume, n - 1);
    }
  }

  // ---- The one way to lose a wake-up ----

  /** The only dispatcher is about to leave without another look at the ring: its eventfd read will
      find zero, or both its index loads are done and found the ring empty.
   */
  predicate Leaving(s: State)
  {
    && |s.frames| == 1
    && ((Top(s).Entered? && s.counter == 0) || (Top(s).BothSeen? && Top(s).head == Top(s).tail))
  }

  /** Some dispatcher will still load the tail. */
  predicate StillLooks(s: State)
  {
    s.frames != [] && !Leaving(s)
  }

  predicate WillEmpty(s: State)
  {
    s.popped == |s.published| || StillLooks(s)
  }

  lemma ConsumerKeepsLooking(s: State)
    requires Inv(s) && s.frames != [] && WillEmpty(s)
    ensures WillEmpty(ConsumerStep(s)) && ConsumerStep(s).published == s.published
  {
    if Top(s).HeadSeen? {
      FreshLoadsAgree(s);
    }
    assert Top(s).Taking? ==> s.popped < |s.published|;
    hide Inv;
  }

  /** Index loads that agree with the newest tail mean an empty ring. */
  lemma FreshLoadsAgree(s: State)
    requires Inv(s) && s.frames != [] && Top(s).HeadSeen?
    ensures Top(s).head == s.tail ==> s.popped == |s.published|
  {
    WrapDistance(|s.published|, s.popped);
  }

  /** Steps left at this frame before the next frame or event. */
  function Rank(f: Frame): nat
  {
    match f
    case Entered => 15
    case Handing(_) => 14
    case Calling => 13
    case Draining => 12
    case HeadSeen(_) => 11
    case BothSeen(_, _) => 10
    case Taking(_, w) => if |w| <= 8 then 9 - |w| else 0
  }

  lemma ConsumerProgresses(s: State)
    requires Inv(s) && s.frames != []
    ensures var r := ConsumerStep(s);
            && r.published == s.published
            && (r.popped == s.popped + 1 ||
                (r.popped == s.popped && |r.frames| < |s.frames|) ||
                (r.popped == s.popped && |r.frames| == |s.frames| && Rank(Top(r)) < Rank(Top(s))))
  {
  }

  /** Left alone, the consumer finishes. It has then taken everything if some dispatcher still looked, and
      otherwise nothing has changed but that the dispatcher is gone.
   */
  lemma {:induction false} FinishDrain(s: State) returns (n: nat)
    requires Inv(s)
    ensures var d := Run(s, Repeat(Consume, n));
            && Inv(d) && d.frames == [] && d.published == s.published
            && (WillEmpty(s) ==> d.popped == |d.published|)
            && (!WillEmpty(s) ==> d == s.(frames := []))
    decreases |s.published| - s.popped, |s.frames|, if s.frames == [] then 0 else Rank(Top(s))
  {
    if s.frames == [] {
      n := 0;
    } else {
      var r := ConsumerStep(s);
      assert Step(s, Consume) == r;
      ConsumerKeepsInv(s);
      ConsumerProgresses(s);
      assert !WillEmpty(s) ==> r == s.(frames := []);
      if WillEmpty(s) {
        ConsumerKeepsLooking(s);
      }
      hide ConsumerStep, Inv, Step, WillEmpty, Rank;
      n := FinishDrain(r);
      OneFirst(s, r, n);
      n := n + 1;
    }
  }

  lemma OneFirst(s: State, r: State, n: nat)
    requires WellFormed(s) && WellFormed(r) && Step(s, Consume) == r
    ensures Run(s, Repeat(Consume, n + 1)) == Run(r, Repeat(Consume, n))
  {
    RepeatSplit(s, Consume, 1, n);
    RepeatMore(s, Consume, 0);
  }

  /** After the consumer has made n more steps on its own. */
  function AfterConsumer(s: State, n: nat): (d: State)
    requires WellFormed(s)
    ensures WellFormed(d)
  {
    Run(s, Repeat(Consume, n))
  }

  lemma DrainThenDispatch(s: State) returns (n: nat)
    requires Inv(s)
    ensures var d := AfterConsumer(s, n);
            var r := AfterDispatch(d);
            && d.frames == [] && r.frames == [] && r.published == s.published
            && (r.delivered == s.published <==> s.counter > 0 || WillEmpty(s))
  {
    n := FinishDrain(s);
    var d := AfterConsumer(s, n);
    hide AfterConsumer, AfterDispatch, Inv, WillEmpty, WellFormed;
    DispatchOutcome(d);
  }

  /** Whatever has failed: let the dispatchers finish and dispatch once more, and every published event
      is delivered exactly when the eventfd was positive, the ring empty, or a dispatcher still to look.
   */
  lemma DrainThenDispatchDeliversIff(s: State) returns (n: nat)
    requires Reachable(s)
    ensures WellFormed(s)
    ensures var d := AfterConsumer(s, n);
            var r := AfterDispatch(d);
            && d.frames == [] && r.frames == [] && r.published == s.published
            && (r.delivered == s.published <==> s.counter > 0 || Queued(s) == [] || StillLooks(s))
  {
    ReachableInv(s);
    QueuedEmptyIff(s);
    n := DrainThenDispatch(s);
  }

  lemma FailedWriteChangesNoQueue(s: State)
    requires WellFormed(s) && ProducerOwesSignal(s)
    ensures var t := Step(s, Produce(true));
            && WellFormed(t) && t.counter == s.counter && t.published == s.published
            && Queued(t) == Queued(s) && StillLooks(t) == StillLooks(s)
  {
  }

  /** So an event whose eventfd write fails is lost, for as long as nothing else is posted, exactly when the
      counter is zero, the consumer has not taken it, and no dispatcher is still to load the tail.
   */
  lemma FailedWriteLosesWakeupIff(s: State) returns (n: nat)
    requires Reachable(s) && ProducerOwesSignal(s)
    ensures WellFormed(s) && WellFormed(Step(s, Produce(true)))
    ensures var d := AfterConsumer(Step(s, Produce(true)), n);
            var r := AfterDispatch(d);
            && d.frames == [] && r.frames == [] && r.published == s.published
            && (r.delivered == s.published <==> s.counter > 0 || Queued(s) == [] || StillLooks(s))
  {
    ReachableStep(s, Produce(true));
    FailedWriteChangesNoQueue(s);
    hide Step, Queued, StillLooks, AfterConsumer, AfterDispatch;
    n := DrainThenDispatchDeliversIff(Step(s, Produce(true)));
  }

  lemma ReachableStep(s: State, a: Action)
    requires Reachable(s)
    ensures WellFormed(s) && Reachable(Step(s, a))
  {
    ReachableInv(s);
    hide Step, Inv;
    var slots, actions :| |slots| == CAPACITY && s == Run(Init(slots), actions);
    RunAppend(Init(slots), actions, a);
    assert Step(s, a) == Run(Init(slots), actions + [a]);
  }

  /** A fresh bridge `n` steps into its first post. */
  function FirstPost(slots: seq<HardwareEvent>, e: HardwareEvent, n: nat): State
    requires |slots| == CAPACITY && n <= 5 + EVENT_WORDS
  {
    var s := Init(slots);
    if n == 0 then s
    else if n == 1 then s.(producer := Begun(e))
    else if n == 2 then s.(producer := TailLoaded(e, 0))
    else if n == 3 then s.(producer := HeadLoaded(e, 0, 0))
    else
      var k := n - 4;
      if k <= EVENT_WORDS then
        s.(slots := slots[0 := e[..k] + slots[0][k..]], producer := Filling(e, 0, k))
      else s.(slots := slots[0 := e], tail := 1, published := [e], producer := Notifying(e))
  }

  lemma {:induction false} FirstPostRun(slots: seq<HardwareEvent>, e: HardwareEvent, n: nat)
    requires |slots| == CAPACITY && n <= 4 + EVENT_WORDS
    ensures Run(Init(slots), [Post(e)] + Repeat(Produce(false), n)) == FirstPost(slots, e, n + 1)
  {
    if n == 0 {
      RunAppend(Init(slots), [], Post(e));
      assert [] + [Post(e)] == [Post(e)] + Repeat(Produce(false), 0);
    } else {
      hide Step, Run, FirstPost, WellFormed;
      FirstPostRun(slots, e, n - 1);
      FirstPostStep(slots, e, n);
      var before := [Post(e)] + Repeat(Produce(false), n - 1);
      assert [Post(e)] + Repeat(Produce(false), n) == before + [Produce(false)];
      RunAppend(Init(slots), before, Produce(false));
    }
  }

  lemma FirstPostStep(slots: seq<HardwareEvent>, e: HardwareEvent, n: nat)
    requires |slots| == CAPACITY && 1 <= n <= 4 + EVENT_WORDS
    ensures WellFormed(FirstPost(slots, e, n))
    ensures Step(FirstPost(slots, e, n), Produce(false)) == FirstPost(slots, e, n + 1)
  {
    if n == 3 {
      assert e[..0] + slots[0][0..] == slots[0];
      assert slots == slots[0 := e[..0] + slots[0][0..]];
    } else if 4 <= n < 4 + EVENT_WORDS {
      var k := n - 4;
      var was := e[..k] + slots[0][k..];
      assert was[k := e[k]] == e[..k + 1] + slots[0][k + 1..];
    } else if n == 4 + EVENT_WORDS {
      assert e[..EVENT_WORDS] + slots[0][EVENT_WORDS..] == e;
    }
  }

  /** Such a run exists: the post returns false, its event sits in the ring, and nothing
      tells the consumer. */
  lemma LostWakeupExists(slots: seq<HardwareEvent>, e: HardwareEvent)
    requires |slots| == CAPACITY
    ensures exists s :: Reachable(s) && s.producer.Idle? && s.frames == [] && s.counter == 0 &&
                        s.published == [e] && s.delivered == s.accepted == []
  {
    hide Step;
    FirstPostRun(slots, e, 4 + EVENT_WORDS);
    var actions := [Post(e)] + Repeat(Produce(false), 4 + EVENT_WORDS);
    RunAppend(Init(slots), actions, Produce(true));
    var s := Run(Init(slots), actions + [Produce(true)]);
    assert Reachable(s);
    FirstPostFails(slots, e);
  }

  lemma FirstPostFails(slots: seq<HardwareEvent>, e: HardwareEvent)
    requires |slots| == CAPACITY
    ensures var s := FirstPost(slots, e, 5 + EVENT_WORDS);
            WellFormed(s) && Step(s, Produce(true)) == s.(hardErrors := 1, signalLost := true, producer := Idle)
  {
  }
}
