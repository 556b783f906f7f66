/** The event bridge in the shape of the C code: atomic fields and a slot array updated in
    place, a post function and a drain loop. Between any two atomic operations the other
    thread may run; `turns` says how far. `Valid` ties the memory to the state machine of
    EventRing: it is always the state some interleaving reaches from a new bridge.
 */
module EventBridge {
  import opened EventRing

  /** What the producer does at one point of a dispatch, and whether a callback running at
      that point calls dispatch again. */
  datatype Turn = Turn(actions: seq<Action>, reenter: bool)

  predicate ProducerOnly(actions: seq<Action>)
  {
    forall a :: a in actions ==> a.Post? || a.Produce?
  }

  predicate ConsumerOnly(actions: seq<Action>)
  {
    forall a :: a in actions ==> a.Dispatch? || a.Consume?
  }

  /** A producer's schedule for one dispatch. */
  predicate Fair(turns: seq<Turn>)
  {
    forall t :: t in turns ==> ProducerOnly(t.actions)
  }

  lemma RunNext(s: State, actions: seq<Action>, i: nat)
    requires WellFormed(s) && i < |actions|
    ensures Run(s, actions[..i + 1]) == Step(Run(s, actions[..i]), actions[i])
  {
    assert actions[..i + 1] == actions[..i] + [actions[i]];
    RunAppend(s, actions[..i], actions[i]);
  }

  lemma TopSet(base: seq<Frame>, f: Frame, g: Frame)
    ensures var frames := base + [f];
            SetTop(frames, g) == base + [g] && frames[|frames| - 1] == f && frames[..|frames| - 1] == base
  {
  }

  class EventfdBridge {
    const ring: array<HardwareEvent>
    var head: nat
    var tail: nat
    var eventFd: nat

    // the registers of the two threads
    var producer: Producer
    var frames: seq<Frame>

    ghost var published: seq<HardwareEvent>
    ghost var popped: nat
    ghost var delivered: seq<HardwareEvent>
    ghost var accepted: seq<HardwareEvent>
    ghost var hardErrors: nat
    ghost var signalLost: bool
    ghost var origin: State
    ghost var trace: seq<Action>

    ghost function View(): State
      reads this, ring
    {
      State(ring[..], head, tail, eventFd, producer, frames,
            published, popped, delivered, accepted, hardErrors, signalLost)
    }

    ghost predicate Valid()
      reads this, ring
    {
      && ring.Length == CAPACITY
      && Inv(View())
      && |origin.slots| == CAPACITY && origin == Init(origin.slots)
      && View() == Run(origin, trace)
    }

    lemma ValidReachable()
      requires Valid()
      ensures Reachable(View())
    {
    }

    constructor ()
      ensures Valid() && fresh(ring)
      ensures head == tail == eventFd == 0 && producer == Idle && frames == []
      ensures published == delivered == []
    {
      var slots := new HardwareEvent[CAPACITY];
      ring := slots;
      head, tail, eventFd := 0, 0, 0;
      producer, frames := Idle, [];
      published, popped, delivered, accepted, hardErrors, signalLost := [], 0, [], [], 0, false;
      trace := [];
      origin := Init(slots[..]);
    }

    twostate lemma Stepped(a: Action)
      requires old(Valid()) && ring.Length == CAPACITY
      requires View() == Step(old(View()), a)
      requires origin == old(origin) && trace == old(trace) + [a]
      ensures Valid()
    {
      StepKeepsInv(old(View()), a);
      RunAppend(origin, old(trace), a);
    }

    // ---- The producer's atomic operations ----

    method BeginPost(event: HardwareEvent)
      requires Valid() && producer.Idle?
      modifies `producer, `trace
      ensures Valid() && producer == Begun(event) && trace == old(trace) + [Post(event)]
    {
      producer := Begun(event);
      trace := trace + [Post(event)];
      Stepped(Post(event));
    }

    method LoadTail() returns (current: nat)
      requires Valid() && producer.Begun?
      modifies `producer, `trace
      ensures Valid() && current == tail && producer == TailLoaded(old(producer.event), current)
      ensures trace == old(trace) + [Produce(false)]
    {
      current := tail;
      producer := TailLoaded(producer.event, current);
      trace := trace + [Produce(false)];
      Stepped(Produce(false));
    }

    method LoadHeadAcquire() returns (current: nat)
      requires Valid() && producer.TailLoaded?
      modifies `producer, `trace
      ensures Valid() && current == head && trace == old(trace) + [Produce(false)]
      ensures producer == HeadLoaded(old(producer.event), old(producer.tail), current)
    {
      current := head;
      producer := HeadLoaded(producer.event, producer.tail, current);
      trace := trace + [Produce(false)];
      Stepped(Produce(false));
    }

    method CheckFull() returns (full: bool)
      requires Valid() && producer.HeadLoaded?
      modifies `producer, `trace
      ensures Valid() && trace == old(trace) + [Produce(false)]
      ensures full <==> Distance(old(producer.tail), old(producer.head)) >= CAPACITY
      ensures producer == if full then Idle else Filling(old(producer.event), old(producer.tail), 0)
    {
      full := Distance(producer.tail, producer.head) >= CAPACITY;
      producer := if full then Idle else Filling(producer.event, producer.tail, 0);
      trace := trace + [Produce(false)];
      Stepped(Produce(false));
    }

    method StoreWord()
      requires Valid() && producer.Filling? && producer.words < EVENT_WORDS
      modifies `producer, `trace, ring
      ensures Valid() && trace == old(trace) + [Produce(false)]
      ensures producer == old(producer).(words := old(producer.words) + 1)
      ensures ring[..] == old(ring[..])[old(producer.tail) % CAPACITY :=
                            old(ring[producer.tail % CAPACITY][producer.words := producer.event[producer.words]])]
    {
      var idx, k := producer.tail % CAPACITY, producer.words;
      ring[idx] := ring[idx][k := producer.event[k]];
      producer := producer.(words := k + 1);
      trace := trace + [Produce(false)];
      Stepped(Produce(false));
    }

    method StoreTail()
      requires Valid() && producer.Filling? && producer.words == EVENT_WORDS
      modifies `producer, `trace, `tail, `published
      ensures Valid() && trace == old(trace) + [Produce(false)]
      ensures tail == Increment(old(producer.tail)) && producer == Notifying(old(producer.event))
      ensures published == old(published) + [old(producer.event)]
    {
      tail := Increment(producer.tail);
      published := published + [producer.event];
      producer := Notifying(producer.event);
      trace := trace + [Produce(false)];
      Stepped(Produce(false));
    }

    /** write(event_fd, 1): succeeds, reports EAGAIN on a saturated counter, or fails hard. */
    method WriteEventfd(hardError: bool) returns (ok: bool)
      requires Valid() && producer.Notifying?
      modifies `producer, `trace, `eventFd, `accepted, `hardErrors, `signalLost
      ensures Valid() && trace == old(trace) + [Produce(hardError)] && producer == Idle
      ensures ok == !hardError
      ensures accepted == if ok then old(accepted) + [old(producer.event)] else old(accepted)
      ensures eventFd == if ok && old(eventFd) < COUNTER_MAX then old(eventFd) + 1 else old(eventFd)
      ensures eventFd >= old(eventFd)
    {
      ok := !hardError;
      if hardError {
        hardErrors := hardErrors + 1;
      } else {
        if eventFd < COUNTER_MAX {
          eventFd := eventFd + 1;
        }
        accepted := accepted + [producer.event];
      }
      signalLost := hardError;
      producer := Idle;
      trace := trace + [Produce(hardError)];
      Stepped(Produce(hardError));
    }

    // ---- The consumer's atomic operations ----

    method Enter()
      requires Valid() && (frames == [] || frames[|frames| - 1].Calling?)
      modifies `frames, `trace
      ensures Valid() && frames == old(frames) + [Entered] && trace == old(trace) + [Dispatch]
    {
      frames := frames + [Entered];
      trace := trace + [Dispatch];
      Stepped(Dispatch);
    }

    /** read(event_fd): returns and zeroes the counter, or fails when it is zero. */
    method ReadEventfd() returns (got: bool)
      requires Valid() && frames != [] && frames[|frames| - 1].Entered?
      modifies `frames, `trace, `eventFd
      ensures Valid() && trace == old(trace) + [Consume]
      ensures got <==> old(eventFd) > 0
      ensures eventFd == 0
      ensures frames == if got then SetTop(old(frames), Draining) else old(frames)[..|old(frames)| - 1]
    {
      got := eventFd > 0;
      eventFd := 0;
      frames := if got then SetTop(frames, Draining) else frames[..|frames| - 1];
      trace := trace + [Consume];
      Stepped(Consume);
    }

    method LoadHead() returns (current: nat)
      requires Valid() && frames != [] && frames[|frames| - 1].Draining?
      modifies `frames, `trace
      ensures Valid() && current == head && trace == old(trace) + [Consume]
      ensures frames == SetTop(old(frames), HeadSeen(current))
    {
      current := head;
      frames := SetTop(frames, HeadSeen(current));
      trace := trace + [Consume];
      Stepped(Consume);
    }

    method LoadTailAcquire() returns (current: nat)
      requires Valid() && frames != [] && frames[|frames| - 1].HeadSeen?
      modifies `frames, `trace
      ensures Valid() && current == tail && trace == old(trace) + [Consume]
      ensures frames == SetTop(old(frames), BothSeen(old(frames[|frames| - 1].head), current))
    {
      current := tail;
      frames := SetTop(frames, BothSeen(frames[|frames| - 1].head, current));
      trace := trace + [Consume];
      Stepped(Consume);
    }

    method CheckEmpty() returns (empty: bool)
      requires Valid() && frames != [] && frames[|frames| - 1].BothSeen?
      modifies `frames, `trace
      ensures Valid() && trace == old(trace) + [Consume]
      ensures empty <==> old(frames[|frames| - 1].head == frames[|frames| - 1].tail)
      ensures frames == if empty then old(frames)[..|old(frames)| - 1]
                        else SetTop(old(frames), Taking(old(frames[|frames| - 1].head), []))
    {
      var top := frames[|frames| - 1];
      empty := top.head == top.tail;
      frames := if empty then frames[..|frames| - 1] else SetTop(frames, Taking(top.head, []));
      trace := trace + [Consume];
      Stepped(Consume);
    }

    method LoadWord()
      requires Valid() && frames != [] && frames[|frames| - 1].Taking? && |frames[|frames| - 1].words| < EVENT_WORDS
      modifies `frames, `trace
      ensures Valid() && trace == old(trace) + [Consume]
      ensures var top := old(frames[|frames| - 1]);
              frames == SetTop(old(frames),
                               Taking(top.head, top.words + [ring[top.head % CAPACITY][|top.words|]]))
    {
      var top := frames[|frames| - 1];
      frames := SetTop(frames, Taking(top.head, top.words + [ring[top.head % CAPACITY][|top.words|]]));
      trace := trace + [Consume];
      Stepped(Consume);
    }

    method StoreHead() returns (event: HardwareEvent)
      requires Valid() && frames != [] && frames[|frames| - 1].Taking? && |frames[|frames| - 1].words| == EVENT_WORDS
      modifies `frames, `trace, `head, `popped
      ensures Valid() && trace == old(trace) + [Consume]
      ensures head == Increment(old(frames[|frames| - 1].head)) && popped == old(popped) + 1
      ensures event == old(frames[|frames| - 1].words) && frames == SetTop(old(frames), Handing(event))
    {
      var top := frames[|frames| - 1];
      event := top.words;
      head := Increment(top.head);
      popped := popped + 1;
      frames := SetTop(frames, Handing(event));
      trace := trace + [Consume];
      Stepped(Consume);
    }

    /** JS_Call: the event reaches the callback. */
    method Call()
      requires Valid() && frames != [] && frames[|frames| - 1].Handing?
      modifies `frames, `trace, `delivered
      ensures Valid() && trace == old(trace) + [Consume]
      ensures delivered == old(delivered) + [old(frames[|frames| - 1].event)]
      ensures frames == SetTop(old(frames), Calling)
    {
      delivered := delivered + [frames[|frames| - 1].event];
      frames := SetTop(frames, Calling);
      trace := trace + [Consume];
      Stepped(Consume);
    }

    method CallReturns()
      requires Valid() && frames != [] && frames[|frames| - 1].Calling?
      modifies `frames, `trace
      ensures Valid() && trace == old(trace) + [Consume]
      ensures frames == SetTop(old(frames), Draining)
    {
      frames := SetTop(frames, Draining);
      trace := trace + [Consume];
      Stepped(Consume);
    }

    // ---- The other thread's turns ----

    /** An operation that is noted in the trace is that step of the machine. */
    twostate lemma Noted(a: Action)
      requires old(Valid()) && Valid() && origin == old(origin) && trace == old(trace) + [a]
      ensures View() == Step(old(View()), a)
    {
      RunAppend(origin, old(trace), a);
      hide Step, Inv;
    }

    method ProducerTurn(actions: seq<Action>)
      requires Valid() && ProducerOnly(actions)
      modifies `producer, `trace, ring, `tail, `published, `eventFd, `accepted, `hardErrors, `signalLost
      ensures View() == Run(old(View()), actions)
      ensures Valid() && old(trace) <= trace
      ensures old(published) <= published && old(eventFd) <= eventFd
      ensures actions == [] ==> published == old(published)
    {
      ghost var start := View();
      assert actions[..0] == [] && Run(start, []) == start;
      hide *;
      for i := 0 to |actions|
        invariant Valid() && old(trace) <= trace
        invariant View() == Run(start, actions[..i])
        invariant old(published) <= published && old(eventFd) <= eventFd
        invariant i == 0 ==> published == old(published)
      {
        ProducerAct(actions[i]);
        RunNext(start, actions, i);
      }
      assert actions[..|actions|] == actions;
    }

    method ProducerAct(a: Action)
      requires Valid() && (a.Post? || a.Produce?)
      modifies `producer, `trace, ring, `tail, `published, `eventFd, `accepted, `hardErrors, `signalLost
      ensures View() == Step(old(View()), a)
      ensures Valid() && old(trace) <= trace
      ensures old(published) <= published && old(eventFd) <= eventFd
    {
      NothingToDo(View(), a);
      hide Valid, Inv, Step;
      if a.Post? {
        if producer.Idle? {
          BeginPost(a.event);
          Noted(a);
        }
      } else if !producer.Idle? {
        ghost var note := if producer.Notifying? then a else Produce(false);
        ProducerOperation(a);
        Noted(note);
      }
    }

    lemma NothingToDo(s: State, a: Action)
      requires WellFormed(s)
      ensures (a.Post? && !s.producer.Idle?) || (a.Produce? && s.producer.Idle?) ==> Step(s, a) == s
      ensures a.Produce? && !s.producer.Notifying? ==> Step(s, a) == Step(s, Produce(false))
      ensures a.Dispatch? && s.frames != [] && !Top(s).Calling? ==> Step(s, a) == s
      ensures a.Consume? && s.frames == [] ==> Step(s, a) == s
    {
    }

    /** The operation the producer stands before. */
    method ProducerOperation(a: Action)
      requires Valid() && a.Produce? && !producer.Idle?
      modifies `producer, `trace, ring, `tail, `published, `eventFd, `accepted, `hardErrors, `signalLost
      ensures Valid() && trace == old(trace) + [if old(producer).Notifying? then a else Produce(false)]
      ensures old(published) <= published && old(eventFd) <= eventFd
    {
      OnlyWords();
      hide *;
      match producer {
        case Idle =>
        case Begun(_) => var _ := LoadTail();
        case TailLoaded(_, _) => var _ := LoadHeadAcquire();
        case HeadLoaded(_, _, _) => var _ := CheckFull();
        case Filling(_, _, _) => FillOrPublish();
        case Notifying(_) => var _ := WriteEventfd(a.hardError);
      }
    }

    /** The next word of the slot or, behind the last, the tail store. */
    method FillOrPublish()
      requires Valid() && producer.Filling? && producer.words <= EVENT_WORDS
      modifies `producer, `trace, ring, `tail, `published
      ensures Valid() && trace == old(trace) + [Produce(false)] && old(published) <= published
    {
      hide *;
      if producer.words < EVENT_WORDS {
        StoreWord();
      } else {
        StoreTail();
      }
    }

    lemma OnlyWords()
      requires Valid()
      ensures producer.Filling? ==> producer.words <= EVENT_WORDS
      ensures frames != [] && frames[|frames| - 1].Taking? ==> |frames[|frames| - 1].words| <= EVENT_WORDS
    {
    }

    method ConsumerTurn(actions: seq<Action>)
      requires Valid() && ConsumerOnly(actions)
      modifies `frames, `trace, `eventFd, `head, `popped, `delivered
      ensures View() == Run(old(View()), actions)
      ensures Valid() && old(trace) <= trace
      ensures old(popped) <= popped && old(delivered) <= delivered
      ensures actions == [] ==> popped == old(popped)
    {
      ghost var start := View();
      assert actions[..0] == [] && Run(start, []) == start;
      hide *;
      for i := 0 to |actions|
        invariant Valid() && old(trace) <= trace
        invariant View() == Run(start, actions[..i])
        invariant old(popped) <= popped && old(delivered) <= delivered
        invariant i == 0 ==> popped == old(popped)
      {
        ConsumerAct(actions[i]);
        RunNext(start, actions, i);
      }
      assert actions[..|actions|] == actions;
    }

    method ConsumerAct(a: Action)
      requires Valid() && (a.Dispatch? || a.Consume?)
      modifies `frames, `trace, `eventFd, `head, `popped, `delivered
      ensures View() == Step(old(View()), a)
      ensures Valid() && old(trace) <= trace
      ensures old(popped) <= popped && old(delivered) <= delivered
    {
      NothingToDo(View(), a);
      hide Valid, Inv, Step;
      if a.Dispatch? {
        if frames == [] || frames[|frames| - 1].Calling? {
          Enter();
          Noted(a);
        }
      } else if frames != [] {
        ConsumerOperation();
        Noted(a);
      }
    }

    /** The operation the newest dispatcher stands before. */
    method ConsumerOperation()
      requires Valid() && frames != []
      modifies `frames, `trace, `eventFd, `head, `popped, `delivered
      ensures Valid() && trace == old(trace) + [Consume]
      ensures old(popped) <= popped && old(delivered) <= delivered
    {
      OnlyWords();
      hide *;
      match frames[|frames| - 1] {
        case Entered => var _ := ReadEventfd();
        case Draining => var _ := LoadHead();
        case HeadSeen(_) => var _ := LoadTailAcquire();
        case BothSeen(_, _) => var _ := CheckEmpty();
        case Taking(_, words) => if |words| < EVENT_WORDS { LoadWord(); } else { var _ := StoreHead(); }
        case Handing(_) => Call();
        case Calling => CallReturns();
      }
    }

    // ---- The two functions of the C interface ----

    /** The two index loads and the backpressure check. */
    method FindRoom(event: HardwareEvent, turn0: seq<Action>, turn1: seq<Action>) returns (full: bool, currentTail: nat)
      requires Valid() && producer.Idle? && ConsumerOnly(turn0) && ConsumerOnly(turn1)
      modifies `producer, `frames, `trace, `eventFd, `head, `popped, `delivered
      ensures Valid() && old(trace) <= trace
      ensures old(popped) <= popped && old(delivered) <= delivered
      // nothing runs between the head load and the check, so `popped` is what the load saw
      ensures full <==> |published| == popped + 256
      ensures full ==> producer.Idle? && popped == old(popped)
      ensures !full ==> producer == Filling(event, currentTail, 0)
    {
      hide Valid, Step, Run, Distance;
      RoomIsDistance();
      BeginPost(event);
      ConsumerTurn(turn0);
      currentTail := LoadTail();
      ConsumerTurn(turn1);
      var currentHead := LoadHeadAcquire();
      RoomIsDistance();
      full := CheckFull();
    }

    lemma RoomIsDistance()
      requires Valid()
      ensures Distance(tail, head) == |published| - popped <= CAPACITY
    {
      WrapDistance(|published|, popped);
    }

    /** ring[idx] = *event, one word at a time. */
    method CopyEvent(turns: seq<seq<Action>>)
      requires Valid() && producer.Filling? && producer.words == 0
      requires |turns| == EVENT_WORDS && forall t :: t in turns ==> ConsumerOnly(t)
      modifies `producer, `frames, `trace, ring, `eventFd, `head, `popped, `delivered
      ensures Valid() && old(trace) <= trace
      ensures producer == old(producer).(words := EVENT_WORDS)
      ensures old(popped) <= popped && old(delivered) <= delivered
    {
      hide Valid, Step, Run;
      for k := 0 to EVENT_WORDS
        invariant Valid() && old(trace) <= trace
        invariant producer == old(producer).(words := k)
        invariant old(popped) <= popped && old(delivered) <= delivered
      {
        ConsumerTurn(turns[k]);
        StoreWord();
      }
    }

    /** eventfd_bridge_post_event. `turns[i]` is what the consumer does before the i-th of
        the ten operations that touch shared memory. */
    method PostEvent(event: HardwareEvent, turns: seq<seq<Action>>, hardError: bool) returns (ok: bool)
      requires Valid() && producer.Idle?
      requires |turns| == 3 + EVENT_WORDS && forall t :: t in turns ==> ConsumerOnly(t)
      modifies this, ring
      ensures Valid() && producer.Idle? && origin == old(origin) && old(trace) <= trace
      ensures old(popped) <= popped && old(delivered) <= delivered
      ensures ok ==> published == old(published) + [event] && accepted == old(accepted) + [event] && eventFd > 0
      // a refusal leaves no trace, and means that 256 events were queued when the call began
      ensures !ok && !hardError ==> published == old(published) && accepted == old(accepted)
      ensures !ok && !hardError ==> |old(published)| == old(popped) + 256
      // after a failed eventfd write the event is out although the caller is told otherwise
      ensures !ok && hardError ==> accepted == old(accepted) &&
                                   (published == old(published) || published == old(published) + [event])
      ensures |old(published)| < old(popped) + 256 ==> published == old(published) + [event] && ok == !hardError
    {
      hide Valid, Step, Run;
      var full, currentTail := FindRoom(event, turns[0], turns[1]);
      if full {
        return false;
      }
      CopyEvent(turns[2..2 + EVENT_WORDS]);
      StoreTail();
      ConsumerTurn(turns[2 + EVENT_WORDS]);
      ok := WriteEventfd(hardError);
    }

    /** The producer's next turn, if the schedule has one left. */
    method Preempt(turns: seq<Turn>) returns (rest: seq<Turn>)
      requires Valid() && Fair(turns)
      modifies `producer, `trace, ring, `tail, `published, `eventFd, `accepted, `hardErrors, `signalLost
      ensures View() == if turns == [] then old(View()) else Run(old(View()), turns[0].actions)
      ensures Valid() && old(trace) <= trace && old(published) <= published && old(eventFd) <= eventFd
      ensures rest == (if turns == [] then [] else turns[1..]) && Fair(rest)
      ensures turns == [] ==> published == old(published) && eventFd == old(eventFd)
    {
      if turns == [] {
        rest := turns;
      } else {
        ProducerTurn(turns[0].actions);
        rest := turns[1..];
      }
    }

    /** HardwareEvent ev = ring[idx], one word at a time. */
    method CopyOut(turns: seq<Turn>, ghost base: seq<Frame>, ghost slot: nat) returns (rest: seq<Turn>)
      requires Valid() && Fair(turns) && frames == base + [Taking(slot, [])]
      modifies `frames, `producer, `trace, ring, `tail, `published, `eventFd, `accepted, `hardErrors, `signalLost
      ensures Valid() && old(trace) <= trace && old(published) <= published
      ensures |frames| == |base| + 1 && frames[..|base|] == base
      ensures frames[|base|].Taking? && |frames[|base|].words| == EVENT_WORDS
      ensures Fair(rest) && |rest| <= |turns|
      ensures turns == [] ==> published == old(published)
    {
      hide Valid, Step, Run, Fair;
      rest := turns;
      for k := 0 to EVENT_WORDS
        invariant Valid() && old(trace) <= trace && old(published) <= published
        invariant |frames| == |base| + 1 && frames[..|base|] == base
        invariant frames[|base|].Taking? && |frames[|base|].words| == k
        invariant Fair(rest) && |rest| <= |turns|
        invariant turns == [] ==> published == old(published)
      {
        rest := Preempt(rest);
        LoadWord();
      }
    }

    /** The copy out of the slot, the head store and the call, for the oldest event. */
    method TakeEvent(turns: seq<Turn>, ghost base: seq<Frame>, ghost slot: nat) returns (rest: seq<Turn>)
      requires Valid() && Fair(turns) && frames == base + [Taking(slot, [])]
      modifies this, ring
      ensures Valid() && origin == old(origin) && old(trace) <= trace
      ensures frames == base + [Calling]
      ensures popped == old(popped) + 1 && old(published) <= published && old(delivered) <= delivered
      ensures Fair(rest) && |rest| <= |turns|
      ensures turns == [] ==> published == old(published)
    {
      hide *;
      rest := CopyOut(turns, base, slot);
      ghost var taken := frames[|base|];
      assert frames == base + [taken];
      rest := Preempt(rest);
      TopSet(base, taken, taken);
      var event := StoreHead();
      TopSet(base, taken, Handing(event));
      rest := Preempt(rest);
      Call();
      TopSet(base, Handing(event), Calling);
    }

    /** One look at the ring: both index loads and the empty check. */
    method LookForEvent(turns: seq<Turn>, ghost base: seq<Frame>) returns (empty: bool, rest: seq<Turn>, ghost slot: nat)
      requires Valid() && Fair(turns) && frames == base + [Draining]
      modifies `frames, `producer, `trace, ring, `tail, `published, `eventFd, `accepted, `hardErrors, `signalLost
      ensures Valid() && old(trace) <= trace && old(published) <= published
      ensures frames == if empty then base else base + [Taking(slot, [])]
      ensures empty ==> old(published) <= delivered
      ensures Fair(rest) && |rest| <= |turns| && (turns != [] ==> |rest| < |turns|)
      ensures turns == [] ==> published == old(published)
      ensures popped <= |published|
    {
      hide *;
      rest := Preempt(turns);
      slot := LoadHead();
      TopSet(base, Draining, HeadSeen(slot));
      rest := Preempt(rest);
      var currentTail := LoadTailAcquire();
      TopSet(base, HeadSeen(slot), BothSeen(slot, currentTail));
      FreshTail();
      empty := CheckEmpty();
      TopSet(base, BothSeen(slot, currentTail), Taking(slot, []));
    }

    /** The JavaScript callback: it may call dispatch again, any number of times. */
    method Callback(turns: seq<Turn>) returns (rest: seq<Turn>)
      requires Valid() && Fair(turns) && frames != [] && frames[|frames| - 1].Calling?
      modifies this, ring
      ensures Valid() && origin == old(origin) && old(trace) <= trace && frames == old(frames)
      ensures old(popped) <= popped && old(published) <= published && old(delivered) <= delivered
      ensures Fair(rest) && |rest| <= |turns| && (rest == [] || !rest[0].reenter)
      ensures turns == [] ==> published == old(published)
      decreases |turns|, 0
    {
      hide Valid, Step, Run;
      rest := turns;
      while rest != [] && rest[0].reenter
        invariant Valid() && origin == old(origin) && old(trace) <= trace && frames == old(frames)
        invariant old(popped) <= popped && old(published) <= published && old(delivered) <= delivered
        invariant Fair(rest) && |rest| <= |turns|
        invariant turns == [] ==> published == old(published)
        decreases |rest|
      {
        rest := DispatchPending(rest[1..]);
      }
    }

    lemma FreshTail()
      requires Valid() && frames != [] && frames[|frames| - 1].BothSeen? && frames[|frames| - 1].tail == tail
      ensures popped <= |published| && frames[|frames| - 1].head == head
      ensures head == tail ==> published == delivered
    {
      assert InFlight(View()) == [];
      WrapDistance(|published|, popped);
      assert published[..popped] == delivered;
    }

    /** One turn of the drain loop: a look, and the oldest event taken and handed over if there is one. */
    method DrainOne(turns: seq<Turn>, ghost base: seq<Frame>) returns (empty: bool, rest: seq<Turn>)
      requires Valid() && Fair(turns) && frames == base + [Draining]
      modifies this, ring
      ensures Valid() && origin == old(origin) && old(trace) <= trace
      ensures frames == if empty then base else base + [Draining]
      ensures old(popped) <= popped && old(published) <= published && old(delivered) <= delivered
      ensures empty ==> old(published) <= delivered
      ensures Fair(rest) && |rest| <= |turns|
      ensures turns == [] ==> published == old(published)
      ensures !empty ==> |rest| < |turns| || (turns == [] && old(popped) < popped && old(popped) < |published|)
      decreases |turns|, 1
    {
      hide *;
      ghost var slot;
      empty, rest, slot := LookForEvent(turns, base);
      if empty {
        return;
      }
      rest := TakeEvent(rest, base, slot);
      TopSet(base, Calling, Draining);
      rest := Callback(rest);
      CallReturns();
      PoppedBound();
    }

    lemma PoppedBound()
      requires Valid()
      ensures popped <= |published|
    {
    }

    /** eventfd_bridge_dispatch_pending. Whatever the producer does meanwhile and however
        often the callback re-enters, every event published before the call is delivered
        when the eventfd was positive at the call. */
    method DispatchPending(turns: seq<Turn>) returns (rest: seq<Turn>)
      requires Valid() && Fair(turns) && (frames == [] || frames[|frames| - 1].Calling?)
      modifies this, ring
      ensures Valid() && origin == old(origin) && old(trace) <= trace && frames == old(frames)
      ensures old(popped) <= popped && old(published) <= published && old(delivered) <= delivered
      ensures old(eventFd) > 0 ==> old(published) <= delivered
      ensures old(eventFd) == 0 && turns == [] ==> popped == old(popped) && delivered == old(delivered)
      ensures Fair(rest) && |rest| <= |turns|
      ensures turns == [] ==> published == old(published)
      decreases |turns|, 3
    {
      hide *;
      ghost var base := frames;
      var got;
      got, rest := EnterAndRead(turns);
      if got {
        rest := DrainAll(rest, base);
      }
    }

    /** Its first part: the eventfd is read, and the producer may run just before. */
    method EnterAndRead(turns: seq<Turn>) returns (got: bool, rest: seq<Turn>)
      requires Valid() && Fair(turns) && (frames == [] || frames[|frames| - 1].Calling?)
      modifies `frames, `producer, `trace, ring, `tail, `published, `eventFd, `accepted, `hardErrors, `signalLost
      ensures Valid() && old(trace) <= trace && old(published) <= published
      ensures frames == old(frames) + if got then [Draining] else []
      ensures old(eventFd) > 0 ==> got
      ensures Fair(rest) && |rest| <= |turns|
      ensures turns == [] ==> published == old(published) && (got <==> old(eventFd) > 0)
    {
      hide *;
      Enter();
      rest := Preempt(turns);
      TopSet(old(frames), Entered, Draining);
      got := ReadEventfd();
    }

    /** Its drain loop. */
    method DrainAll(turns: seq<Turn>, ghost base: seq<Frame>) returns (rest: seq<Turn>)
      requires Valid() && Fair(turns) && frames == base + [Draining]
      modifies this, ring
      ensures Valid() && origin == old(origin) && old(trace) <= trace && frames == base
      ensures old(popped) <= popped && old(published) <= published && old(delivered) <= delivered
      ensures old(published) <= delivered
      ensures Fair(rest) && |rest| <= |turns|
      ensures turns == [] ==> published == old(published)
      decreases |turns|, 2
    {
      hide *;
      rest := turns;
      var empty := false;
      while !empty
        invariant Valid() && origin == old(origin) && old(trace) <= trace
        invariant frames == if empty then base else base + [Draining]
        invariant old(popped) <= popped && old(published) <= published && old(delivered) <= delivered
        invariant empty ==> old(published) <= delivered
        invariant Fair(rest) && |rest| <= |turns|
        invariant turns == [] ==> published == old(published)
        decreases !empty, |rest|, |published| - popped
      {
        empty, rest := DrainOne(rest, base);
      }
    }
  }
}
