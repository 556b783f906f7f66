/** The sensors daemon's table of streaming clients: eight slots of file descriptors, a count kept
    beside them, and whether the sensor is switched on.
 */
module SensorStream {
  const MAX_STREAMING_CLIENTS: nat := 8

  /** How the two writes to one client go; `gone` is EPIPE or ECONNRESET. */
  datatype Outcome = Sent | HeaderLost(gone: bool) | EventLost(gone: bool)
  {
    predicate Drops()
    {
      !Sent? && gone
    }
  }

  type Broadcast = outcomes: seq<Outcome> | |outcomes| == MAX_STREAMING_CLIENTS
    witness [Sent, Sent, Sent, Sent, Sent, Sent, Sent, Sent]

  datatype Event =
    | Start(fd: int)
    | Stop(fd: int)
    | Disconnect(fd: int)
    | Sample(outcomes: Broadcast)

  type Slots = slots: seq<int> | |slots| == MAX_STREAMING_CLIENTS
    witness [0, 0, 0, 0, 0, 0, 0, 0]

  datatype State = State(slots: Slots, count: int, enabled: bool)

  const Initial: State := State([0, 0, 0, 0, 0, 0, 0, 0], 0, false)

  /** The first slot from `from` on that holds v, or the number of slots. */
  function First(slots: Slots, v: int, from: nat): (i: nat)
    requires from <= MAX_STREAMING_CLIENTS
    ensures from <= i <= MAX_STREAMING_CLIENTS
    ensures i < MAX_STREAMING_CLIENTS ==> slots[i] == v
    ensures forall k :: from <= k < i ==> slots[k] != v
    decreases MAX_STREAMING_CLIENTS - from
  {
    if from == MAX_STREAMING_CLIENTS || slots[from] == v then from else First(slots, v, from + 1)
  }

  function Add(s: State, fd: int): State
  {
    var i := First(s.slots, 0, 0);
    if i < MAX_STREAMING_CLIENTS then s.(slots := s.slots[i := fd], count := s.count + 1) else s
  }

  function Remove(s: State, fd: int): State
  {
    var i := First(s.slots, fd, 0);
    if i < MAX_STREAMING_CLIENTS then s.(slots := s.slots[i := 0], count := s.count - 1) else s
  }

  /** After the broadcast has visited the first n slots. */
  function Visited(s: State, outcomes: Broadcast, n: nat): State
    requires n <= MAX_STREAMING_CLIENTS
  {
    if n == 0 then
      s
    else
      var t := Visited(s, outcomes, n - 1);
      var fd := t.slots[n - 1];
      if fd > 0 && outcomes[n - 1].Drops() then Remove(t, fd) else t
  }

  function Step(s: State, event: Event): State
  {
    match event
    case Start(fd) => Add(s, fd).(enabled := true)
    case Stop(fd) =>
      var t := Remove(s, fd);
      if t.count == 0 then t.(enabled := false) else t
    case Disconnect(fd) => Remove(s, fd)
    case Sample(outcomes) => Visited(s, outcomes, MAX_STREAMING_CLIENTS)
  }

  function Run(s: State, events: seq<Event>): State
    decreases |events|
  {
    if events == [] then s else Step(Run(s, events[..|events| - 1]), events[|events| - 1])
  }

  // ---- The bounded bag it stands for ----

  /** The clients in the table, by how many slots each has. */
  function Bag(slots: Slots): multiset<int>
  {
    multiset(slots)[0 := 0]
  }

  datatype Listeners = Listeners(bag: multiset<int>, enabled: bool)

  function Abstract(s: State): Listeners
  {
    Listeners(Bag(s.slots), s.enabled)
  }

  /** The clients whose slots see a write fail for good, among the first n slots as they stood. */
  function Dead(slots: Slots, outcomes: Broadcast, n: nat): multiset<int>
    requires n <= MAX_STREAMING_CLIENTS
  {
    if n == 0 then
      multiset{}
    else
      Dead(slots, outcomes, n - 1)
      + (if slots[n - 1] > 0 && outcomes[n - 1].Drops() then multiset{slots[n - 1]} else multiset{})
  }

  /** A bag of at most eight: a client too many is not added, a client not there is not removed. */
  function BagStep(b: Listeners, event: Event, dead: multiset<int>): Listeners
  {
    match event
    case Start(fd) => Listeners(if |b.bag| < MAX_STREAMING_CLIENTS then b.bag + multiset{fd} else b.bag, true)
    case Stop(fd) =>
      var left := b.bag - multiset{fd};
      Listeners(left, left != multiset{} && b.enabled)
    case Disconnect(fd) => b.(bag := b.bag - multiset{fd})
    case Sample(_) => b.(bag := b.bag - dead)
  }

  function DeadIn(s: State, event: Event): multiset<int>
  {
    if event.Sample? then Dead(s.slots, event.outcomes, MAX_STREAMING_CLIENTS) else multiset{}
  }

  // ---- Invariant and refinement ----

  /** The descriptor in an event is positive, as every accepted one is while descriptor 0 stays in use. */
  predicate PositiveFd(event: Event)
  {
    event.Sample? || event.fd > 0
  }

  predicate AllPositive(events: seq<Event>)
  {
    forall i :: 0 <= i < |events| ==> PositiveFd(events[i])
  }

  ghost predicate Inv(s: State)
  {
    && s.count == |Bag(s.slots)|
    && (forall i :: 0 <= i < MAX_STREAMING_CLIENTS ==> s.slots[i] >= 0)
    && (s.count > 0 ==> s.enabled)
  }

  lemma BagSize(slots: Slots)
    ensures |Bag(slots)| == MAX_STREAMING_CLIENTS - multiset(slots)[0]
  {
  }

  lemma SlotUpdate(slots: Slots, i: nat, v: int)
    requires i < MAX_STREAMING_CLIENTS
    ensures multiset(slots[i := v]) == multiset(slots) - multiset{slots[i]} + multiset{v}
  {
  }

  lemma AddToBag(s: State, fd: int)
    requires Inv(s) && fd > 0
    ensures Bag(Add(s, fd).slots)
         == (if |Bag(s.slots)| < MAX_STREAMING_CLIENTS then Bag(s.slots) + multiset{fd} else Bag(s.slots))
    ensures Add(s, fd).count == |Bag(Add(s, fd).slots)|
  {
    BagSize(s.slots);
    var i := First(s.slots, 0, 0);
    if i < MAX_STREAMING_CLIENTS {
      SlotUpdate(s.slots, i, fd);
      assert s.slots[i] in multiset(s.slots);
      assert Bag(Add(s, fd).slots) == Bag(s.slots) + multiset{fd};
    } else {
      assert 0 !in s.slots;
    }
  }

  lemma ClearedSlot(slots: Slots, i: nat)
    requires i < MAX_STREAMING_CLIENTS && slots[i] > 0
    ensures Bag(slots[i := 0]) == Bag(slots) - multiset{slots[i]}
    ensures |Bag(slots[i := 0])| == |Bag(slots)| - 1
  {
    SlotUpdate(slots, i, 0);
    assert slots[i] in multiset(slots);
    assert slots[i] in Bag(slots);
  }

  lemma AbsentClient(slots: Slots, fd: int)
    requires fd !in slots
    ensures Bag(slots) - multiset{fd} == Bag(slots)
  {
    assert fd !in multiset(slots);
  }

  lemma RemoveFromBag(s: State, fd: int)
    requires Inv(s) && fd > 0
    ensures Bag(Remove(s, fd).slots) == Bag(s.slots) - multiset{fd}
    ensures Inv(Remove(s, fd))
  {
    hide Bag;
    var i := First(s.slots, fd, 0);
    if i < MAX_STREAMING_CLIENTS {
      ClearedSlot(s.slots, i);
    } else {
      AbsentClient(s.slots, fd);
    }
  }

  lemma MinusOneMore(bag: multiset<int>, dead: multiset<int>, fd: int)
    ensures bag - dead - multiset{fd} == bag - (dead + multiset{fd})
  {
  }

  /** Removing a client while the table is being walked touches no slot still to be visited, and takes
      away exactly the clients whose writes failed.
   */
  lemma {:induction false} VisitedDropsDead(s: State, outcomes: Broadcast, n: nat)
    requires Inv(s) && n <= MAX_STREAMING_CLIENTS
    ensures Inv(Visited(s, outcomes, n)) && Visited(s, outcomes, n).enabled == s.enabled
    ensures forall k :: n <= k < MAX_STREAMING_CLIENTS ==> Visited(s, outcomes, n).slots[k] == s.slots[k]
    ensures Bag(Visited(s, outcomes, n).slots) == Bag(s.slots) - Dead(s.slots, outcomes, n)
  {
    hide Bag, Inv, Remove, First;
    if n > 0 {
      VisitedDropsDead(s, outcomes, n - 1);
      var t := Visited(s, outcomes, n - 1);
      var fd := t.slots[n - 1];
      if fd > 0 && outcomes[n - 1].Drops() {
        RemoveFromBag(t, fd);
        RemoveReaches(t, fd, n - 1);
        MinusOneMore(Bag(s.slots), Dead(s.slots, outcomes, n - 1), fd);
      } else {
        assert Dead(s.slots, outcomes, n) == Dead(s.slots, outcomes, n - 1);
      }
    }
  }

  lemma NotYetVisited(s: State, outcomes: Broadcast, n: nat)
    requires Inv(s) && n < MAX_STREAMING_CLIENTS
    ensures var t, fd := Visited(s, outcomes, n), s.slots[n];
            && t.slots[n] == fd
            && Visited(s, outcomes, n + 1) == (if fd > 0 && outcomes[n].Drops() then Remove(t, fd) else t)
  {
    hide Remove, Bag, Dead, Inv;
    VisitedDropsDead(s, outcomes, n);
  }

  lemma RemoveReaches(s: State, fd: int, i: nat)
    requires i < MAX_STREAMING_CLIENTS && s.slots[i] == fd
    ensures forall k :: i < k < MAX_STREAMING_CLIENTS ==> Remove(s, fd).slots[k] == s.slots[k]
    ensures Remove(s, fd).enabled == s.enabled
  {
    assert First(s.slots, fd, 0) <= i;
  }

  lemma StartRefinesBag(s: State, fd: int)
    requires Inv(s) && fd > 0
    ensures Inv(Step(s, Start(fd)))
    ensures Abstract(Step(s, Start(fd))) == BagStep(Abstract(s), Start(fd), multiset{})
  {
    AddToBag(s, fd);
    hide Bag, First;
  }

  lemma StopRefinesBag(s: State, fd: int)
    requires Inv(s) && fd > 0
    ensures Inv(Step(s, Stop(fd)))
    ensures Abstract(Step(s, Stop(fd))) == BagStep(Abstract(s), Stop(fd), multiset{})
  {
    RemoveFromBag(s, fd);
    RemoveKeepsSensor(s, fd);
    hide Bag, Remove;
    var left := Bag(Remove(s, fd).slots);
    assert |left| == 0 <==> left == multiset{};
  }

  lemma RemoveKeepsSensor(s: State, fd: int)
    ensures Remove(s, fd).enabled == s.enabled
  {
  }

  lemma StepRefinesBag(s: State, event: Event)
    requires Inv(s) && PositiveFd(event)
    ensures Inv(Step(s, event))
    ensures Abstract(Step(s, event)) == BagStep(Abstract(s), event, DeadIn(s, event))
  {
    match event
    case Start(fd) =>
      StartRefinesBag(s, fd);
    case Stop(fd) =>
      StopRefinesBag(s, fd);
    case Disconnect(fd) =>
      RemoveFromBag(s, fd);
      RemoveKeepsSensor(s, fd);
      hide Bag, Remove;
    case Sample(outcomes) =>
      VisitedDropsDead(s, outcomes, MAX_STREAMING_CLIENTS);
      hide Bag, Inv, Visited;
  }

  lemma {:induction false} RunKeepsInv(events: seq<Event>)
    requires AllPositive(events)
    ensures Inv(Run(Initial, events))
    decreases |events|
  {
    if events == [] {
      assert Bag(Initial.slots) == multiset{};
    } else {
      RunKeepsInv(events[..|events| - 1]);
      StepRefinesBag(Run(Initial, events[..|events| - 1]), events[|events| - 1]);
    }
  }

  /** Over every run of positive descriptors, the count is the number of occupied slots, from 0 to 8,
      and while it is positive the sensor is on.
   */
  lemma CountIsOccupancy(events: seq<Event>)
    requires AllPositive(events)
    ensures var s := Run(Initial, events);
            && s.count == 8 - multiset(s.slots)[0]
            && 0 <= s.count <= 8
            && (s.count > 0 ==> s.enabled)
  {
    RunKeepsInv(events);
    BagSize(Run(Initial, events).slots);
  }

  /** A run of the bag, told which clients die at each sample. */
  function BagRun(b: Listeners, events: seq<Event>, deaths: seq<multiset<int>>): Listeners
    requires |events| == |deaths|
    decreases |events|
  {
    if events == [] then
      b
    else
      var n := |events| - 1;
      BagStep(BagRun(b, events[..n], deaths[..n]), events[n], deaths[n])
  }

  function Deaths(s: State, events: seq<Event>): (deaths: seq<multiset<int>>)
    ensures |deaths| == |events|
    decreases |events|
  {
    if events == [] then
      []
    else
      var n := |events| - 1;
      Deaths(s, events[..n]) + [DeadIn(Run(s, events[..n]), events[n])]
  }

  /** Every run of the table is a run of the bounded bag. */
  lemma {:induction false} RunRefinesBag(events: seq<Event>)
    requires AllPositive(events)
    ensures Abstract(Run(Initial, events)) == BagRun(Listeners(multiset{}, false), events, Deaths(Initial, events))
    decreases |events|
  {
    if events == [] {
      assert Bag(Initial.slots) == multiset{};
    } else {
      var n := |events| - 1;
      RunRefinesBag(events[..n]);
      RunKeepsInv(events[..n]);
      StepRefinesBag(Run(Initial, events[..n]), events[n]);
      assert Deaths(Initial, events)[..n] == Deaths(Initial, events[..n]);
    }
  }

  // ---- What the table does not promise ----

  /** A client that disconnects is still in the table exactly when it had started more than once. */
  lemma StaleAfterDisconnectIff(s: State, fd: int)
    requires Inv(s) && fd > 0
    ensures fd in Step(s, Disconnect(fd)).slots <==> multiset(s.slots)[fd] >= 2
  {
    RemoveFromBag(s, fd);
    var t := Remove(s, fd);
    assert fd in t.slots <==> fd in multiset(t.slots);
    assert Bag(t.slots)[fd] == multiset(t.slots)[fd];
    assert Bag(s.slots)[fd] == multiset(s.slots)[fd];
  }

  /** Only a stop request turns the sensor off: the last client may hang up and leave it on. */
  lemma DisconnectLeavesSensorOn(fd: int)
    requires fd > 0
    ensures Run(Initial, [Start(fd), Disconnect(fd)]) == Initial.(enabled := true)
  {
    assert [Start(fd), Disconnect(fd)][..1] == [Start(fd)];
    assert [Start(fd)][..0] == [];
    var s := Step(Initial, Start(fd));
    assert Run(Initial, [Start(fd)]) == Step(Run(Initial, []), Start(fd)) == s;
    assert First(Initial.slots, 0, 0) == 0;
    assert First(s.slots, fd, 0) == 0;
    assert s.slots[0 := 0] == Initial.slots;
  }

  /** The sensor is on although nobody listens. */
  predicate IdlesOn(s: State)
  {
    s.enabled && s.count == 0
  }

  predicate IsRequest(event: Event)
  {
    event.Start? || event.Stop?
  }

  /** One event leaves the sensor on for nobody exactly when it was on, the event is no request, and no
      client is left after it.
   */
  lemma StepIdlesOnIff(s: State, event: Event)
    requires Inv(s) && PositiveFd(event)
    ensures IdlesOn(Step(s, event)) <==>
              s.enabled && !IsRequest(event) && Bag(s.slots) - Leavers(s, event) == multiset{}
  {
    StepRefinesBag(s, event);
    hide Bag, Step, Dead;
    var t, dead := Step(s, event), DeadIn(s, event);
    assert t.count == 0 <==> Bag(t.slots) == multiset{};
    if event.Start? {
      assert event.fd in Abstract(s).bag + multiset{event.fd};
    }
  }

  /** The clients an event takes out of the table. */
  function Leavers(s: State, event: Event): multiset<int>
  {
    match event
    case Start(_) => multiset{}
    case Stop(fd) => multiset{fd}
    case Disconnect(fd) => multiset{fd}
    case Sample(outcomes) => Dead(s.slots, outcomes, MAX_STREAMING_CLIENTS)
  }

  /** Event k hangs up the last clients, and no request follows it. */
  predicate LastHangUp(events: seq<Event>, k: nat)
  {
    && k < |events| && !IsRequest(events[k])
    && Run(Initial, events[..k]).count > 0 && Run(Initial, events[..k + 1]).count == 0
    && forall i :: k < i < |events| ==> !IsRequest(events[i])
  }

  /** An earlier hang-up stays the last one as long as no request comes. */
  lemma HangUpExtends(before: seq<Event>, last: Event, k: nat)
    requires k < |before|
    ensures LastHangUp(before + [last], k) <==> LastHangUp(before, k) && !IsRequest(last)
  {
    var events := before + [last];
    assert before[..k] == events[..k] && before[..k + 1] == events[..k + 1];
    assert events[|before|] == last;
    hide Run, IsRequest;
    assert forall i :: 0 <= i < |before| ==> events[i] == before[i];
  }

  lemma IdlesOnToHangUp(before: seq<Event>, last: Event)
    requires IdlesOn(Run(Initial, before)) ==> exists k: nat :: LastHangUp(before, k)
    requires IdlesOn(Run(Initial, before + [last])) && !IsRequest(last)
    requires Run(Initial, before).count > 0 || IdlesOn(Run(Initial, before))
    ensures exists k: nat :: LastHangUp(before + [last], k)
  {
    hide Run;
    var events := before + [last];
    assert events[..|before|] == before;
    if Run(Initial, before).count > 0 {
      LastEvent(events);
    } else {
      var k: nat :| LastHangUp(before, k);
      HangUpExtends(before, last, k);
    }
  }

  lemma HangUpToIdlesOn(before: seq<Event>, last: Event, k: nat)
    requires LastHangUp(before + [last], k)
    ensures !IsRequest(last)
    ensures LastHangUp(before, k) || (Run(Initial, before).count > 0 && Run(Initial, before + [last]).count == 0)
  {
    var events := before + [last];
    assert events[|before|] == last;
    if k < |before| {
      HangUpExtends(before, last, k);
    } else {
      assert events[..k] == before && events[..k + 1] == events;
    }
  }

  /** Over every run, the sensor is on for nobody exactly when the last clients went by a hang-up or a
      failed write and no start or stop has come since.
   */
  lemma {:induction false} RunIdlesOnIff(events: seq<Event>)
    requires AllPositive(events)
    ensures IdlesOn(Run(Initial, events)) <==> exists k: nat :: LastHangUp(events, k)
    decreases |events|
  {
    if events == [] {
      assert Run(Initial, events) == Initial;
    } else {
      var n := |events| - 1;
      RunIdlesOnIff(events[..n]);
      assert events == events[..n] + [events[n]];
      IdlesOnNext(events[..n], events[n]);
    }
  }

  lemma IdlesOnNext(before: seq<Event>, last: Event)
    requires AllPositive(before) && PositiveFd(last)
    requires IdlesOn(Run(Initial, before)) <==> exists k: nat :: LastHangUp(before, k)
    ensures IdlesOn(Run(Initial, before + [last])) <==> exists k: nat :: LastHangUp(before + [last], k)
  {
    RunKeepsInv(before);
    RunSnoc(before, last);
    StepIdles(Run(Initial, before), last);
    hide Step, IdlesOn, Inv, Run, LastHangUp, AllPositive, PositiveFd, IsRequest;
    if IdlesOn(Run(Initial, before + [last])) {
      IdlesOnToHangUp(before, last);
    }
    if k: nat :| LastHangUp(before + [last], k) {
      HangUpToIdlesOn(before, last, k);
    }
  }

  lemma RunSnoc(before: seq<Event>, last: Event)
    ensures Run(Initial, before + [last]) == Step(Run(Initial, before), last)
  {
    assert (before + [last])[..|before|] == before;
  }

  lemma LastEvent(events: seq<Event>)
    requires events != [] && !IsRequest(events[|events| - 1])
    requires Run(Initial, events[..|events| - 1]).count > 0 && Run(Initial, events).count == 0
    ensures LastHangUp(events, |events| - 1)
  {
    assert events[..|events|] == events;
  }

  /** What one event does to the two facts. */
  lemma StepIdles(s: State, event: Event)
    requires Inv(s) && PositiveFd(event)
    ensures IdlesOn(Step(s, event)) ==> !IsRequest(event) && (s.count > 0 || IdlesOn(s))
    ensures !IsRequest(event) && IdlesOn(s) ==> IdlesOn(Step(s, event))
    ensures !IsRequest(event) && s.count > 0 && Step(s, event).count == 0 ==> IdlesOn(Step(s, event))
    ensures IdlesOn(Step(s, event)) ==> Step(s, event).count == 0
  {
    StepRefinesBag(s, event);
    hide Bag, Step, Dead;
    var t := Step(s, event);
    assert t.count == 0 <==> Bag(t.slots) == multiset{};
    assert s.count == 0 <==> Bag(s.slots) == multiset{};
    if event.Start? {
      assert event.fd in Abstract(s).bag + multiset{event.fd};
    }
  }
}
