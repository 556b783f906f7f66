/** The sensors daemon's streaming side in the form of the C code. */
module SensorsDaemon {
  import opened Wire
  import opened SensorStream
  import BrokerProtocol

  type IpcHeader = BrokerProtocol.IpcHeader

  const SUBSYSTEM_SENSORS: u16 := 3
  const CMD_SENSORS_START_STREAM: u16 := 400
  const CMD_SENSORS_STOP_STREAM: u16 := 401
  const CMD_SENSORS_GET_CAPS: u16 := 402
  const STATUS_OK: i32 := 0
  const STATUS_ERROR: i32 := -1
  const STATUS_UNSUPPORTED: i32 := -2

  const CAPS := "{\"sensor_type\": \"Accelerometer\", \"vendor\": \"AOSP_NDK\", \"rate_hz\": 50}"

  datatype Write = HeaderTo(fd: int) | EventTo(fd: int)

  /** The writes to one slot. */
  function Attempt(fd: int, outcome: Outcome): seq<Write>
  {
    if fd <= 0 then [] else if outcome.HeaderLost? then [HeaderTo(fd)] else [HeaderTo(fd), EventTo(fd)]
  }

  /** The writes of a broadcast over the first n slots as they stood when it began. */
  function Attempts(slots: Slots, outcomes: Broadcast, n: nat): seq<Write>
    requires n <= MAX_STREAMING_CLIENTS
  {
    if n == 0 then
      []
    else
      Attempts(slots, outcomes, n - 1) + Attempt(slots[n - 1], outcomes[n - 1])
  }

  lemma AttemptsNext(before: seq<Write>, slots: Slots, outcomes: Broadcast, n: nat)
    requires n < MAX_STREAMING_CLIENTS
    ensures before + Attempts(slots, outcomes, n + 1)
         == before + Attempts(slots, outcomes, n) + Attempt(slots[n], outcomes[n])
  {
    hide Attempt;
  }

  function Times(writes: seq<Write>, w: Write): nat
  {
    if writes == [] then 0 else Times(writes[..|writes| - 1], w) + if writes[|writes| - 1] == w then 1 else 0
  }

  /** How many of the first n slots a client has. */
  function Holding(slots: Slots, fd: int, n: nat): nat
    requires n <= MAX_STREAMING_CLIENTS
  {
    if n == 0 then 0 else Holding(slots, fd, n - 1) + if slots[n - 1] == fd then 1 else 0
  }

  /** And how many of those see their header go out. */
  function Reached(slots: Slots, outcomes: Broadcast, fd: int, n: nat): nat
    requires n <= MAX_STREAMING_CLIENTS
  {
    if n == 0 then 0
    else Reached(slots, outcomes, fd, n - 1) + if slots[n - 1] == fd && !outcomes[n - 1].HeaderLost? then 1 else 0
  }

  lemma {:induction false} TimesSplit(first: seq<Write>, second: seq<Write>, w: Write)
    ensures Times(first + second, w) == Times(first, w) + Times(second, w)
    decreases |second|
  {
    if second == [] {
      assert first + second == first;
    } else {
      assert (first + second)[..|first + second| - 1] == first + second[..|second| - 1];
      TimesSplit(first, second[..|second| - 1], w);
    }
  }

  lemma AttemptTimes(client: int, outcome: Outcome, fd: int)
    requires fd > 0
    ensures Times(Attempt(client, outcome), HeaderTo(fd)) == if client == fd then 1 else 0
    ensures Times(Attempt(client, outcome), EventTo(fd)) == if client == fd && !outcome.HeaderLost? then 1 else 0
  {
    assert [HeaderTo(client)] == [] + [HeaderTo(client)];
    assert [HeaderTo(client), EventTo(client)] == [HeaderTo(client)] + [EventTo(client)];
    OneWrite([], HeaderTo(client), HeaderTo(fd));
    OneWrite([], HeaderTo(client), EventTo(fd));
    OneWrite([HeaderTo(client)], EventTo(client), HeaderTo(fd));
    OneWrite([HeaderTo(client)], EventTo(client), EventTo(fd));
  }

  lemma OneWrite(before: seq<Write>, write: Write, w: Write)
    ensures Times(before + [write], w) == Times(before, w) + if write == w then 1 else 0
    ensures Times([], w) == 0
  {
    assert (before + [write])[..|before|] == before;
  }

  /** Every client is sent one header for each of its slots, and one event for each of them
      whose header was not lost. */
  lemma {:induction false} AttemptsCount(slots: Slots, outcomes: Broadcast, n: nat, fd: int)
    requires n <= MAX_STREAMING_CLIENTS && fd > 0
    ensures Times(Attempts(slots, outcomes, n), HeaderTo(fd)) == Holding(slots, fd, n)
    ensures Times(Attempts(slots, outcomes, n), EventTo(fd)) == Reached(slots, outcomes, fd, n)
  {
    if n > 0 {
      AttemptsCount(slots, outcomes, n - 1, fd);
      AttemptTimes(slots[n - 1], outcomes[n - 1], fd);
      hide Times, Attempt;
      TimesSplit(Attempts(slots, outcomes, n - 1), Attempt(slots[n - 1], outcomes[n - 1]), HeaderTo(fd));
      TimesSplit(Attempts(slots, outcomes, n - 1), Attempt(slots[n - 1], outcomes[n - 1]), EventTo(fd));
    }
  }

  /** Nothing is sent to an empty slot, and an event only right behind its header. */
  lemma {:induction false} EventsFollowHeaders(slots: Slots, outcomes: Broadcast, n: nat, i: nat)
    requires n <= MAX_STREAMING_CLIENTS && i < |Attempts(slots, outcomes, n)|
    ensures var writes := Attempts(slots, outcomes, n);
            writes[i].fd > 0 && (writes[i].EventTo? ==> i > 0 && writes[i - 1] == HeaderTo(writes[i].fd))
  {
    if n > 0 && i < |Attempts(slots, outcomes, n - 1)| {
      EventsFollowHeaders(slots, outcomes, n - 1, i);
    }
  }

  /** A request the daemon acts on for a client, if it is one about streaming. */
  predicate IsStreaming(h: IpcHeader)
  {
    h.magic == 0x4E41434C && h.subsystem == 3 && (h.command == 400 || h.command == 401)
  }

  class Daemon {
    const streamingClients: array<int>
    var activeClientsCount: int
    var sensorEnabled: bool
    ghost var writes: seq<Write>
    ghost var events: seq<Event>

    ghost function View(): State
      requires streamingClients.Length == MAX_STREAMING_CLIENTS
      reads this, streamingClients
    {
      State(streamingClients[..], activeClientsCount, sensorEnabled)
    }

    /** The table is what the events so far make of it, and every descriptor in them was positive. */
    ghost predicate Valid()
      reads this, streamingClients
    {
      && streamingClients.Length == MAX_STREAMING_CLIENTS
      && AllPositive(events)
      && View() == Run(Initial, events)
    }

    constructor ()
      ensures Valid() && fresh(streamingClients)
      ensures View() == Initial && writes == []
    {
      streamingClients := new int[MAX_STREAMING_CLIENTS](_ => 0);
      activeClientsCount := 0;
      sensorEnabled := false;
      writes := [];
      events := [];
      new;
      assert streamingClients[..] == Initial.slots;
    }

    ghost method Happened(event: Event, was: State)
      requires streamingClients.Length == MAX_STREAMING_CLIENTS
      requires AllPositive(events)
      requires was == Run(Initial, events) && PositiveFd(event) && View() == Step(was, event)
      modifies `events
      ensures Valid() && View() == old(View())
    {
      assert (events + [event])[..|events|] == events;
      events := events + [event];
    }

    /** add_streaming_client. */
    method AddStreamingClient(fd: int)
      requires streamingClients.Length == MAX_STREAMING_CLIENTS
      modifies streamingClients, `activeClientsCount
      ensures View() == Add(old(View()), fd)
    {
      for i := 0 to MAX_STREAMING_CLIENTS
        invariant View() == old(View())
        invariant First(streamingClients[..], 0, 0) == First(streamingClients[..], 0, i)
      {
        if streamingClients[i] == 0 {
          streamingClients[i] := fd;
          activeClientsCount := activeClientsCount + 1;
          return;
        }
      }
    }

    /** remove_streaming_client. */
    method RemoveStreamingClient(fd: int)
      requires streamingClients.Length == MAX_STREAMING_CLIENTS
      modifies streamingClients, `activeClientsCount
      ensures View() == Remove(old(View()), fd)
    {
      for i := 0 to MAX_STREAMING_CLIENTS
        invariant View() == old(View())
        invariant First(streamingClients[..], fd, 0) == First(streamingClients[..], fd, i)
      {
        if streamingClients[i] == fd {
          streamingClients[i] := 0;
          activeClientsCount := activeClientsCount - 1;
          return;
        }
      }
    }

    /** broadcast_sensor_event: every client that had a slot when it began is written to once per slot,
        though slots are cleared on the way.
     */
    method BroadcastSensorEvent(outcomes: Broadcast)
      requires Valid()
      modifies this, streamingClients
      ensures Valid() && View() == Step(old(View()), Sample(outcomes))
      ensures writes == old(writes) + Attempts(old(streamingClients[..]), outcomes, MAX_STREAMING_CLIENTS)
    {
      ghost var was := View();
      RunKeepsInv(events);
      hide Inv, Run, Visited, Attempts;
      VisitSlots(outcomes);
      Happened(Sample(outcomes), was);
    }

    method VisitSlots(outcomes: Broadcast)
      requires streamingClients.Length == MAX_STREAMING_CLIENTS && Inv(View())
      modifies streamingClients, `activeClientsCount, `writes
      ensures View() == Visited(old(View()), outcomes, MAX_STREAMING_CLIENTS)
      ensures writes == old(writes) + Attempts(old(View()).slots, outcomes, MAX_STREAMING_CLIENTS)
    {
      ghost var was := View();
      ghost var before := writes;
      assert before + Attempts(was.slots, outcomes, 0) == before;
      assert Visited(was, outcomes, 0) == was;
      hide Inv, Remove, Attempt, Attempts, Visited;
      for i := 0 to MAX_STREAMING_CLIENTS
        invariant View() == Visited(was, outcomes, i)
        invariant writes == before + Attempts(was.slots, outcomes, i)
      {
        NotYetVisited(was, outcomes, i);
        AttemptsNext(before, was.slots, outcomes, i);
        SendTo(i, outcomes[i]);
      }
    }

    /** One turn of the broadcast loop. */
    method SendTo(i: nat, outcome: Outcome)
      requires streamingClients.Length == MAX_STREAMING_CLIENTS && i < MAX_STREAMING_CLIENTS
      modifies streamingClients, `activeClientsCount, `writes
      ensures var fd := old(streamingClients[i]);
              && View() == (if fd > 0 && outcome.Drops() then Remove(old(View()), fd) else old(View()))
              && writes == old(writes) + Attempt(fd, outcome)
    {
      var fd := streamingClients[i];
      if fd > 0 {
        writes := writes + [HeaderTo(fd)];
        if outcome.HeaderLost? {
          if outcome.gone {
            RemoveStreamingClient(fd);
          }
          return;
        }
        writes := writes + [EventTo(fd)];
        if outcome.EventLost? && outcome.gone {
          RemoveStreamingClient(fd);
        }
      }
    }

    /** handle_client_request: the header written back. */
    method HandleClientRequest(fd: int, h: IpcHeader) returns (response: IpcHeader)
      requires Valid() && fd > 0
      modifies this, streamingClients
      ensures Valid() && writes == old(writes)
      ensures !IsStreaming(h) ==> View() == old(View())
      ensures IsStreaming(h) ==>
                View() == Step(old(View()), if h.command == 400 then Start(fd) else Stop(fd))
      ensures response.(status := h.status, payloadLen := h.payloadLen) == h
      ensures response.status == 0 || response.status == -1 || response.status == -2
      ensures response.payloadLen == 0 || response.payloadLen == 70
      ensures response.status == 0 <==> IsStreaming(h) || response.payloadLen > 0
      ensures response.status == -1 <==> h.magic != 0x4E41434C
      ensures response.payloadLen > 0 <==> h.magic == 0x4E41434C && h.subsystem == 3 && h.command == 402
    {
      response := h.(status := STATUS_OK, payloadLen := 0);
      ghost var was := View();
      if h.magic != BrokerProtocol.IPC_MAGIC {
        response := response.(status := STATUS_ERROR);
      } else if h.subsystem == SUBSYSTEM_SENSORS {
        if h.command == CMD_SENSORS_START_STREAM {
          AddStreamingClient(fd);
          sensorEnabled := true;
          Happened(Start(fd), was);
        } else if h.command == CMD_SENSORS_STOP_STREAM {
          RemoveStreamingClient(fd);
          if activeClientsCount == 0 {
            sensorEnabled := false;
          }
          Happened(Stop(fd), was);
        } else if h.command == CMD_SENSORS_GET_CAPS {
          response := response.(payloadLen := |CAPS| + 1);
        } else {
          response := response.(status := STATUS_UNSUPPORTED);
        }
      } else {
        response := response.(status := STATUS_UNSUPPORTED);
      }
    }

    /** The read of 0 or less in main. */
    method ClientDisconnected(fd: int)
      requires Valid() && fd > 0
      modifies this, streamingClients
      ensures Valid() && writes == old(writes)
      ensures View() == Step(old(View()), Disconnect(fd))
    {
      ghost var was := View();
      RemoveStreamingClient(fd);
      Happened(Disconnect(fd), was);
    }

    /** In every state the daemon reaches, the count it keeps is right and the sensor serves whoever listens. */
    lemma CountIsRight()
      requires Valid()
      ensures activeClientsCount == |Bag(streamingClients[..])|
      ensures 0 <= activeClientsCount <= MAX_STREAMING_CLIENTS
      ensures activeClientsCount > 0 ==> sensorEnabled
    {
      RunKeepsInv(events);
      CountIsOccupancy(events);
    }
  }
}
