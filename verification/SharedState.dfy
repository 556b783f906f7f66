/** The shared page in the shape of the C code: fields stored in place by the daemon's update
    sequence, copied by the client's polling loop, each with the other process running in
    between. `Valid` ties the memory to a run of the TelemetryPage machine.
 */
module SharedState {
  import opened TelemetryPage
  import opened TelemetryPolling

  class SharedStateBuffer {
    var sequence: nat
    var isWriting: bool
    const data: array<real>

    // the daemon's locals and place in its loop
    var simulatedSeq: nat
    var timestamp: real
    var writer: Writer

    // the client's locals
    var lastSequence: nat
    var polls: nat

    ghost var reader: Reader
    ghost var samples: seq<Sample>
    ghost var updates: nat
    ghost var clocks: seq<real>
    ghost var trace: seq<Action>

    ghost function View(): State
      reads this, data
    {
      State(sequence, isWriting, data[..], writer, reader, lastSequence, polls, updates, clocks, samples)
    }

    ghost predicate Valid()
      reads this, data
    {
      && data.Length == FIELDS
      && Inv(View()) && View() == Run(Init(), trace)
      && simulatedSeq == updates % WORD
      && (writer.Storing? ==> timestamp == clocks[|clocks| - 1])
    }

    lemma ValidReachable()
      requires Valid()
      ensures Reachable(View())
    {
    }

    constructor ()
      ensures Valid() && fresh(data) && writer == Waiting && reader == Polling && samples == [] && polls == POLLS
    {
      var page := new real[FIELDS](_ => 0.0);
      data := page;
      sequence, isWriting, writer, simulatedSeq, timestamp := 0, false, Waiting, 0, 0.0;
      reader, lastSequence, polls, samples := Polling, NO_SEQUENCE, POLLS, [];
      updates, clocks, trace := 0, [0.0], [];
      new;
      assert data[..] == Init().data;
    }

    twostate lemma Stepped(a: Action)
      requires old(Valid()) && data.Length == FIELDS
      requires View() == Step(old(View()), a) && trace == old(trace) + [a]
      ensures Inv(View()) && View() == Run(Init(), trace)
    {
      RunAppend(Init(), old(trace), a);
      match a
      case Write(clock) => WriterKeepsInv(old(View()), clock);
      case Read => ReaderKeepsInv(old(View()));
    }

    // ---- The daemon's accesses ----

    method RaiseFlag(clock: real)
      requires Valid() && writer.Waiting?
      modifies `isWriting, `timestamp, `writer, `clocks, `trace
      ensures View() == WriterStep(old(View()), clock)
      ensures Valid() && isWriting && writer == Storing(0) && clocks == old(clocks) + [clock]
    {
      isWriting := true;
      timestamp := clock;
      clocks := clocks + [clock];
      writer := Storing(0);
      trace := trace + [Write(clock)];
      Stepped(Write(clock));
    }

    method StoreField()
      requires Valid() && writer.Storing? && writer.fields < FIELDS
      modifies data, `writer, `trace
      ensures forall clock :: View() == WriterStep(old(View()), clock)
      ensures Valid() && writer == Storing(old(writer.fields) + 1)
      ensures data[..] == old(data[..])[old(writer.fields) := Telemetry(simulatedSeq, old(writer.fields), timestamp)]
    {
      var k := writer.fields;
      data[k] := Telemetry(simulatedSeq, k, timestamp);
      writer := Storing(k + 1);
      trace := trace + [Write(0.0)];
      assert old(FieldValue(|clocks| - 1, k, clocks)) == data[k];
      Stepped(Write(0.0));
    }

    method ClearFlag()
      requires Valid() && writer == Storing(FIELDS)
      modifies `isWriting, `writer, `trace
      ensures forall clock :: View() == WriterStep(old(View()), clock)
      ensures Valid() && writer == Cleared && !isWriting
    {
      isWriting := false;
      writer := Cleared;
      trace := trace + [Write(0.0)];
      Stepped(Write(0.0));
    }

    method StoreSequence()
      requires Valid() && writer.Cleared?
      modifies `sequence, `simulatedSeq, `updates, `writer, `trace
      ensures forall clock :: View() == WriterStep(old(View()), clock)
      ensures Valid() && writer == Waiting && updates == old(updates) + 1
      ensures sequence == simulatedSeq == (old(simulatedSeq) + 1) % WORD
    {
      simulatedSeq := (simulatedSeq + 1) % WORD;
      sequence := simulatedSeq;
      updates := updates + 1;
      writer := Waiting;
      trace := trace + [Write(0.0)];
      Stepped(Write(0.0));
    }

    /** One pass of the daemon's loop body. The client never writes to the page, so nothing
        that runs in between can be seen here. */
    method PublishUpdate(clock: real)
      requires Valid() && writer.Waiting?
      modifies data, `sequence, `isWriting, `simulatedSeq, `timestamp, `writer, `updates, `clocks, `trace
      ensures Valid() && writer.Waiting? && !isWriting && updates == old(updates) + 1
      ensures clocks == old(clocks) + [clock] && sequence == (old(sequence) + 1) % WORD
      ensures Whole(data[..], updates, clocks)
    {
      hide Valid;
      RaiseFlag(clock);
      for k := 0 to FIELDS
        invariant Valid() && writer == Storing(k) && isWriting
        invariant clocks == old(clocks) + [clock] && updates == old(updates) && sequence == old(sequence)
      {
        StoreField();
      }
      ClearFlag();
      WholePage();
      StoreSequence();
      WholePage();
    }

    /** Between updates the page is one update's. */
    lemma WholePage()
      requires Valid() && !writer.Storing?
      ensures !isWriting && simulatedSeq == sequence
      ensures |clocks| - 1 == updates + (if writer.Waiting? then 0 else 1)
      ensures Whole(data[..], |clocks| - 1, clocks)
    {
      hide FieldValue;
      assert forall j :: 0 <= j < FIELDS ==> WriterOf(View(), j) == |clocks| - 1;
    }

    /** The daemon's progress between two accesses of the client, one access per clock. */
    method DaemonTurn(turn: seq<real>)
      requires Valid()
      modifies data, `sequence, `isWriting, `simulatedSeq, `timestamp, `writer, `updates, `clocks, `trace
      ensures View() == WriterRun(old(View()), turn)
      ensures Valid() && old(updates) <= updates && old(clocks) <= clocks
    {
      for i := 0 to |turn|
        invariant Valid() && old(updates) <= updates && old(clocks) <= clocks
        invariant View() == WriterRun(old(View()), turn[..i])
      {
        assert turn[..i + 1][..i] == turn[..i];
        hide WriterStep, Valid;
        DaemonAccess(turn[i]);
      }
      assert turn[..|turn|] == turn;
    }

    /** One access. */
    method DaemonAccess(clock: real)
      requires Valid()
      modifies data, `sequence, `isWriting, `simulatedSeq, `timestamp, `writer, `updates, `clocks, `trace
      ensures View() == WriterStep(old(View()), clock)
      ensures Valid() && old(updates) <= updates && old(clocks) <= clocks
    {
      match writer {
        case Waiting => RaiseFlag(clock);
        case Storing(k) => if k < FIELDS { StoreField(); } else { ClearFlag(); }
        case Cleared => StoreSequence();
      }
    }

    // ---- The client's accesses ----

    method LoadSequence() returns (q: nat)
      requires Valid() && reader.Polling? && polls > 0
      modifies `reader, `trace
      ensures View() == ReaderStep(old(View()))
      ensures Valid() && q == sequence && reader == Loaded(q, updates)
    {
      q := sequence;
      reader := Loaded(q, updates);
      trace := trace + [Read];
      Stepped(Read);
    }

    /** Both conditions of the client's test: a new sequence, and a clear flag. */
    method LooksComplete(q: nat) returns (take: bool)
      requires Valid() && reader.Loaded? && reader.sequence == q
      modifies `reader, `trace
      ensures View() == ReaderStep(old(View()))
      ensures Valid() && (take <==> q != lastSequence && !isWriting)
      ensures reader == if take then Copying(q, old(reader.loadedAt), updates, |clocks| - 1, []) else Polling
    {
      take := q != lastSequence && !isWriting;
      reader := if take then Copying(q, reader.loadedAt, updates, |clocks| - 1, []) else Polling;
      trace := trace + [Read];
      Stepped(Read);
    }

    method CopyField(got: seq<real>) returns (value: real)
      requires Valid() && reader.Copying? && reader.got == got && |got| < FIELDS
      modifies `reader, `trace
      ensures View() == ReaderStep(old(View()))
      ensures Valid() && value == data[|got|]
      ensures reader == old(reader).(got := got + [value])
    {
      value := data[|got|];
      reader := reader.(got := got + [value]);
      trace := trace + [Read];
      Stepped(Read);
    }

    method Accept(q: nat)
      requires Valid() && reader.Copying? && reader.sequence == q && |reader.got| == FIELDS
      modifies `reader, `trace, `lastSequence, `polls, `samples
      ensures View() == ReaderStep(old(View()))
      ensures Valid() && reader == Polling && lastSequence == q && polls == old(polls) - 1
      ensures samples == old(samples) + [Sample(q, old(reader.loadedAt), old(reader.got))]
    {
      lastSequence := q;
      polls := polls - 1;
      samples := samples + [Sample(q, reader.loadedAt, reader.got)];
      reader := Polling;
      trace := trace + [Read];
      Stepped(Read);
    }

    /** What the daemon does before the client's next access, while the schedule lasts. */
    method Preempt(turns: seq<seq<real>>) returns (rest: seq<seq<real>>)
      requires Valid()
      modifies data, `sequence, `isWriting, `simulatedSeq, `timestamp, `writer, `updates, `clocks, `trace
      ensures View() == Before(old(View()), turns)
      ensures Valid() && old(updates) <= updates && old(clocks) <= clocks
      ensures rest == Drop(turns, 1)
    {
      rest := turns;
      if turns != [] {
        DaemonTurn(turns[0]);
        rest := turns[1..];
      }
    }

    /** The copy of one record. */
    method CopyFields(turns: seq<seq<real>>) returns (got: seq<real>, rest: seq<seq<real>>)
      requires Valid() && reader.Copying? && reader.got == []
      modifies data, `reader, `sequence, `isWriting, `simulatedSeq, `timestamp, `writer, `updates, `clocks, `trace
      ensures Watched(View(), rest) == CopyAll(old(View()), turns)
      ensures Valid() && |got| == FIELDS && reader == old(reader).(got := got)
      ensures |rest| <= |turns|
    {
      got, rest := [], turns;
      ghost var whole := CopyAll(View(), turns);
      while |got| < FIELDS
        invariant Valid() && |got| <= FIELDS && reader == old(reader).(got := got)
        invariant CopyAll(View(), rest) == whole
        invariant |rest| <= |turns|
      {
        hide Valid, ReaderStep, Before;
        rest := Preempt(rest);
        var value := CopyField(got);
        got := got + [value];
      }
    }

    /** One pass of the polling loop. */
    method PollOnce(turns: seq<seq<real>>, printed: seq<(nat, seq<real>)>)
      returns (nowPrinted: seq<(nat, seq<real>)>, rest: seq<seq<real>>)
      requires Valid() && reader.Polling? && polls > 0 && Shown(printed)
      modifies this, data
      ensures Watched(View(), rest) == Poll(old(View()), turns)
      ensures Valid() && reader.Polling? && Shown(nowPrinted)
    {
      hide Valid, ReaderStep, Before, CopyAll;
      nowPrinted, rest := printed, turns;
      rest := Preempt(rest);
      var currentSeq := LoadSequence();
      rest := Preempt(rest);
      DropDrop(turns, 1, 1);
      var take := LooksComplete(currentSeq);
      if take {
        var got;
        got, rest := CopyFields(rest);
        Accept(currentSeq);
        nowPrinted := printed + [(currentSeq, got)];
      }
    }

    /** The records printed are the samples noted. */
    ghost predicate Shown(printed: seq<(nat, seq<real>)>)
      reads this
    {
      |printed| == |samples| &&
      forall i :: 0 <= i < |printed| ==> printed[i] == (samples[i].sequence, samples[i].got)
    }

    /** The client's polling loop, watched until it has printed ten records or the schedule
        ends. While the daemon is idle it prints the page once if its sequence is new and the
        flag clear, and otherwise nothing. Each record carries a later update number than the
        one before, and each field in it was stored by that update or one begun since. */
    method Monitor(turns: seq<seq<real>>) returns (printed: seq<(nat, seq<real>)>, rest: seq<seq<real>>)
      requires Valid() && reader.Polling? && samples == []
      modifies this, data
      ensures Watched(View(), rest) == Watch(old(View()), turns)
      ensures polls == 0 || rest == []
      ensures turns != [] && Quiet(turns, |turns|) ==>
                printed == if old(sequence) != old(lastSequence) && !old(isWriting) then [(old(sequence), old(data[..]))] else []
      ensures Valid() && |printed| == |samples| == POLLS - polls
      ensures forall i :: 0 <= i < |printed| ==>
                printed[i] == (samples[i].sequence, samples[i].got) && SampleInv(samples[i], View())
      ensures forall i, j :: 0 <= i < j < |samples| ==> samples[i].loadedAt < samples[j].loadedAt
    {
      SamplesSound();
      if turns != [] && Quiet(turns, |turns|) {
        WatchIdle(View(), turns);
      }
      hide Valid, Inv, Poll;
      printed, rest := [], turns;
      ghost var whole := Watch(View(), turns);
      while polls > 0 && rest != []
        invariant Valid() && reader.Polling? && Shown(printed)
        invariant Watch(View(), rest) == whole
        decreases |rest|
      {
        printed, rest := PollOnce(rest, printed);
      }
      SamplesSound();
    }

    /** The same when the daemon finishes updates before each poll and none overlaps one:
        min(n, 10) records for n polls, each of them one whole update, the last one finished. */
    method MonitorUpdates(turns: seq<seq<real>>) returns (printed: seq<(nat, seq<real>)>)
      requires Valid() && reader.Polling? && samples == [] && writer.Waiting?
      requires NewEachTime(sequence, lastSequence, turns)
      modifies this, data
      ensures Valid() && ShowsUpdates(printed, old(updates), turns, clocks)
    {
      ghost var before := View();
      assert Inv(before) && WellFormed(before) && before.samples == [] && before.polls == 10;
      hide *;
      var rest;
      printed, rest := Monitor(Blocks(turns));
      SamplesShow(before, turns, View(), printed);
    }

    lemma SamplesSound()
      requires Valid()
      ensures |samples| == POLLS - polls
      ensures forall i :: 0 <= i < |samples| ==> SampleInv(samples[i], View())
      ensures forall i, j :: 0 <= i < j < |samples| ==> samples[i].loadedAt < samples[j].loadedAt
    {
    }
  }
}
