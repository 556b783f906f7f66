/** The telemetry client's polling loop as a function of what the daemon does between its
    accesses, and how many records it prints.
 */
module TelemetryPolling {
  import opened TelemetryPage

  /** The daemon's accesses in one turn, one for each clock. */
  function WriterRun(s: State, turn: seq<real>): (r: State)
    requires WellFormed(s)
    ensures WellFormed(r)
    ensures r.reader == s.reader && r.lastSequence == s.lastSequence && r.polls == s.polls && r.samples == s.samples
  {
    if turn == [] then s else WriterStep(WriterRun(s, turn[..|turn| - 1]), turn[|turn| - 1])
  }

  /** The page after the daemon's next turn, if the schedule has one. */
  function Before(s: State, turns: seq<seq<real>>): (r: State)
    requires WellFormed(s)
    ensures WellFormed(r)
    ensures r.reader == s.reader && r.lastSequence == s.lastSequence && r.polls == s.polls && r.samples == s.samples
  {
    if turns == [] then s else WriterRun(s, turns[0])
  }

  /** The schedule n turns later. */
  function Drop(turns: seq<seq<real>>, n: nat): seq<seq<real>>
  {
    if |turns| <= n then [] else turns[n..]
  }

  datatype Watched = Watched(state: State, rest: seq<seq<real>>)

  /** The rest of a copy: a turn of the daemon before each field. */
  function CopyAll(s: State, turns: seq<seq<real>>): (w: Watched)
    requires WellFormed(s) && s.reader.Copying?
    ensures WellFormed(w.state) && w.state.reader.Copying? && |w.state.reader.got| == FIELDS
    ensures w.state.polls == s.polls && |w.rest| <= |turns|
    decreases FIELDS - |s.reader.got|
  {
    if |s.reader.got| == FIELDS then Watched(s, turns)
    else CopyAll(ReaderStep(Before(s, turns)), Drop(turns, 1))
  }

  /** One pass of the loop. */
  function Poll(s: State, turns: seq<seq<real>>): (w: Watched)
    requires WellFormed(s) && s.reader.Polling? && s.polls > 0
    ensures WellFormed(w.state) && w.state.reader.Polling?
    ensures turns != [] ==> |w.rest| < |turns|
  {
    var loaded := ReaderStep(Before(s, turns));
    var looked := ReaderStep(Before(loaded, Drop(turns, 1)));
    if looked.reader.Copying? then
      var w := CopyAll(looked, Drop(turns, 2));
      Watched(ReaderStep(w.state), w.rest)
    else Watched(looked, Drop(turns, 2))
  }

  /** Polls until ten records are printed or the schedule ends. */
  function Watch(s: State, turns: seq<seq<real>>): (w: Watched)
    requires WellFormed(s) && s.reader.Polling?
    ensures WellFormed(w.state) && w.state.reader.Polling?
    ensures w.state.polls == 0 || w.rest == []
    decreases |turns|
  {
    if s.polls == 0 || turns == [] then Watched(s, turns)
    else
      var w := Poll(s, turns);
      Watch(w.state, w.rest)
  }

  // ---- What a poll sees when nothing is written while it lasts ----

  predicate Quiet(turns: seq<seq<real>>, n: nat)
  {
    forall i :: 0 <= i < n && i < |turns| ==> turns[i] == []
  }

  lemma {:induction false} CopyAllQuiet(s: State, turns: seq<seq<real>>)
    requires WellFormed(s) && s.reader.Copying? && Quiet(turns, FIELDS - |s.reader.got|)
    ensures var n := FIELDS - |s.reader.got|;
            CopyAll(s, turns) == Watched(Copied(s, n), Drop(turns, n))
    decreases FIELDS - |s.reader.got|
  {
    var n := FIELDS - |s.reader.got|;
    if n == 0 {
      CopiedNone(s);
      assert turns != [] ==> turns[0..] == turns;
    } else {
      assert Before(s, turns) == s;
      var next := ReaderStep(s);
      CopiedMore(s);
      assert Quiet(Drop(turns, 1), n - 1);
      hide ReaderStep, Copied, Quiet;
      CopyAllQuiet(next, Drop(turns, 1));
      DropDrop(turns, 1, n - 1);
    }
  }

  lemma CopiedNone(s: State)
    requires WellFormed(s) && s.reader.Copying?
    ensures Copied(s, 0) == s
  {
    assert s.reader.got + s.data[|s.reader.got|..|s.reader.got|] == s.reader.got;
  }

  lemma CopiedMore(s: State)
    requires WellFormed(s) && s.reader.Copying? && |s.reader.got| < FIELDS
    ensures var r, n := ReaderStep(s), FIELDS - |s.reader.got|;
            && r.reader.Copying? && |r.reader.got| == |s.reader.got| + 1 && r.polls == s.polls
            && Copied(r, n - 1) == Copied(s, n)
  {
    var k := |s.reader.got|;
    assert s.reader.got + [s.data[k]] + s.data[k + 1..FIELDS] == s.reader.got + s.data[k..FIELDS];
  }

  lemma DropDrop(turns: seq<seq<real>>, m: nat, n: nat)
    ensures Drop(Drop(turns, m), n) == Drop(turns, m + n)
  {
  }

  /** A record printed and noted. */
  function Accepted(s: State): (r: State)
    requires WellFormed(s) && s.polls > 0
    ensures WellFormed(r)
  {
    s.(lastSequence := s.sequence, polls := s.polls - 1,
       samples := s.samples + [Sample(s.sequence, s.updates, s.data)])
  }

  predicate Takes(s: State)
  {
    s.sequence != s.lastSequence && !s.isWriting
  }

  /** A client that has looked and is about to copy. */
  function Looked(s: State): (r: State)
    requires WellFormed(s)
    ensures WellFormed(r) && r.reader.Copying? && r.reader.got == []
  {
    s.(reader := Copying(s.sequence, s.updates, s.updates, |s.clocks| - 1, []))
  }

  lemma LookQuiet(s: State)
    requires WellFormed(s) && s.reader.Polling? && s.polls > 0
    ensures ReaderStep(ReaderStep(s)) == if Takes(s) then Looked(s) else s
  {
  }

  lemma AcceptQuiet(s: State)
    requires WellFormed(s) && s.reader.Polling? && s.polls > 0
    ensures ReaderStep(Copied(Looked(s), FIELDS)) == Accepted(s)
  {
    assert [] + s.data[0..FIELDS] == s.data;
  }

  /** If the daemon rests from the sequence load on, the poll prints the whole page when the
      sequence is new and the flag clear, and otherwise nothing. */
  lemma PollQuiet(s: State, turns: seq<seq<real>>)
    requires WellFormed(s) && s.reader.Polling? && s.polls > 0
    requires turns != [] && Quiet(turns[1..], 10)
    ensures var r := WriterRun(s, turns[0]);
            Poll(s, turns) ==
              if Takes(r) then Watched(Accepted(r), Drop(turns, 11)) else Watched(r, Drop(turns, 2))
  {
    var r := WriterRun(s, turns[0]);
    var loaded := ReaderStep(r);
    assert Before(loaded, Drop(turns, 1)) == loaded && Quiet(Drop(turns, 2), 9);
    LookQuiet(r);
    hide WriterRun, ReaderStep, Copied, Accepted, Looked, Takes, Drop, Quiet;
    if Takes(r) {
      CopyAllQuiet(Looked(r), Drop(turns, 2));
      DropDrop(turns, 2, 9);
      AcceptQuiet(r);
    }
  }

  /** An idle daemon: one record with the page as it stands if its sequence is new and the
      flag clear, and none otherwise; nothing else changes. */
  lemma {:induction false} WatchIdle(s: State, turns: seq<seq<real>>)
    requires WellFormed(s) && s.reader.Polling? && s.polls > 0
    requires turns != [] && Quiet(turns, |turns|)
    ensures Watch(s, turns).state == if s.sequence != s.lastSequence && !s.isWriting then Accepted(s) else s
    decreases |turns|
  {
    PollQuiet(s, turns);
    var w := Poll(s, turns);
    assert Quiet(w.rest, |w.rest|);
    if w.state.polls > 0 && w.rest != [] {
      WatchIdle(w.state, w.rest);
    }
  }

  // ---- The daemon's half ----

  /** All the turns as one. */
  function Flat(turns: seq<seq<real>>): seq<real>
  {
    if turns == [] then [] else turns[0] + Flat(turns[1..])
  }

  /** The page and the daemon, with the client taken away. */
  function Daemon(s: State): (d: State)
    requires WellFormed(s)
    ensures WellFormed(d)
  {
    s.(reader := Polling, lastSequence := 0, polls := 0, samples := [])
  }

  lemma {:induction false} WriterRunSplits(s: State, first: seq<real>, then_: seq<real>)
    requires WellFormed(s)
    ensures WriterRun(s, first + then_) == WriterRun(WriterRun(s, first), then_)
    decreases |then_|
  {
    if then_ == [] {
      assert first + then_ == first;
    } else {
      var n := |then_| - 1;
      assert (first + then_)[..|first + then_| - 1] == first + then_[..n];
      WriterRunSplits(s, first, then_[..n]);
      hide WriterStep;
    }
  }

  lemma {:induction false} DaemonRuns(s: State, turn: seq<real>)
    requires WellFormed(s)
    ensures Daemon(WriterRun(s, turn)) == WriterRun(Daemon(s), turn)
  {
    if turn != [] {
      DaemonRuns(s, turn[..|turn| - 1]);
      DaemonStep(WriterRun(s, turn[..|turn| - 1]), turn[|turn| - 1]);
      hide WriterStep, Daemon;
    }
  }

  lemma DaemonStep(s: State, clock: real)
    requires WellFormed(s)
    ensures Daemon(WriterStep(s, clock)) == WriterStep(Daemon(s), clock)
  {
    hide FieldValue;
  }

  /** The daemon has run the first n turns of the schedule, and the others are left. */
  ghost predicate Ran(s: State, turns: seq<seq<real>>, r: State, rest: seq<seq<real>>)
    requires WellFormed(s) && WellFormed(r)
  {
    exists n: nat :: n <= |turns| && rest == turns[n..] && Daemon(r) == WriterRun(Daemon(s), Flat(turns[..n]))
  }

  lemma RanNone(s: State, turns: seq<seq<real>>)
    requires WellFormed(s)
    ensures Ran(s, turns, s, turns)
  {
    assert turns[0..] == turns && Flat(turns[..0]) == [];
  }

  lemma {:induction false} FlatSplits(turns: seq<seq<real>>, m: nat, n: nat)
    requires m + n <= |turns|
    ensures Flat(turns[..m + n]) == Flat(turns[..m]) + Flat(turns[m..][..n])
  {
    if m == 0 {
      assert turns[0..] == turns;
    } else {
      var later := turns[1..];
      FlatSplits(later, m - 1, n);
      assert turns[..m + n][1..] == later[..m - 1 + n] && turns[..m][1..] == later[..m - 1];
      assert turns[m..] == later[m - 1..];
    }
  }

  lemma RanThen(s: State, turns: seq<seq<real>>, r: State, rest: seq<seq<real>>, q: State, left: seq<seq<real>>)
    requires WellFormed(s) && WellFormed(r) && WellFormed(q)
    requires Ran(s, turns, r, rest) && Ran(r, rest, q, left)
    ensures Ran(s, turns, q, left)
  {
    hide WriterRun, Flat, Daemon;
    var m: nat :| m <= |turns| && rest == turns[m..] && Daemon(r) == WriterRun(Daemon(s), Flat(turns[..m]));
    var n: nat :| n <= |rest| && left == rest[n..] && Daemon(q) == WriterRun(Daemon(r), Flat(rest[..n]));
    FlatSplits(turns, m, n);
    WriterRunSplits(Daemon(s), Flat(turns[..m]), Flat(turns[m..][..n]));
    assert left == turns[m + n..];
  }

  /** One access of the client, with the daemon's turn before it. */
  lemma RanOne(s: State, turns: seq<seq<real>>)
    requires WellFormed(s)
    ensures Ran(s, turns, ReaderStep(Before(s, turns)), Drop(turns, 1))
  {
    var r := ReaderStep(Before(s, turns));
    assert Daemon(r) == Daemon(Before(s, turns));
    if turns == [] {
      assert Flat(turns[..0]) == [] && turns[0..] == [];
    } else {
      DaemonRuns(s, turns[0]);
      assert turns[..1][1..] == [] && Flat(turns[..1]) == turns[0] + [];
      assert turns[0] + [] == turns[0];
    }
  }

  lemma {:induction false} RanCopyAll(s: State, turns: seq<seq<real>>)
    requires WellFormed(s) && s.reader.Copying?
    ensures Ran(s, turns, CopyAll(s, turns).state, CopyAll(s, turns).rest)
    decreases FIELDS - |s.reader.got|
  {
    if |s.reader.got| == FIELDS {
      RanNone(s, turns);
    } else {
      var r, rest := ReaderStep(Before(s, turns)), Drop(turns, 1);
      RanOne(s, turns);
      RanCopyAll(r, rest);
      RanThen(s, turns, r, rest, CopyAll(s, turns).state, CopyAll(s, turns).rest);
    }
  }

  lemma RanPoll(s: State, turns: seq<seq<real>>)
    requires WellFormed(s) && s.reader.Polling? && s.polls > 0
    ensures Ran(s, turns, Poll(s, turns).state, Poll(s, turns).rest)
  {
    var loaded := ReaderStep(Before(s, turns));
    var looked := ReaderStep(Before(loaded, Drop(turns, 1)));
    RanOne(s, turns);
    RanOne(loaded, Drop(turns, 1));
    DropDrop(turns, 1, 1);
    RanThen(s, turns, loaded, Drop(turns, 1), looked, Drop(turns, 2));
    if looked.reader.Copying? {
      var w := CopyAll(looked, Drop(turns, 2));
      RanCopyAll(looked, Drop(turns, 2));
      RanThen(s, turns, looked, Drop(turns, 2), w.state, w.rest);
      assert Daemon(ReaderStep(w.state)) == Daemon(w.state);
    }
  }

  /** However the loop ends, the daemon has run as far as the schedule was used, and only a
      tenth record ends the loop before the schedule does. */
  lemma {:induction false} WatchRuns(s: State, turns: seq<seq<real>>)
    requires WellFormed(s) && s.reader.Polling?
    ensures Ran(s, turns, Watch(s, turns).state, Watch(s, turns).rest)
    ensures Watch(s, turns).state.polls > 0 ==>
              Daemon(Watch(s, turns).state) == WriterRun(Daemon(s), Flat(turns))
    decreases |turns|
  {
    hide Poll, Daemon, WriterRun, Flat;
    if s.polls == 0 || turns == [] {
      RanNone(s, turns);
    } else {
      var w := Poll(s, turns);
      RanPoll(s, turns);
      WatchRuns(w.state, w.rest);
      RanThen(s, turns, w.state, w.rest, Watch(s, turns).state, Watch(s, turns).rest);
    }
    assert turns[..|turns|] == turns;
  }

  // ---- An update before each poll ----

  /** The accesses of one whole update: the flag, nine fields, the flag, the sequence. */
  const UPDATE: nat := 12

  lemma {:induction false} StoresSoFar(s: State, turn: seq<real>, k: nat)
    requires WellFormed(s) && s.writer.Waiting? && k <= FIELDS && k < |turn|
    ensures var r := WriterRun(s, turn[..k + 1]);
            r.writer == Storing(k) && r.updates == s.updates && r.sequence == s.sequence
  {
    assert turn[..k + 1][..k] == turn[..k];
    if k > 0 {
      StoresSoFar(s, turn, k - 1);
    }
    assert turn[..0] == [];
  }

  lemma OneUpdate(s: State, turn: seq<real>)
    requires WellFormed(s) && s.writer.Waiting? && |turn| == UPDATE
    ensures var r := WriterRun(s, turn);
            && r.writer.Waiting? && !r.isWriting
            && r.updates == s.updates + 1 && r.sequence == (s.sequence + 1) % WORD
  {
    StoresSoFar(s, turn, FIELDS);
    assert turn[..11][..10] == turn[..10] && turn[..11] == turn[..UPDATE - 1];
  }

  lemma NextWord(q: nat, k: nat)
    requires k > 0
    ensures ((q + (k - 1)) % WORD + 1) % WORD == (q + k) % WORD
  {
  }

  lemma {:induction false} Updates(s: State, turn: seq<real>, k: nat)
    requires WellFormed(s) && s.writer.Waiting? && !s.isWriting && s.sequence < WORD && |turn| == UPDATE * k
    ensures var r := WriterRun(s, turn);
            && r.writer.Waiting? && !r.isWriting
            && r.updates == s.updates + k && r.sequence == (s.sequence + k) % WORD
  {
    if k > 0 {
      var n := |turn| - UPDATE;
      var first, last := turn[..n], turn[n..];
      assert turn == first + last;
      hide WriterRun;
      Updates(s, first, k - 1);
      WriterRunSplits(s, first, last);
      OneUpdate(WriterRun(s, first), last);
      NextWord(s.sequence, k);
    }
  }

  lemma {:induction false} WriterRunKeepsInv(s: State, turn: seq<real>)
    requires Inv(s)
    ensures Inv(WriterRun(s, turn)) && s.clocks <= WriterRun(s, turn).clocks
  {
    if turn != [] {
      var before := turn[..|turn| - 1];
      WriterRunKeepsInv(s, before);
      WriterKeepsInv(WriterRun(s, before), turn[|turn| - 1]);
      hide Inv;
    }
  }

  /** The client's eleven accesses behind each of the daemon's turns. */
  function Blocks(turns: seq<seq<real>>): seq<seq<real>>
  {
    if turns == [] then [] else [turns[0]] + seq(10, _ => []) + Blocks(turns[1..])
  }

  /** The updates in some turns. */
  function Total(turns: seq<seq<real>>): nat
  {
    if turns == [] then 0 else |turns[0]| / UPDATE + Total(turns[1..])
  }

  /** Each turn is whole updates and leads to a sequence the client has not printed last. */
  predicate NewEachTime(sequence: nat, last: nat, turns: seq<seq<real>>)
    decreases |turns|
  {
    turns == [] ||
    (&& |turns[0]| % UPDATE == 0
     && var now := (sequence + |turns[0]| / UPDATE) % WORD;
        now != last && NewEachTime(now, now, turns[1..]))
  }

  /** Record p carries update u's number and is update u in every field. */
  ghost predicate RecordOf(p: Sample, u: nat, clocks: seq<real>)
  {
    p.sequence == u % WORD && p.loadedAt == u && u < |clocks| && |p.got| == FIELDS && Whole(p.got, u, clocks)
  }

  lemma RecordStays(p: Sample, u: nat, clocks: seq<real>, more: seq<real>)
    requires RecordOf(p, u, clocks) && clocks <= more
    ensures RecordOf(p, u, more)
  {
  }

  lemma BlocksFirst(turns: seq<seq<real>>)
    requires turns != []
    ensures var all := Blocks(turns);
            && all != [] && all[0] == turns[0] && Quiet(all[1..], 10) && Drop(all, 11) == Blocks(turns[1..])
  {
    var all := Blocks(turns);
    assert all == [turns[0]] + seq(10, _ => []) + Blocks(turns[1..]);
    assert all[11..] == Blocks(turns[1..]);
  }

  lemma PageIsWhole(r: State)
    requires Inv(r) && r.writer.Waiting?
    ensures r.updates < |r.clocks| && Whole(r.data, r.updates, r.clocks) && r.sequence == r.updates % WORD
  {
    hide FieldValue;
    assert forall j :: 0 <= j < FIELDS ==> WriterOf(r, j) == r.updates;
  }

  /** Accepting a whole copy of a resting page is five kinds of reader steps in a row. */
  lemma AcceptedInv(r: State)
    requires Inv(r) && r.reader.Polling? && r.polls > 0 && r.sequence != r.lastSequence && !r.isWriting
    ensures Inv(Accepted(r))
  {
    var turns: seq<seq<real>> := [[]];
    PollQuiet(r, turns);
    PollKeepsInv(r, turns);
    hide Inv, Poll;
  }

  lemma {:induction false} CopyAllKeepsInv(s: State, turns: seq<seq<real>>)
    requires Inv(s) && s.reader.Copying?
    ensures Inv(CopyAll(s, turns).state)
    decreases FIELDS - |s.reader.got|
  {
    hide PageInv, ReaderInv, SamplesInv, WriterRun;
    if |s.reader.got| < FIELDS {
      BeforeKeepsInv(s, turns);
      ReaderKeepsInv(Before(s, turns));
      CopyAllKeepsInv(ReaderStep(Before(s, turns)), Drop(turns, 1));
    }
  }

  lemma BeforeKeepsInv(s: State, turns: seq<seq<real>>)
    requires Inv(s)
    ensures Inv(Before(s, turns))
  {
    if turns != [] {
      WriterRunKeepsInv(s, turns[0]);
    }
  }

  lemma PollKeepsInv(s: State, turns: seq<seq<real>>)
    requires Inv(s) && s.reader.Polling? && s.polls > 0
    ensures Inv(Poll(s, turns).state)
  {
    hide PageInv, ReaderInv, SamplesInv, WriterRun, Before;
    BeforeKeepsInv(s, turns);
    ReaderKeepsInv(Before(s, turns));
    var loaded := ReaderStep(Before(s, turns));
    BeforeKeepsInv(loaded, Drop(turns, 1));
    ReaderKeepsInv(Before(loaded, Drop(turns, 1)));
    var looked := ReaderStep(Before(loaded, Drop(turns, 1)));
    if looked.reader.Copying? {
      CopyAllKeepsInv(looked, Drop(turns, 2));
      ReaderKeepsInv(CopyAll(looked, Drop(turns, 2)).state);
    }
  }

  /** What accepting a whole page records. */
  lemma AcceptedRecord(r: State)
    requires Inv(r) && r.polls > 0 && r.writer.Waiting?
    ensures RecordOf(Accepted(r).samples[|r.samples|], r.updates, r.clocks)
  {
    PageIsWhole(r);
    hide PageInv, ReaderInv, SamplesInv, FieldValue;
  }

  lemma TurnEnds(s: State, turn: seq<real>, k: nat)
    requires Inv(s) && s.writer.Waiting? && |turn| == UPDATE * k
    ensures var r := WriterRun(s, turn);
            && Inv(r) && r.writer.Waiting? && !r.isWriting && s.clocks <= r.clocks
            && r.updates == s.updates + k && r.sequence == (s.sequence + k) % WORD
  {
    assert !s.isWriting && s.sequence < WORD;
    hide Inv, WriterRun;
    Updates(s, turn, k);
    WriterRunKeepsInv(s, turn);
  }

  lemma BlockPolls(s: State, turns: seq<seq<real>>)
    requires WellFormed(s) && s.reader.Polling? && s.polls > 0
    requires turns != [] && Takes(WriterRun(s, turns[0]))
    ensures Poll(s, Blocks(turns)) == Watched(Accepted(WriterRun(s, turns[0])), Blocks(turns[1..]))
  {
    BlocksFirst(turns);
    hide *;
    PollQuiet(s, Blocks(turns));
  }

  /** What accepting a resting page leaves. */
  lemma AcceptedFacts(r: State)
    requires Inv(r) && r.reader.Polling? && r.writer.Waiting? && r.polls > 0 && Takes(r)
    ensures var t := Accepted(r);
            && Inv(t) && t.writer.Waiting? && t.polls == r.polls - 1 && t.clocks == r.clocks
            && t.updates == r.updates && t.sequence == t.lastSequence == r.sequence
            && |t.samples| == |r.samples| + 1 && r.samples <= t.samples
            && RecordOf(t.samples[|r.samples|], r.updates, r.clocks)
  {
    AcceptedRecord(r);
    AcceptedInv(r);
    hide Inv, RecordOf;
  }

  /** One block prints one record, of the update the daemon has just finished. */
  lemma BlockPrints(s: State, turns: seq<seq<real>>, k: nat)
    requires Inv(s) && s.reader.Polling? && s.polls > 0 && s.writer.Waiting?
    requires turns != [] && |turns[0]| == UPDATE * k && (s.sequence + k) % WORD != s.lastSequence
    ensures var w := Poll(s, Blocks(turns));
            var r := w.state;
            && w.rest == Blocks(turns[1..]) && Inv(r) && r.writer.Waiting? && r.polls == s.polls - 1
            && s.clocks <= r.clocks && r.updates == s.updates + k
            && r.sequence == r.lastSequence == (s.sequence + k) % WORD
            && |r.samples| == |s.samples| + 1 && s.samples <= r.samples
            && RecordOf(r.samples[|s.samples|], r.updates, r.clocks)
  {
    assert WellFormed(s);
    TurnEnds(s, turns[0], k);
    var r := WriterRun(s, turns[0]);
    assert Takes(r);
    hide *;
    BlockPolls(s, turns);
    AcceptedFacts(r);
  }

  /** When the daemon finishes updates before each of n polls and none overlaps one, the client
      prints min(n, polls left) records, and record j is the update finished last before poll j. */
  lemma {:induction false} UpdatesPrinted(s: State, turns: seq<seq<real>>, j: nat)
    requires Inv(s) && s.reader.Polling? && s.writer.Waiting?
    requires NewEachTime(s.sequence, s.lastSequence, turns)
    ensures var f := Watch(s, Blocks(turns)).state;
            var n := if |turns| < s.polls then |turns| else s.polls;
            && s.samples <= f.samples && s.clocks <= f.clocks
            && |f.samples| == |s.samples| + n
            && (j < n ==> RecordOf(f.samples[|s.samples| + j], s.updates + Total(turns[..j + 1]), f.clocks))
    decreases |turns|
  {
    hide PageInv, ReaderInv, SamplesInv, RecordOf, Poll, WriterRun;
    if turns != [] && s.polls > 0 {
      BlocksFirst(turns);
      BlockPrints(s, turns, |turns[0]| / UPDATE);
      hide Blocks;
      var r := Poll(s, Blocks(turns)).state;
      UpdatesPrinted(r, turns[1..], if j > 0 then j - 1 else 0);
      var f := Watch(s, Blocks(turns)).state;
      if j == 0 {
        assert turns[..1][1..] == [];
        RecordStays(r.samples[|s.samples|], r.updates, r.clocks, f.clocks);
      } else if j < |turns| {
        assert turns[..j + 1][1..] == turns[1..][..j];
      }
    }
  }

  /** A printed record carries update u's number and is that update in all nine fields. */
  ghost predicate ShowsUpdate(record: (nat, seq<real>), u: nat, clocks: seq<real>)
  {
    u < |clocks| && record.0 == u % 4294967296 && |record.1| == 9 && Whole(record.1, u, clocks)
  }

  /** Record j shows the update finished last before poll j. */
  ghost predicate ShowsUpdates(printed: seq<(nat, seq<real>)>, updates: nat, turns: seq<seq<real>>, clocks: seq<real>)
  {
    |printed| == (if |turns| < 10 then |turns| else 10) &&
    forall j :: 0 <= j < |printed| ==> ShowsUpdate(printed[j], updates + Total(turns[..j + 1]), clocks)
  }

  lemma SampleShows(p: Sample, u: nat, clocks: seq<real>)
    requires RecordOf(p, u, clocks)
    ensures ShowsUpdate((p.sequence, p.got), u, clocks)
  {
  }

  lemma SamplesShow(s: State, turns: seq<seq<real>>, f: State, printed: seq<(nat, seq<real>)>)
    requires Inv(s) && WellFormed(s) && s.reader.Polling? && s.writer.Waiting? && s.samples == [] && s.polls == 10
    requires NewEachTime(s.sequence, s.lastSequence, turns) && f == Watch(s, Blocks(turns)).state
    requires |printed| == |f.samples|
    requires forall j :: 0 <= j < |printed| ==> printed[j] == (f.samples[j].sequence, f.samples[j].got)
    ensures ShowsUpdates(printed, s.updates, turns, f.clocks)
  {
    hide Inv, WellFormed, Watch, Blocks, NewEachTime, Total, ShowsUpdate, RecordOf;
    UpdatesPrinted(s, turns, 0);
    forall j | 0 <= j < |printed|
      ensures ShowsUpdate(printed[j], s.updates + Total(turns[..j + 1]), f.clocks)
    {
      UpdatesPrinted(s, turns, j);
      SampleShows(f.samples[j], s.updates + Total(turns[..j + 1]), f.clocks);
    }
  }

  /** Every turn is one whole update or several, fewer than `bound`. */
  predicate WholeUpdates(turns: seq<seq<real>>, bound: nat)
  {
    forall i :: 0 <= i < |turns| ==> |turns[i]| % 12 == 0 && 0 < |turns[i]| / 12 < bound
  }

  lemma {:induction false} SmallCountsAreNew(sequence: nat, turns: seq<seq<real>>)
    requires sequence < WORD
    requires WholeUpdates(turns, WORD)
    ensures NewEachTime(sequence, sequence, turns)
    decreases |turns|
  {
    if turns != [] {
      SmallCountsAreNew((sequence + |turns[0]| / UPDATE) % WORD, turns[1..]);
    }
  }

  /** So on a fresh page, with at least one and fewer than 2^32 - 1 updates before each of n
      polls, min(n, 10) records are printed, each the whole update finished last. */
  lemma FreshPagePrinted(turns: seq<seq<real>>, f: State, printed: seq<(nat, seq<real>)>)
    requires WholeUpdates(turns, 4294967295) && f == Watch(Init(), Blocks(turns)).state
    requires |printed| == |f.samples|
    requires forall j :: 0 <= j < |printed| ==> printed[j] == (f.samples[j].sequence, f.samples[j].got)
    ensures ShowsUpdates(printed, 0, turns, f.clocks)
  {
    hide Inv, WellFormed, Watch, Blocks, NewEachTime, Total, ShowsUpdates, Init, WholeUpdates;
    InitFacts();
    FreshCountsAreNew(turns);
    SamplesShow(Init(), turns, f, printed);
  }

  lemma FreshCountsAreNew(turns: seq<seq<real>>)
    requires WholeUpdates(turns, 4294967295)
    ensures NewEachTime(0, NO_SEQUENCE, turns)
  {
    if turns != [] {
      SmallCountsAreNew((|turns[0]| / UPDATE) % WORD, turns[1..]);
    }
  }

  lemma InitFacts()
    ensures Inv(Init()) && WellFormed(Init()) && Init().reader.Polling? && Init().writer.Waiting?
    ensures Init().sequence == 0 && Init().lastSequence == NO_SEQUENCE && Init().updates == 0
    ensures Init().samples == [] && Init().polls == 10
  {
  }

  /** Such a record holds the clock and the eight simulated readings of its update. */
  lemma RecordValues(p: Sample, u: nat, clocks: seq<real>)
    requires RecordOf(p, u, clocks) && u > 0
    ensures var n := (u - 1) % 4294967296;
            p.got == [clocks[u],
                      0.05 * (n % 20) as real, -0.12 * (n % 15) as real, 9.81 + 0.02 * (n % 10) as real,
                      0.01 * (n % 5) as real, -0.015 * (n % 7) as real, 0.003 * (n % 12) as real,
                      (65 + n % 5) as real, (3 + n % 3) as real]
  {
    assert p.got == [p.got[0], p.got[1], p.got[2], p.got[3], p.got[4], p.got[5], p.got[6], p.got[7], p.got[8]];
  }
}
