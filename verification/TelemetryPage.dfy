/** The shared telemetry page: a daemon that raises a flag, stores nine fields, clears the
    flag and then stores a sequence number, and a client that polls the sequence, looks at
    the flag once and copies the fields. Every access to the page is one step.
 */
module TelemetryPage {
  const WORD: nat := 0x1_0000_0000
  // timestamp, accelerometer x y z, gyroscope x y z, Wi-Fi signal, BLE device count
  const FIELDS: nat := 9
  const POLLS: nat := 10
  const NO_SEQUENCE: nat := 0xFFFF_FFFF

  /** What the daemon stores in field `j` from its 32-bit counter and its clock. */
  function Telemetry(sim: nat, j: nat, clock: real): real
  {
    if j == 0 then clock
    else if j == 1 then 0.05 * (sim % 20) as real
    else if j == 2 then -0.12 * (sim % 15) as real
    else if j == 3 then 9.81 + 0.02 * (sim % 10) as real
    else if j == 4 then 0.01 * (sim % 5) as real
    else if j == 5 then -0.015 * (sim % 7) as real
    else if j == 6 then 0.003 * (sim % 12) as real
    else if j == 7 then (65 + sim % 5) as real
    else (3 + sim % 3) as real
  }

  /** Field `j` of update number `u`, which read its clock as `clocks[u]`. Update 0 is the
      zeroed page; update u runs with the counter at u - 1. */
  function FieldValue(u: nat, j: nat, clocks: seq<real>): real
    requires u < |clocks|
  {
    if u == 0 then 0.0 else Telemetry((u - 1) % WORD, j, clocks[u])
  }

  datatype Writer = Waiting | Storing(fields: nat) | Cleared

  /** The client's registers. `loadedAt` and `begunAt` remember how many updates had been
      numbered at the sequence load and begun at the flag check; only the proofs use them. */
  datatype Reader =
    | Polling
    | Loaded(sequence: nat, loadedAt: nat)
    | Copying(sequence: nat, loadedAt: nat, checkedAt: nat, begunAt: nat, got: seq<real>)

  /** A record the client printed. */
  datatype Sample = Sample(sequence: nat, loadedAt: nat, got: seq<real>)

  datatype State = State(
    sequence: nat,
    isWriting: bool,
    data: seq<real>,
    writer: Writer,
    reader: Reader,
    lastSequence: nat,
    polls: nat,
    updates: nat,           // sequence stores so far
    clocks: seq<real>,      // one reading per update begun, after the zeroed page
    samples: seq<Sample>)

  datatype Action = Write(clock: real) | Read

  /** Updates whose flag has been raised. */
  function Begun(s: State): int
  {
    |s.clocks| - 1
  }

  function Init(): State
  {
    State(0, false, seq(FIELDS, _ => 0.0), Waiting, Polling, NO_SEQUENCE, POLLS, 0, [0.0], [])
  }

  predicate WellFormed(s: State)
  {
    && |s.data| == FIELDS
    && s.clocks != []
    && (s.writer.Storing? ==> s.writer.fields <= FIELDS)
    && (s.reader.Copying? ==> |s.reader.got| <= FIELDS)
  }

  function Step(s: State, a: Action): (r: State)
    requires WellFormed(s)
    ensures WellFormed(r)
  {
    match a
    case Write(clock) => WriterStep(s, clock)
    case Read => ReaderStep(s)
  }

  /** The clock is read right after the flag is raised, before any field is stored. */
  function WriterStep(s: State, clock: real): (r: State)
    requires WellFormed(s)
    ensures WellFormed(r)
  {
    match s.writer
    case Waiting => s.(isWriting := true, clocks := s.clocks + [clock], writer := Storing(0))
    case Storing(k) =>
      if k < FIELDS then
        s.(data := s.data[k := FieldValue(|s.clocks| - 1, k, s.clocks)], writer := Storing(k + 1))
      else s.(isWriting := false, writer := Cleared)
    case Cleared => s.(sequence := (s.sequence + 1) % WORD, updates := s.updates + 1, writer := Waiting)
  }

  function ReaderStep(s: State): (r: State)
    requires WellFormed(s)
    ensures WellFormed(r)
  {
    match s.reader
    case Polling => if s.polls == 0 then s else s.(reader := Loaded(s.sequence, s.updates))
    case Loaded(q, n) =>
      if q != s.lastSequence && !s.isWriting
      then s.(reader := Copying(q, n, s.updates, |s.clocks| - 1, []))
      else s.(reader := Polling)
    case Copying(q, n, _, _, got) =>
      if |got| < FIELDS then s.(reader := s.reader.(got := got + [s.data[|got|]]))
      else s.(lastSequence := q, polls := if s.polls > 0 then s.polls - 1 else 0, reader := Polling,
              samples := s.samples + [Sample(q, n, got)])
  }

  function Run(s: State, actions: seq<Action>): (r: State)
    requires WellFormed(s)
    ensures WellFormed(r)
    decreases |actions|
  {
    if actions == [] then s
    else Step(Run(s, actions[..|actions| - 1]), actions[|actions| - 1])
  }

  // ---- The invariant ----

  /** Field `j` was stored by the update at hand, or is still the previous one's. */
  function WriterOf(s: State, j: nat): int
  {
    if s.writer.Storing? && j >= s.writer.fields then Begun(s) - 1 else Begun(s)
  }

  predicate PageInv(s: State)
    requires WellFormed(s)
  {
    && Begun(s) == s.updates + (if s.writer.Waiting? then 0 else 1)
    && s.sequence == s.updates % WORD
    && s.isWriting == s.writer.Storing?
    && forall j :: 0 <= j < FIELDS ==>
         0 <= WriterOf(s, j) && s.data[j] == FieldValue(WriterOf(s, j), j, s.clocks)
  }

  /** `value` is what some update numbered between `low` and `high` stores in field `j`. */
  predicate WrittenBetween(value: real, j: nat, low: nat, high: nat, clocks: seq<real>)
    requires high < |clocks|
  {
    exists u :: low <= u <= high && value == FieldValue(u, j, clocks)
  }

  predicate Fresh(got: seq<real>, low: nat, s: State)
    requires WellFormed(s)
  {
    forall j :: 0 <= j < |got| ==> WrittenBetween(got[j], j, low, Begun(s), s.clocks)
  }

  /** Everything copied so far belongs to update `u`. */
  predicate Whole(got: seq<real>, u: nat, clocks: seq<real>)
    requires u < |clocks|
  {
    forall j :: 0 <= j < |got| ==> got[j] == FieldValue(u, j, clocks)
  }

  predicate ReaderInv(s: State)
    requires WellFormed(s)
  {
    match s.reader
    case Polling => true
    case Loaded(q, n) => q == n % WORD && n <= s.updates
    case Copying(q, n, c, b, got) =>
      && q == n % WORD && n <= c <= s.updates && q != s.lastSequence
      && (b == c || b == c + 1) && b <= Begun(s)
      && Fresh(got, n, s)
      && (b == Begun(s) ==> !s.writer.Storing? && Whole(got, b, s.clocks))
  }

  predicate SamplesInv(s: State)
    requires WellFormed(s)
  {
    && |s.samples| + s.polls == POLLS
    && (s.reader != Polling ==> s.polls > 0)
    && (forall i :: 0 <= i < |s.samples| ==> SampleInv(s.samples[i], s))
    && (forall i, j :: 0 <= i < j < |s.samples| ==> s.samples[i].loadedAt < s.samples[j].loadedAt)
    && s.lastSequence == (if s.samples == [] then NO_SEQUENCE else s.samples[|s.samples| - 1].sequence)
    && (s.samples != [] && s.reader != Polling ==> s.samples[|s.samples| - 1].loadedAt <= s.reader.loadedAt)
  }

  predicate SampleInv(p: Sample, s: State)
    requires WellFormed(s)
  {
    p.sequence == p.loadedAt % WORD && p.loadedAt <= s.updates && |p.got| == FIELDS && Fresh(p.got, p.loadedAt, s)
  }

  predicate Inv(s: State)
  {
    WellFormed(s) && PageInv(s) && ReaderInv(s) && SamplesInv(s)
  }

  // ---- Every step keeps it ----

  lemma ValueStable(u: nat, j: nat, clocks: seq<real>, more: seq<real>)
    requires u < |clocks| && clocks <= more
    ensures FieldValue(u, j, more) == FieldValue(u, j, clocks)
  {
  }

  /** What is fresh stays fresh: later updates only widen the range. */
  lemma FreshGrows(got: seq<real>, low: nat, s: State, r: State)
    requires WellFormed(s) && WellFormed(r) && s.clocks <= r.clocks && Fresh(got, low, s)
    ensures Fresh(got, low, r)
  {
    hide FieldValue;
    forall j | 0 <= j < |got|
      ensures WrittenBetween(got[j], j, low, Begun(r), r.clocks)
    {
      var u :| low <= u <= Begun(s) && got[j] == FieldValue(u, j, s.clocks);
      ValueStable(u, j, s.clocks, r.clocks);
    }
  }

  lemma SamplesGrow(s: State, r: State)
    requires Inv(s) && WellFormed(r) && s.clocks <= r.clocks && s.updates <= r.updates
    ensures forall i :: 0 <= i < |s.samples| ==> SampleInv(s.samples[i], r)
  {
    forall i | 0 <= i < |s.samples| ensures SampleInv(s.samples[i], r) {
      FreshGrows(s.samples[i].got, s.samples[i].loadedAt, s, r);
    }
  }

  lemma WriterKeepsPage(s: State, clock: real)
    requires WellFormed(s) && PageInv(s)
    ensures PageInv(WriterStep(s, clock))
  {
    hide FieldValue;
    var r := WriterStep(s, clock);
    forall j | 0 <= j < FIELDS
      ensures 0 <= WriterOf(r, j) && r.data[j] == FieldValue(WriterOf(r, j), j, r.clocks)
    {
      ValueStable(WriterOf(s, j), j, s.clocks, r.clocks);
    }
  }

  lemma WriterKeepsReader(s: State, clock: real)
    requires WellFormed(s) && PageInv(s) && ReaderInv(s)
    ensures ReaderInv(WriterStep(s, clock))
  {
    hide FieldValue;
    if s.reader.Copying? {
      var r := WriterStep(s, clock);
      FreshGrows(s.reader.got, s.reader.loadedAt, s, r);
    }
  }

  lemma WriterKeepsInv(s: State, clock: real)
    requires Inv(s)
    ensures Inv(WriterStep(s, clock))
  {
    SamplesGrow(s, WriterStep(s, clock));
    WriterKeepsPage(s, clock);
    WriterKeepsReader(s, clock);
    hide FieldValue, Fresh, PageInv, ReaderInv;
  }

  lemma CopyKeepsInv(s: State)
    requires Inv(s) && s.reader.Copying? && |s.reader.got| < FIELDS
    ensures ReaderInv(ReaderStep(s))
  {
    hide FieldValue;
    var r, j := ReaderStep(s), |s.reader.got|;
    var u := WriterOf(s, j);
    assert s.reader.loadedAt <= u <= Begun(s);
    assert r.reader.got[j] == FieldValue(u, j, r.clocks);
    forall i | 0 <= i < |r.reader.got|
      ensures WrittenBetween(r.reader.got[i], i, s.reader.loadedAt, Begun(r), r.clocks)
    {
      if i < j {
        assert WrittenBetween(s.reader.got[i], i, s.reader.loadedAt, Begun(s), s.clocks);
      }
    }
  }

  lemma AcceptKeepsSamples(s: State)
    requires Inv(s) && s.reader.Copying? && |s.reader.got| == FIELDS
    ensures SamplesInv(ReaderStep(s))
  {
    hide FieldValue, Fresh, PageInv;
    SamplesGrow(s, ReaderStep(s));
    FreshGrows(s.reader.got, s.reader.loadedAt, s, ReaderStep(s));
  }

  lemma ReaderKeepsInv(s: State)
    requires Inv(s)
    ensures Inv(ReaderStep(s))
  {
    hide FieldValue;
    SamplesGrow(s, ReaderStep(s));
    if s.reader.Copying? {
      if |s.reader.got| < FIELDS {
        CopyKeepsInv(s);
      } else {
        AcceptKeepsSamples(s);
      }
    }
  }

  lemma {:induction false} RunKeepsInv(s: State, actions: seq<Action>)
    requires Inv(s)
    ensures Inv(Run(s, actions))
    decreases |actions|
  {
    if actions != [] {
      var before := actions[..|actions| - 1];
      RunKeepsInv(s, before);
      match actions[|actions| - 1]
      case Write(clock) => WriterKeepsInv(Run(s, before), clock);
      case Read => ReaderKeepsInv(Run(s, before));
    }
  }

  // ---- Theorems over every run ----

  ghost predicate Reachable(s: State)
  {
    exists actions :: s == Run(Init(), actions)
  }

  lemma ReachableInv(s: State)
    requires Reachable(s)
    ensures Inv(s)
  {
    var actions :| s == Run(Init(), actions);
    RunKeepsInv(Init(), actions);
  }

  /** Freshness, from both sides, even when a write overlaps the read: after loading sequence
      n, whatever the client has copied was stored by an update numbered from n to one past
      the current sequence. */
  lemma FieldsAreFresh(s: State, j: nat)
    requires Reachable(s) && s.reader.Copying? && j < |s.reader.got|
    ensures s.reader.sequence == s.reader.loadedAt % WORD && s.sequence == s.updates % WORD
    ensures exists u :: s.reader.loadedAt <= u <= s.updates + 1 && u < |s.clocks| &&
                        s.reader.got[j] == FieldValue(u, j, s.clocks)
  {
    ReachableInv(s);
    hide FieldValue;
    assert WrittenBetween(s.reader.got[j], j, s.reader.loadedAt, Begun(s), s.clocks);
  }

  /** No update begun since the flag check: the copy is one update's snapshot, and that update
      is the one the sequence named at the check or the next. */
  lemma QuietCopyIsSnapshot(s: State)
    requires Reachable(s) && s.reader.Copying? && Begun(s) == s.reader.begunAt
    ensures Whole(s.reader.got, s.reader.begunAt, s.clocks)
    ensures s.reader.begunAt == s.reader.checkedAt || s.reader.begunAt == s.reader.checkedAt + 1
  {
    ReachableInv(s);
  }

  /** Accepted samples carry strictly increasing update numbers. */
  lemma SamplesIncrease(s: State, i: nat, j: nat)
    requires Reachable(s) && i < j < |s.samples|
    ensures s.samples[i].loadedAt < s.samples[j].loadedAt <= s.updates
    ensures s.samples[i].sequence == s.samples[i].loadedAt % WORD
    ensures |s.samples| <= POLLS
  {
    ReachableInv(s);
    assert SampleInv(s.samples[i], s) && SampleInv(s.samples[j], s);
  }

  /** A poll is turned away as stale exactly when a whole number of 2^32 updates has gone by;
      with fewer than 2^32 updates between polls, exactly when none has. */
  lemma StaleIff(s: State)
    requires Reachable(s) && s.reader.Loaded? && s.samples != []
    ensures var since := s.reader.loadedAt - s.samples[|s.samples| - 1].loadedAt;
            && since >= 0
            && (s.reader.sequence == s.lastSequence <==> since % WORD == 0)
            && (since < WORD ==> (s.reader.sequence == s.lastSequence <==> since == 0))
  {
    ReachableInv(s);
    hide FieldValue, Fresh, PageInv;
    var last := s.samples[|s.samples| - 1];
    assert SampleInv(last, s);
    SameResidue(last.loadedAt, s.reader.loadedAt);
  }

  lemma SameResidue(m: nat, n: nat)
    requires m <= n
    ensures n % WORD == m % WORD <==> (n - m) % WORD == 0
  {
  }

  // ---- The snapshot is not unconditional ----

  lemma RunAppend(s: State, actions: seq<Action>, a: Action)
    requires WellFormed(s)
    ensures Run(s, actions + [a]) == Step(Run(s, actions), a)
  {
    assert (actions + [a])[..|actions|] == actions;
  }

  /** A client `n` fields further into its copy of a page that stands still. */
  function Copied(s: State, n: nat): (r: State)
    requires WellFormed(s) && s.reader.Copying? && |s.reader.got| + n <= FIELDS
    ensures WellFormed(r)
  {
    var k := |s.reader.got|;
    s.(reader := s.reader.(got := s.reader.got + s.data[k..k + n]))
  }

  lemma CopyOneMore(s: State, n: nat)
    requires WellFormed(s) && s.reader.Copying? && |s.reader.got| + n < FIELDS
    ensures Step(Copied(s, n), Read) == Copied(s, n + 1)
  {
    var k := |s.reader.got|;
    assert s.reader.got + s.data[k..k + n] + [s.data[k + n]] == s.reader.got + s.data[k..k + n + 1];
  }

  /** `before` and n more actions of one kind. */
  function Then(before: seq<Action>, a: Action, n: nat): seq<Action>
  {
    before + seq(n, _ => a)
  }

  lemma ThenNone(before: seq<Action>, a: Action)
    ensures Then(before, a, 0) == before
  {
  }

  lemma RunThen(s: State, before: seq<Action>, a: Action, n: nat)
    requires WellFormed(s)
    ensures Run(s, Then(before, a, n + 1)) == Step(Run(s, Then(before, a, n)), a)
  {
    hide Step;
    assert Then(before, a, n + 1) == Then(before, a, n) + [a];
    RunAppend(s, Then(before, a, n), a);
  }

  lemma {:induction false} RunReads(s: State, before: seq<Action>, n: nat)
    requires WellFormed(s) && Run(s, before).reader.Copying?
    requires |Run(s, before).reader.got| + n <= FIELDS
    ensures Run(s, Then(before, Read, n)) == Copied(Run(s, before), n)
  {
    var r := Run(s, before);
    if n == 0 {
      ThenNone(before, Read);
      assert r.reader.got + [] == r.reader.got;
    } else {
      hide Step, Run, Then, Copied;
      RunReads(s, before, n - 1);
      RunThen(s, before, Read, n - 1);
      CopyOneMore(r, n - 1);
    }
  }

  /** The page after `k` fields of update `u`. */
  function Stored(data: seq<real>, u: nat, k: nat, clocks: seq<real>): (r: seq<real>)
    requires |data| == FIELDS && k <= FIELDS && u < |clocks|
    ensures |r| == FIELDS
  {
    seq(FIELDS, j requires 0 <= j < FIELDS => if j < k then FieldValue(u, j, clocks) else data[j])
  }

  /** The page's daemon k fields into an update begun in state r. */
  function Partway(r: State, clock: real, k: nat): (t: State)
    requires WellFormed(r) && k <= FIELDS
    ensures WellFormed(t)
  {
    var clocks := r.clocks + [clock];
    r.(isWriting := true, clocks := clocks, writer := Storing(k), data := Stored(r.data, |r.clocks|, k, clocks))
  }

  lemma StoreBegins(r: State, clock: real)
    requires WellFormed(r) && r.writer.Waiting?
    ensures Step(r, Write(clock)) == Partway(r, clock, 0)
  {
    hide FieldValue;
    assert Stored(r.data, |r.clocks|, 0, r.clocks + [clock]) == r.data;
  }

  lemma StoreOneMore(r: State, clock: real, k: nat)
    requires WellFormed(r) && k < FIELDS
    ensures Step(Partway(r, clock, k), Write(clock)) == Partway(r, clock, k + 1)
  {
    hide FieldValue;
    var clocks := r.clocks + [clock];
    var was := Stored(r.data, |r.clocks|, k, clocks);
    assert was[k := FieldValue(|r.clocks|, k, clocks)] == Stored(r.data, |r.clocks|, k + 1, clocks);
  }

  lemma {:induction false} RunWrites(s: State, before: seq<Action>, clock: real, k: nat)
    requires WellFormed(s) && Run(s, before).writer.Waiting? && k <= FIELDS
    ensures Run(s, Then(before, Write(clock), k + 1)) == Partway(Run(s, before), clock, k)
  {
    var r := Run(s, before);
    hide Step, Run, Then, Partway, FieldValue;
    RunThen(s, before, Write(clock), k);
    if k == 0 {
      ThenNone(before, Write(clock));
      StoreBegins(r, clock);
    } else {
      RunWrites(s, before, clock, k - 1);
      StoreOneMore(r, clock, k - 1);
    }
  }

  /** Half of the zeroed page and half of update 1. */
  function MixedCopy(clocks: seq<real>): seq<real>
    requires |clocks| == 2
  {
    seq(FIELDS, j requires 0 <= j < FIELDS => if j < 4 then 0.0 else FieldValue(1, j, clocks))
  }

  lemma MixedIsNotWhole(clocks: seq<real>, u: nat)
    requires |clocks| == 2 && u < 2
    ensures !Whole(MixedCopy(clocks), u, clocks)
  {
    var got := MixedCopy(clocks);
    assert got[7] == FieldValue(1, 7, clocks) == 65.0 && got[3] == 0.0;
    assert FieldValue(1, 3, clocks) != 0.0 && FieldValue(0, 7, clocks) == 0.0;
  }

  lemma FirstReads()
    ensures Run(Init(), [Read, Read]) == Init().(reader := Copying(0, 0, 0, 0, []))
  {
    var none: seq<Action> := [];
    RunAppend(Init(), none, Read);
    RunAppend(Init(), none + [Read], Read);
    assert none + [Read] + [Read] == [Read, Read];
  }

  /** A run that leaves the client with such a copy: no single update accounts for what it is
      about to print. */
  lemma MixedCopyExists()
    ensures exists s :: Reachable(s) && s.reader.Copying? && |s.reader.got| == FIELDS &&
                        forall u :: 0 <= u < |s.clocks| ==> !Whole(s.reader.got, u, s.clocks)
  {
    hide Step, Run, Then, FieldValue, Whole;
    FirstReads();
    RunReads(Init(), [Read, Read], 4);
    var half := Then([Read, Read], Read, 4);
    RunWrites(Init(), half, 1.0, FIELDS);
    var overwritten := Then(half, Write(1.0), FIELDS + 1);
    RunReads(Init(), overwritten, 5);
    var s := Run(Init(), Then(overwritten, Read, 5));
    assert Reachable(s);
    assert s.reader.got == MixedCopy(s.clocks);
    forall u | 0 <= u < 2 ensures !Whole(s.reader.got, u, s.clocks) {
      MixedIsNotWhole(s.clocks, u);
    }
  }
}
