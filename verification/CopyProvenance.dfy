/** Where the fields of a copied telemetry record come from: the page machine watched by a recorder that
    notes, for every field of the page, which update stored it last, and carries the note along when the
    client copies the field.
 */
module CopyProvenance {
  import opened TelemetryPage

  /** `owners[j]` stored field j of the page last; `taken[j]` had stored field j when the client copied it.
      `overtaken` says that the daemon has stored a field ahead of the copy in progress.
   */
  datatype Watch = Watch(page: State, owners: seq<nat>, taken: seq<nat>, overtaken: bool)
  {
    predicate WellFormed()
    {
      TelemetryPage.WellFormed(page) && |owners| == FIELDS
    }
  }

  function Start(): (w: Watch)
    ensures w.WellFormed()
  {
    Watch(Init(), seq(FIELDS, _ => 0), [], false)
  }

  function WatchStep(w: Watch, a: Action): (v: Watch)
    requires w.WellFormed()
    ensures v.WellFormed() && v.page == Step(w.page, a)
  {
    var page := Step(w.page, a);
    match a
    case Write(_) =>
      if w.page.writer.Storing? && w.page.writer.fields < FIELDS then
        var k := w.page.writer.fields;
        var ahead := w.page.reader.Copying? && |w.page.reader.got| <= k;
        Watch(page, w.owners[k := |w.page.clocks| - 1], w.taken, w.overtaken || ahead)
      else
        w.(page := page)
    case Read =>
      if !page.reader.Copying? then
        Watch(page, w.owners, [], false)
      else if w.page.reader.Copying? && |w.page.reader.got| < FIELDS then
        w.(page := page, taken := w.taken + [w.owners[|w.page.reader.got|]])
      else
        Watch(page, w.owners, [], false)
  }

  function WatchRun(w: Watch, actions: seq<Action>): (v: Watch)
    requires w.WellFormed()
    ensures v.WellFormed() && v.page == Run(w.page, actions)
    decreases |actions|
  {
    if actions == [] then w
    else WatchStep(WatchRun(w, actions[..|actions| - 1]), actions[|actions| - 1])
  }

  /** The page's owners are the updates the invariant of the page speaks of. */
  predicate OwnersInv(w: Watch)
    requires w.WellFormed()
  {
    forall j :: 0 <= j < FIELDS ==> w.owners[j] == WriterOf(w.page, j)
  }

  /** Every field copied so far came from update `b`, and so will those still to be copied. */
  predicate Unmixed(w: Watch, b: nat)
    requires w.WellFormed() && w.page.reader.Copying?
  {
    && (forall j :: 0 <= j < |w.taken| ==> w.taken[j] == b)
    && (forall j :: |w.page.reader.got| <= j < FIELDS ==> w.owners[j] == b)
  }

  /** No field of the page goes back before update `b`. */
  predicate NotBefore(w: Watch, b: nat)
    requires w.WellFormed() && w.page.reader.Copying?
  {
    && (forall j :: 0 <= j < |w.taken| ==> w.taken[j] >= b)
    && (forall j :: 0 <= j < FIELDS ==> w.owners[j] >= b)
  }

  predicate CopyInv(w: Watch)
    requires w.WellFormed()
  {
    w.page.reader.Copying? ==>
      var b := w.page.reader.begunAt;
      && |w.taken| == |w.page.reader.got|
      && NotBefore(w, b) && b <= Begun(w.page)
      && (!w.overtaken <==> Unmixed(w, b))
      && (b == Begun(w.page) ==> !w.overtaken)
      && Tracked(w)
  }

  /** A copied field is what the update it was taken from stored there. */
  predicate Tracked(w: Watch)
    requires w.WellFormed() && w.page.reader.Copying? && |w.taken| == |w.page.reader.got|
  {
    forall j :: 0 <= j < |w.taken| ==>
      w.taken[j] < |w.page.clocks| && w.page.reader.got[j] == FieldValue(w.taken[j], j, w.page.clocks)
  }

  predicate WatchInv(w: Watch)
  {
    w.WellFormed() && Inv(w.page) && OwnersInv(w) && CopyInv(w)
  }

  lemma WriteKeepsOwners(w: Watch, clock: real)
    requires WatchInv(w)
    ensures OwnersInv(WatchStep(w, Write(clock)))
  {
    hide FieldValue, CopyInv, ReaderInv, SamplesInv;
  }

  lemma WriteKeepsTracked(w: Watch, clock: real)
    requires WatchInv(w) && w.page.reader.Copying?
    ensures Tracked(WatchStep(w, Write(clock)))
  {
    hide FieldValue;
    var v := WatchStep(w, Write(clock));
    forall j | 0 <= j < |v.taken|
      ensures v.taken[j] < |v.page.clocks| && v.page.reader.got[j] == FieldValue(v.taken[j], j, v.page.clocks)
    {
      ValueStable(w.taken[j], j, w.page.clocks, v.page.clocks);
    }
  }

  /** A store ahead of the copy mixes it; any other leaves it as it is. */
  lemma WriteKeepsCopy(w: Watch, clock: real)
    requires WatchInv(w)
    ensures CopyInv(WatchStep(w, Write(clock)))
  {
    if w.page.reader.Copying? {
      WriteKeepsTracked(w, clock);
      hide FieldValue, Tracked, SamplesInv, Fresh, Whole;
      var v, b := WatchStep(w, Write(clock)), w.page.reader.begunAt;
      if w.page.writer.Storing? && w.page.writer.fields < FIELDS {
        var k := w.page.writer.fields;
        assert v.owners[k] == Begun(w.page) > b;
        assert forall j :: 0 <= j < FIELDS && j != k ==> v.owners[j] == w.owners[j];
      }
    }
  }

  lemma ReadKeepsWatch(w: Watch)
    requires WatchInv(w)
    ensures OwnersInv(WatchStep(w, Read)) && CopyInv(WatchStep(w, Read))
  {
    hide FieldValue, SamplesInv, Fresh, Whole;
    var v := WatchStep(w, Read);
    if v.page.reader.Copying? && w.page.reader.Copying? {
      var k := |w.page.reader.got|;
      assert forall j :: 0 <= j < |w.taken| ==> v.taken[j] == w.taken[j];
      assert v.taken[k] == w.owners[k];
    }
  }

  lemma {:induction false} WatchRunKeepsInv(actions: seq<Action>)
    ensures WatchInv(WatchRun(Start(), actions))
    decreases |actions|
  {
    if actions == [] {
      assert WatchRun(Start(), actions) == Start();
    } else {
      var before, a := actions[..|actions| - 1], actions[|actions| - 1];
      WatchRunKeepsInv(before);
      var w := WatchRun(Start(), before);
      hide OwnersInv, CopyInv, Inv;
      match a
      case Write(clock) =>
        WriteKeepsOwners(w, clock);
        WriteKeepsCopy(w, clock);
        WriterKeepsInv(w.page, clock);
      case Read =>
        ReadKeepsWatch(w);
        ReaderKeepsInv(w.page);
    }
  }

  // ---- Theorems over every run ----

  /** The notes are true: each copied field is what the update noted for it stored there. */
  lemma NotesAreTrue(actions: seq<Action>, j: nat)
    requires var w := WatchRun(Start(), actions);
             w.page.reader.Copying? && j < |w.page.reader.got|
    ensures var w := WatchRun(Start(), actions);
            && |w.taken| == |w.page.reader.got| && w.page.reader.begunAt <= w.taken[j] < |w.page.clocks|
            && w.page.reader.got[j] == FieldValue(w.taken[j], j, w.page.clocks)
  {
    WatchRunKeepsInv(actions);
  }

  /** A complete copy is, in every field, the update that was current at the flag check exactly when the
      daemon has stored no field ahead of the copy.
   */
  lemma SnapshotIff(actions: seq<Action>)
    requires var w := WatchRun(Start(), actions);
             w.page.reader.Copying? && |w.page.reader.got| == FIELDS
    ensures var w := WatchRun(Start(), actions);
            && |w.taken| == FIELDS
            && ((forall j :: 0 <= j < FIELDS ==> w.taken[j] == w.page.reader.begunAt) <==> !w.overtaken)
  {
    WatchRunKeepsInv(actions);
  }

  /** In particular when no update has begun since the check, at any point of the copy. */
  lemma QuietCopyNotOvertaken(actions: seq<Action>)
    requires var w := WatchRun(Start(), actions);
             w.page.reader.Copying? && Begun(w.page) == w.page.reader.begunAt
    ensures !WatchRun(Start(), actions).overtaken
  {
    WatchRunKeepsInv(actions);
  }
}
