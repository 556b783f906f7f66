/** The core's module table: libraries opened and closed under a mutex, by any number of threads.

    A section is what one thread does between taking the mutex and releasing it. Sections are
    atomic, and threads interleave between them.
 */
module ModuleRegistry {
  import opened Options

  const MODULE_COUNT: nat := 7
  const MODULE_CORE: nat := 0

  type Module = m: nat | m < MODULE_COUNT

  /** A dlopen handle; NULL is 0. */
  type Handle = nat

  const NULL: Handle := 0
  const RTLD_DEFAULT: Handle := 0

  const NACL_SUCCESS: int := 0
  const NACL_ERROR_NOT_FOUND: int := -2
  const NACL_ERROR_INVALID_ARG: int := -3

  datatype Entry = Entry(handle: Handle, isLoaded: bool)

  /** What was asked of the dynamic linker, and for which module. */
  datatype Call =
    | Opened(m: Module, handle: Handle)
    | Closed(m: Module, handle: Handle)
    | Searched(m: Module, handle: Handle)

  datatype State = State(entries: seq<Entry>, calls: seq<Call>)
  {
    predicate Shaped()
    {
      |entries| == MODULE_COUNT
    }

    predicate IsLoaded(m: Module)
      requires Shaped()
    {
      entries[m].isLoaded
    }
  }

  /** `obtained` is what dlopen would return. */
  datatype Section =
    | Load(m: Module, obtained: Handle)
    | Unload(m: Module)
    | SearchIfLoaded(m: Module)
    | Search(m: Module)

  function Initial(): State
  {
    State(seq(MODULE_COUNT, m => if m == MODULE_CORE then Entry(RTLD_DEFAULT, true) else Entry(NULL, false)), [])
  }

  function Step(s: State, section: Section): (t: State)
    requires s.Shaped()
    ensures t.Shaped()
  {
    var entry := s.entries[section.m];
    match section
    case Load(m, obtained) =>
      if entry.isLoaded || obtained == NULL then s
      else State(s.entries[m := Entry(obtained, true)], s.calls + [Opened(m, obtained)])
    case Unload(m) =>
      if m == MODULE_CORE || !entry.isLoaded then s
      else State(s.entries[m := Entry(NULL, false)],
                 if entry.handle == NULL then s.calls else s.calls + [Closed(m, entry.handle)])
    case SearchIfLoaded(m) =>
      if entry.isLoaded then s.(calls := s.calls + [Searched(m, entry.handle)]) else s
    case Search(m) =>
      s.(calls := s.calls + [Searched(m, entry.handle)])
  }

  function Run(s: State, sections: seq<Section>): (t: State)
    requires s.Shaped()
    ensures t.Shaped()
    decreases |sections|
  {
    if sections == [] then s else Run(Step(s, sections[0]), sections[1..])
  }

  lemma {:induction false} RunAppend(s: State, first: seq<Section>, second: seq<Section>)
    requires s.Shaped()
    ensures Run(s, first + second) == Run(Run(s, first), second)
    decreases |first|
  {
    if first == [] {
      assert first + second == second;
    } else {
      assert (first + second)[1..] == first[1..] + second;
      RunAppend(Step(s, first[0]), first[1..], second);
    }
  }

  // ---- The linker's side ----

  /** The handle a module holds by the linker's account. */
  function Held(calls: seq<Call>, m: Module): Option<Handle>
  {
    if calls == [] then
      None
    else
      var last := calls[|calls| - 1];
      if last.m != m || last.Searched? then Held(calls[..|calls| - 1], m)
      else if last.Opened? then Some(last.handle)
      else None
  }

  function Opens(calls: seq<Call>, m: Module): nat
  {
    if calls == [] then 0
    else Opens(calls[..|calls| - 1], m) + (if calls[|calls| - 1].Opened? && calls[|calls| - 1].m == m then 1 else 0)
  }

  function Closes(calls: seq<Call>, m: Module): nat
  {
    if calls == [] then 0
    else Closes(calls[..|calls| - 1], m) + (if calls[|calls| - 1].Closed? && calls[|calls| - 1].m == m then 1 else 0)
  }

  /** A module is opened only while it holds nothing, and closed only with the handle it holds. */
  predicate Paired(calls: seq<Call>)
  {
    calls == []
    || (var past, last := calls[..|calls| - 1], calls[|calls| - 1];
        Paired(past)
        && (last.Opened? ==> last.m != MODULE_CORE && last.handle != NULL && Held(past, last.m) == None)
        && (last.Closed? ==> Held(past, last.m) == Some(last.handle)))
  }

  /** Opens exceed closes by one exactly for the modules that hold a handle. */
  lemma {:induction false} OpensBalanceCloses(calls: seq<Call>, m: Module)
    requires Paired(calls)
    ensures Opens(calls, m) - Closes(calls, m) == (if Held(calls, m).Some? then 1 else 0)
  {
    if calls != [] {
      OpensBalanceCloses(calls[..|calls| - 1], m);
    }
  }

  lemma {:induction false} CoreNeverHeld(calls: seq<Call>)
    requires Paired(calls)
    ensures Held(calls, MODULE_CORE) == None
  {
    if calls != [] {
      CoreNeverHeld(calls[..|calls| - 1]);
    }
  }

  // ---- Over every run ----

  ghost predicate Inv(s: State)
  {
    && s.Shaped()
    && s.entries[MODULE_CORE] == Entry(RTLD_DEFAULT, true)
    && Paired(s.calls)
    && forall m: Module :: m != MODULE_CORE ==> Agrees(s, m)
  }

  ghost predicate Agrees(s: State, m: Module)
    requires s.Shaped()
  {
    && (s.entries[m].isLoaded <==> s.entries[m].handle != NULL)
    && Held(s.calls, m) == (if s.entries[m].isLoaded then Some(s.entries[m].handle) else None)
  }

  /** What one more call does to the linker's account. */
  lemma OneMoreCall(calls: seq<Call>, call: Call)
    requires Paired(calls)
    requires call.Opened? ==> call.m != MODULE_CORE && call.handle != NULL && Held(calls, call.m) == None
    requires call.Closed? ==> Held(calls, call.m) == Some(call.handle)
    ensures Paired(calls + [call])
  {
    assert (calls + [call])[..|calls|] == calls;
  }

  lemma HeldAfter(calls: seq<Call>, call: Call, m: Module)
    ensures Held(calls + [call], m) ==
            if call.m != m || call.Searched? then Held(calls, m) else if call.Opened? then Some(call.handle) else None
  {
    assert (calls + [call])[..|calls|] == calls;
  }

  /** One entry and one call change together. */
  lemma CallKeepsInv(s: State, call: Call, entry: Entry)
    requires Inv(s)
    requires call.m == MODULE_CORE ==> entry == s.entries[call.m]
    requires call.Searched? ==> entry == s.entries[call.m]
    requires call.Opened? ==> call.m != MODULE_CORE && call.handle != NULL && entry == Entry(call.handle, true)
    requires call.Opened? ==> !s.entries[call.m].isLoaded
    requires call.Closed? ==> call.m != MODULE_CORE && entry == Entry(NULL, false)
    requires call.Closed? ==> s.entries[call.m].isLoaded && s.entries[call.m].handle == call.handle
    ensures Inv(State(s.entries[call.m := entry], s.calls + [call]))
  {
    var t := State(s.entries[call.m := entry], s.calls + [call]);
    assert call.m != MODULE_CORE ==> Agrees(s, call.m);
    OneMoreCall(s.calls, call);
    hide Paired;
    forall m: Module | m != MODULE_CORE ensures Agrees(t, m) {
      assert Agrees(s, m);
      HeldAfter(s.calls, call, m);
      hide Held;
    }
  }

  lemma StepKeepsInv(s: State, section: Section)
    requires Inv(s)
    ensures Inv(Step(s, section))
  {
    var entry, m := s.entries[section.m], section.m;
    assert m != MODULE_CORE ==> Agrees(s, m);
    hide Held, Paired;
    match section
    case Load(_, obtained) =>
      if !entry.isLoaded && obtained != NULL {
        CallKeepsInv(s, Opened(m, obtained), Entry(obtained, true));
      }
    case Unload(_) =>
      if m != MODULE_CORE && entry.isLoaded {
        CallKeepsInv(s, Closed(m, entry.handle), Entry(NULL, false));
      }
    case _ =>
      CallKeepsInv(s, Searched(m, entry.handle), entry);
      assert s.entries[m := entry] == s.entries;
  }

  lemma {:induction false} RunKeepsInv(s: State, sections: seq<Section>)
    requires Inv(s)
    ensures Inv(Run(s, sections))
    decreases |sections|
  {
    if sections != [] {
      StepKeepsInv(s, sections[0]);
      RunKeepsInv(Step(s, sections[0]), sections[1..]);
    }
  }

  ghost predicate Reachable(s: State)
  {
    exists sections :: s == Run(Initial(), sections)
  }

  /** In every interleaving and for every dlopen outcome, a module other than the core has been opened
      once more than closed exactly when it is marked loaded, which is exactly when its handle is set;
      the core is loaded throughout and never opened or closed.
   */
  lemma OpensMinusCloses(s: State, m: Module)
    requires Reachable(s)
    ensures s.Shaped() && s.IsLoaded(MODULE_CORE)
    ensures m != MODULE_CORE ==> (s.IsLoaded(m) <==> s.entries[m].handle != NULL)
    ensures Opens(s.calls, m) - Closes(s.calls, m) == (if m != MODULE_CORE && s.IsLoaded(m) then 1 else 0)
  {
    var sections :| s == Run(Initial(), sections);
    RunKeepsInv(Initial(), sections);
    OpensBalanceCloses(s.calls, m);
    if m == MODULE_CORE {
      CoreNeverHeld(s.calls);
    } else {
      assert Agrees(s, m);
    }
  }

  /** What a search looks in: the handle that the linker's account says the module holds; for
      the core, which holds none, RTLD_DEFAULT. A section that has just loaded the module
      searches whatever is left of it. */
  lemma SearchUsesHeld(s: State, m: Module)
    requires Reachable(s)
    ensures s.Shaped()
    ensures m == 0 ==> Step(s, SearchIfLoaded(m)).calls == Step(s, Search(m)).calls == s.calls + [Searched(m, 0)]
    ensures m != 0 && Held(s.calls, m).Some? ==>
              Step(s, SearchIfLoaded(m)).calls == Step(s, Search(m)).calls
                == s.calls + [Searched(m, Held(s.calls, m).value)]
    ensures m != 0 && Held(s.calls, m).None? ==>
              Step(s, SearchIfLoaded(m)).calls == s.calls &&
              Step(s, Search(m)).calls == s.calls + [Searched(m, 0)]
  {
    var sections :| s == Run(Initial(), sections);
    RunKeepsInv(Initial(), sections);
    assert m != MODULE_CORE ==> Agrees(s, m);
    hide Held, Paired;
  }

  // ---- The gap in symbol lookup ----

  /** Whether the last section that decides about m leaves it loaded. */
  predicate LeavesLoaded(sections: seq<Section>, m: Module, loaded: bool)
  {
    if sections == [] then
      loaded
    else
      var last, past := sections[|sections| - 1], sections[..|sections| - 1];
      if last.m == m && last.Unload? && m != MODULE_CORE then false
      else if last.m == m && last.Load? && last.obtained != NULL then true
      else LeavesLoaded(past, m, loaded)
  }

  lemma {:induction false} LoadedAfterIff(s: State, sections: seq<Section>, m: Module)
    requires s.Shaped()
    ensures Run(s, sections).IsLoaded(m) == LeavesLoaded(sections, m, s.IsLoaded(m))
    decreases |sections|
  {
    if sections != [] {
      var past, last := sections[..|sections| - 1], sections[|sections| - 1];
      LoadedAfterIff(s, past, m);
      assert sections == past + [last];
      RunAppend(s, past, [last]);
    }
  }

  /** The sections one symbol lookup runs through when other threads run `before` and `after` in its gaps. */
  function LookupSections(s: State, m: Module, obtained: Handle, before: seq<Section>, after: seq<Section>): seq<Section>
    requires s.Shaped()
  {
    if s.IsLoaded(m) then
      [SearchIfLoaded(m)]
    else
      var load := [SearchIfLoaded(m)] + before + [Load(m, obtained)];
      if Run(s, load).IsLoaded(m) then load + after + [Search(m)] else load
  }

  /** A lookup that loads the module itself finds it still loaded when it searches exactly when the
      other threads left it loaded in the second gap; otherwise it searches with a null handle.
   */
  lemma SearchHitsLoadedIff(s: State, m: Module, obtained: Handle, before: seq<Section>, after: seq<Section>)
    requires Inv(s) && m != MODULE_CORE && !s.IsLoaded(m)
    requires Run(s, [SearchIfLoaded(m)] + before + [Load(m, obtained)]).IsLoaded(m)
    ensures var t := Run(s, LookupSections(s, m, obtained, before, after));
            var u := Run(s, [SearchIfLoaded(m)] + before + [Load(m, obtained)] + after);
            && t.calls == u.calls + [Searched(m, u.entries[m].handle)]
            && (u.entries[m].handle != NULL <==> LeavesLoaded(after, m, true))
            && (LeavesLoaded(after, m, true) ==> Held(u.calls, m) == Some(u.entries[m].handle))
  {
    var load := [SearchIfLoaded(m)] + before + [Load(m, obtained)];
    var loaded := Run(s, load);
    RunKeepsInv(s, load);
    RunKeepsInv(loaded, after);
    var u := Run(loaded, after);
    LoadedAfterIff(loaded, after, m);
    RunAppend(s, load, after);
    RunAppend(s, load + after, [Search(m)]);
    var t := Run(s, LookupSections(s, m, obtained, before, after));
    assert t == Step(u, Search(m));
    assert Agrees(u, m);
  }

  /** Another thread's unload in the gap makes the search miss. */
  lemma UnloadInGapMisses(m: Module, obtained: Handle)
    requires m != MODULE_CORE && obtained != NULL
    ensures var t := Run(Initial(), LookupSections(Initial(), m, obtained, [], [Unload(m)]));
            t.calls == [Opened(m, obtained), Closed(m, obtained), Searched(m, NULL)]
  {
    var s1 := Step(Initial(), SearchIfLoaded(m));
    var s2 := Step(s1, Load(m, obtained));
    var s3 := Step(s2, Unload(m));
    assert [SearchIfLoaded(m)] + [] + [Load(m, obtained)] == [SearchIfLoaded(m), Load(m, obtained)];
    assert [SearchIfLoaded(m), Load(m, obtained)][1..] == [Load(m, obtained)];
    assert Run(s1, [Load(m, obtained)]) == s2;
    assert Run(Initial(), [SearchIfLoaded(m), Load(m, obtained)]) == s2;
    RunAppend(Initial(), [SearchIfLoaded(m), Load(m, obtained)], [Unload(m)]);
    RunAppend(Initial(), [SearchIfLoaded(m), Load(m, obtained)] + [Unload(m)], [Search(m)]);
  }

  // ---- Shutdown ----

  /** Shutdown's loop over the modules below n. */
  function Drained(s: State, n: nat): (t: State)
    requires s.Shaped() && 1 <= n <= MODULE_COUNT
    ensures t.Shaped()
  {
    if n == 1 then s else Step(Drained(s, n - 1), Unload(n - 1))
  }

  lemma {:induction false} DrainedTable(s: State, n: nat)
    requires Inv(s) && 1 <= n <= MODULE_COUNT
    ensures Inv(Drained(s, n))
    ensures forall m: Module :: Drained(s, n).entries[m] == (if 1 <= m < n then Entry(NULL, false) else s.entries[m])
  {
    if n > 1 {
      DrainedTable(s, n - 1);
      StepKeepsInv(Drained(s, n - 1), Unload(n - 1));
      assert Agrees(s, n - 1);
      hide Inv, Paired, Held;
    }
  }

  lemma UnloadCounts(s: State, k: Module, m: Module)
    requires Inv(s) && k != MODULE_CORE
    ensures Opens(Step(s, Unload(k)).calls, m) == Opens(s.calls, m)
    ensures Closes(Step(s, Unload(k)).calls, m) == Closes(s.calls, m) + (if m == k && s.IsLoaded(k) then 1 else 0)
  {
    assert Agrees(s, k);
    CountsAfter(s.calls, Closed(k, s.entries[k].handle), m);
    hide Inv, Paired, Held, Opens, Closes;
  }

  lemma {:induction false} DrainedExactly(s: State, n: nat, m: Module)
    requires Inv(s) && 1 <= n <= MODULE_COUNT
    ensures Inv(Drained(s, n))
    ensures Drained(s, n).entries[m] == (if 1 <= m < n then Entry(NULL, false) else s.entries[m])
    ensures Opens(Drained(s, n).calls, m) == Opens(s.calls, m)
    ensures Closes(Drained(s, n).calls, m) == Closes(s.calls, m) + (if 1 <= m < n && s.IsLoaded(m) then 1 else 0)
  {
    DrainedTable(s, n);
    if n > 1 {
      DrainedTable(s, n - 1);
      DrainedExactly(s, n - 1, m);
      UnloadCounts(Drained(s, n - 1), n - 1, m);
      hide Inv, Step, Opens, Closes;
    }
  }

  lemma CountsAfter(calls: seq<Call>, call: Call, m: Module)
    ensures Opens(calls + [call], m) == Opens(calls, m) + (if call.Opened? && call.m == m then 1 else 0)
    ensures Closes(calls + [call], m) == Closes(calls, m) + (if call.Closed? && call.m == m then 1 else 0)
  {
    assert (calls + [call])[..|calls|] == calls;
  }

  /** Shutdown closes each remaining library exactly once, and nothing stays open. */
  lemma ShutdownClosesAll(s: State, m: Module)
    requires Reachable(s)
    ensures s.Shaped()
    ensures var t := Drained(s, MODULE_COUNT);
            && Closes(t.calls, m) == Closes(s.calls, m) + (if m != MODULE_CORE && s.IsLoaded(m) then 1 else 0)
            && Closes(t.calls, m) == Opens(t.calls, m)
  {
    var sections :| s == Run(Initial(), sections);
    RunKeepsInv(Initial(), sections);
    DrainedExactly(s, MODULE_COUNT, m);
    OpensMinusCloses(s, m);
  }
}
