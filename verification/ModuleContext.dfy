/** The core context in the form of the C code: each call is a run of the section machine, whatever
    sections other threads run in its gaps.
 */
module ModuleContext {
  import opened ModuleRegistry

  class NaclContext {
    const modules: array<Entry>
    ghost var calls: seq<Call>
    ghost var sections: seq<Section>

    ghost function View(): State
      reads this, modules
    {
      State(modules[..], calls)
    }

    /** The sections run since initialisation, by all threads, explain the table and the linker's calls. */
    ghost predicate Valid()
      reads this, modules
    {
      modules.Length == MODULE_COUNT && View() == Run(Initial(), sections)
    }

    /** nacl_core_initialize, once memory and the mutex are there. */
    constructor ()
      ensures Valid() && fresh(modules)
      ensures View() == Initial()
    {
      var table := new Entry[MODULE_COUNT](m => Entry(NULL, false));
      table[MODULE_CORE] := Entry(RTLD_DEFAULT, true);
      modules := table;
      calls := [];
      sections := [];
      new;
      assert modules[..] == Initial().entries;
    }

    ghost method Ran(section: Section, was: State)
      requires modules.Length == MODULE_COUNT
      requires was == Run(Initial(), sections) && View() == Step(was, section)
      modifies `sections
      ensures Valid() && View() == old(View())
    {
      RunAppend(Initial(), sections, [section]);
      assert Run(was, [section]) == Step(was, section);
      sections := sections + [section];
    }

    /** nacl_core_load_module; `obtained` is what dlopen returns if it is called. */
    method LoadModule(m: int, obtained: Handle) returns (result: int)
      requires Valid()
      modifies this, modules
      ensures Valid()
      ensures !(0 <= m < 7) ==> result == -3 && View() == old(View())
      ensures 0 <= m < 7 ==>
                && View() == Step(old(View()), Load(m, obtained))
                && result == (if View().IsLoaded(m) then 0 else -2)
    {
      if m < 0 || m >= MODULE_COUNT {
        return NACL_ERROR_INVALID_ARG;
      }
      ghost var was := View();
      if modules[m].isLoaded {
        result := NACL_SUCCESS;
      } else if obtained == NULL {
        result := NACL_ERROR_NOT_FOUND;
      } else {
        modules[m] := Entry(obtained, true);
        calls := calls + [Opened(m, obtained)];
        result := NACL_SUCCESS;
      }
      Ran(Load(m, obtained), was);
    }

    /** nacl_core_unload_module. */
    method UnloadModule(m: int) returns (result: int)
      requires Valid()
      modifies this, modules
      ensures Valid()
      ensures !(0 < m < 7) ==> result == -3 && View() == old(View())
      ensures 0 < m < 7 ==>
                result == 0 && View() == Step(old(View()), Unload(m)) && !View().IsLoaded(m)
    {
      if m <= 0 || m >= MODULE_COUNT {
        return NACL_ERROR_INVALID_ARG;
      }
      ghost var was := View();
      if modules[m].isLoaded {
        if modules[m].handle != NULL {
          calls := calls + [Closed(m, modules[m].handle)];
          modules[m] := modules[m].(handle := NULL);
        }
        modules[m] := modules[m].(isLoaded := false);
      }
      Ran(Unload(m), was);
      result := NACL_SUCCESS;
    }

    /** nacl_core_get_symbol. Other threads run `before` until the load takes the mutex and `after` until
        the search does; `resolved` is what dlsym returns.
     */
    method GetSymbol(m: int, named: bool, obtained: Handle, before: seq<Section>, after: seq<Section>, resolved: Handle)
      returns (symbol: Handle)
      requires Valid()
      modifies this, modules
      ensures Valid()
      ensures !(0 <= m < 7) || !named ==> symbol == NULL && View() == old(View())
      ensures 0 <= m < 7 && named ==>
                && View() == Run(old(View()), LookupSections(old(View()), m, obtained, before, after))
                && symbol == (if Searches(old(View()), m, obtained, before) then resolved else NULL)
    {
      if m < 0 || m >= MODULE_COUNT || !named {
        return NULL;
      }
      ghost var start := View();
      if !modules[m].isLoaded {
        Ran(SearchIfLoaded(m), start);
        assert Run(start, [SearchIfLoaded(m)]) == start;
        OtherThreads(before);
        RunAppend(start, [SearchIfLoaded(m)], before);
        ghost var loading := View();
        var loaded := LoadModule(m, obtained);
        RunAppend(start, [SearchIfLoaded(m)] + before, [Load(m, obtained)]);
        assert Run(loading, [Load(m, obtained)]) == View();
        if loaded != NACL_SUCCESS {
          return NULL;
        }
        ghost var load := [SearchIfLoaded(m)] + before + [Load(m, obtained)];
        OtherThreads(after);
        RunAppend(start, load, after);
        RunAppend(start, load + after, [Search(m)]);
        ghost var searching := View();
        calls := calls + [Searched(m, modules[m].handle)];
        Ran(Search(m), searching);
        assert Run(searching, [Search(m)]) == View();
      } else {
        calls := calls + [Searched(m, modules[m].handle)];
        Ran(SearchIfLoaded(m), start);
        assert Run(start, [SearchIfLoaded(m)]) == View();
      }
      symbol := resolved;
    }

    /** The sections other threads get in between two sections of this one. */
    method OtherThreads(turns: seq<Section>)
      requires Valid()
      modifies this, modules
      ensures Valid() && View() == Run(old(View()), turns)
    {
      ghost var start := View();
      assert turns[..0] == [];
      for i := 0 to |turns|
        invariant Valid() && View() == Run(start, turns[..i])
      {
        ghost var was := View();
        match turns[i] {
          case Load(m, obtained) =>
            var _ := LoadModule(m, obtained);
          case Unload(m) =>
            var _ := UnloadModule(m);
          case SearchIfLoaded(m) =>
            if modules[m].isLoaded {
              calls := calls + [Searched(m, modules[m].handle)];
            }
            Ran(turns[i], was);
          case Search(m) =>
            calls := calls + [Searched(m, modules[m].handle)];
            Ran(turns[i], was);
        }
        RunAppend(start, turns[..i], [turns[i]]);
        assert turns[..i + 1] == turns[..i] + [turns[i]];
        assert Run(was, [turns[i]]) == View();
      }
      assert turns[..|turns|] == turns;
    }

    /** nacl_core_shutdown: every library still open is closed once, and then nothing is open. */
    method Shutdown()
      requires Valid()
      modifies this, modules
      ensures modules.Length == 7 && View() == Drained(old(View()), 7)
      ensures forall m: Module :: Opens(calls, m) == Closes(calls, m) == Opens(old(calls), m)
    {
      ghost var start := View();
      RunKeepsInv(Initial(), sections);
      for i := 1 to MODULE_COUNT
        invariant View() == Drained(start, i)
      {
        DrainedExactly(start, i, i);
        assert Agrees(Drained(start, i), i);
        if modules[i].isLoaded && modules[i].handle != NULL {
          calls := calls + [Closed(i, modules[i].handle)];
          modules[i] := Entry(NULL, false);
        }
      }
      forall m: Module ensures Opens(calls, m) == Closes(calls, m) == Opens(start.calls, m) {
        DrainedExactly(start, MODULE_COUNT, m);
        ShutdownClosesAll(start, m);
      }
    }
  }

  /** Whether a lookup gets as far as dlsym. */
  predicate Searches(s: State, m: Module, obtained: Handle, before: seq<Section>)
    requires s.Shaped()
  {
    s.IsLoaded(m) || Run(s, [SearchIfLoaded(m)] + before + [Load(m, obtained)]).IsLoaded(m)
  }
}
