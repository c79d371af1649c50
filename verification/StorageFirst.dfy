/** The storage service (server/servicemanager.cpp:182-213): services that name no dependency depend
    on it, and what follows for the built service map. */
module StorageFirst {
  import opened DependencyCleanup
  import opened ServiceManager
  import opened ServiceOrdering
  import opened ManagerMethods

  const STORAGE := "nepomukstorage"

  /** The `k`-th module is the last of its name and names no dependency. */
  predicate NamesNothing(modules: seq<Module>, k: nat) {
    && k < |modules| && modules[k].dependencies == [] && modules[k].name != STORAGE
    && forall j | k < j < |modules| :: modules[j].name != modules[k].name
  }

  predicate HasStorage(modules: seq<Module>) {
    exists k | 0 <= k < |modules| :: modules[k].name == STORAGE
  }

  /** Such a service depends on the storage alone, and is left out if no storage is installed. */
  lemma DependsOnStorage(modules: seq<Module>, k: nat)
    requires NamesNothing(modules, k)
    ensures var clean := Cleaned(Declared(modules));
            && (modules[k].name in clean ==> STORAGE in clean && forall d :: d in clean[modules[k].name] <==> d == STORAGE)
            && (!HasStorage(modules) ==> modules[k].name !in clean)
  {
    var s, declared := modules[k].name, Declared(modules);
    DeclaresExactly(modules, k, STORAGE);
    forall d ensures d in declared[s] <==> d == STORAGE { DeclaresExactly(modules, k, d); }
    CleanedIsSound(declared);
    DeclaredNames(modules, STORAGE);
  }

  /** In every run without late reports it is started only when the storage is initialized. */
  lemma StartsAfterStorage(modules: seq<Module>, k: nat, w: World, states: seq<Mgr>, events: seq<Event>)
    requires NamesNothing(modules, k)
    requires Sound(w) && w.tree == Cleaned(Declared(modules)) && IsRun(w, states, events) && Initial(w, states[0])
    requires forall i | 0 <= i < |events| :: !Late(states[i], events[i])
    ensures forall c | c in states[|events|].calls && c.StartCall? && c.name == modules[k].name :: STORAGE in c.ready
  {
    RunsAreInOrder(w, states, events);
    DependsOnStorage(modules, k);
    forall c | c in states[|events|].calls && c.StartCall? && c.name == modules[k].name ensures STORAGE in c.ready {
      assert InOrder(w, c);
    }
  }
}
