/** Where the engine relies on the host: the exact conditions, and what happens without them. */
module EngineLimits {
  import opened Engine
  import opened EngineSafety
  import opened EngineRuns

  /** A call of the function by u would run its own callback. */
  predicate Served(c: Core, u: User, us: UserState, id: Id)
    requires id in c.funcs
  {
    CallFunction(c.libraries, us, u, id, c.funcs[id], Completes).1 == Ran(Own(u, c.funcs[id]))
  }

  /** The library of the function is there, with the code that registers it. */
  predicate Backed(c: Core, id: Id)
    requires id in c.funcs
  {
    var f := c.funcs[id];
    f.libId in c.libraries && c.libraries[f.libId].code == f.code && f.name in f.code.names
  }

  /** A freed function takes its name away from every user, so this other function depends on it. */
  predicate Taken(c: Core, us: UserState, freed: Id, id: Id)
    requires freed in c.funcs && id in c.funcs
  {
    c.funcs[freed].name == c.funcs[id].name && c.funcs[id].libId in us.compiled && id !in us.funcCache
  }

  lemma NotRunYet(u: User, us: UserState, f: Compiled)
    requires f.name in f.code.names && f.libId !in us.compiled
    ensures var run := RunLibrary(us, u, f.libId, f.code, Completes);
      f.libId in run.compiled && f.name in run.functions && run.functions[f.name] == Own(u, f)
  {
    assert f.code.names[..|f.code.names|] == f.code.names;
    RegisterAt(us.functions, u, f.code, |f.code.names|, f.name);
  }

  /** The freed function holds the last reference of the other one's library, by the count that is kept. */
  predicate LastReference(c: Core, freed: Id, id: Id)
    requires freed in c.funcs && id in c.funcs && c.funcs[id].libId in c.libraries
  {
    c.funcs[freed].libId == c.funcs[id].libId && c.libraries[c.funcs[id].libId].refCount == 1
  }

  /** Whatever the counts are worth, a library goes exactly with what counts as its last reference. */
  lemma FreeReleases(c: Core, freed: Id, id: Id)
    requires freed in c.funcs && id in c.funcs && c.funcs[id].libId in c.libraries
    ensures c.funcs[id].libId !in FreeFunction(c, freed).libraries <==> LastReference(c, freed, id)
  {
  }

  /**
    Freeing a function leaves another one served exactly when it neither takes its name nor, unless
    the callback is cached, its library. Nothing is asked of the host: the counts may be wrong, as
    they are when a function is freed late, after a reset.
   */
  lemma LateFreeServes(c: Core, u: User, us: UserState, freed: Id, id: Id)
    requires freed in c.funcs && id in c.funcs && id != freed && Backed(c, id) && Served(c, u, us, id)
    ensures Served(FreeFunction(c, freed), u, Forget(us, c.funcs[freed].name), id) <==>
      !Taken(c, us, freed, id) && (id in us.funcCache || !LastReference(c, freed, id))
  {
    FreeReleases(c, freed, id);
    if id !in us.funcCache && c.funcs[id].libId !in us.compiled {
      NotRunYet(u, Forget(us, c.funcs[freed].name), c.funcs[id]);
    }
  }

  /**
    Where the counts are right the library always stays, and only the name matters: another name, a
    library that u has not run yet, or a callback that u has already cached.
   */
  lemma FreeServes(c: Core, u: User, us: UserState, freed: Id, id: Id)
    requires Counted(c) && freed in c.funcs && id in c.funcs && id != freed && Backed(c, id) && Served(c, u, us, id)
    ensures Served(FreeFunction(c, freed), u, Forget(us, c.funcs[freed].name), id) <==> !Taken(c, us, freed, id)
  {
    LibraryStays(c, freed, id);
    LateFreeServes(c, u, us, freed, id);
  }

  const F: Name := [0x66]
  const G: Name := [0x67]
  const LIBRARY := Code("lib", [F, G])
  const RIVAL := Code("rival", [F])

  /**
    A library that is compiled and then turned down by the host, because a function of it already
    exists, takes the name with it when it is freed: the older function is lost for a user who has
    run its library but not yet called it.
   */
  lemma RivalTakesName(u: User)
    ensures var c1 := CompileLibrary(INITIAL.core, LIBRARY, true, {});
      var us := CallFunction(c1.libraries, FRESH, u, 2, c1.funcs[2], Completes).0;
      var c2 := CompileLibrary(c1, RIVAL, true, {});
      var c3 := FreeFunction(c2, 3);
      CallFunction(c3.libraries, Forget(us, F), u, 1, c3.funcs[1], Completes).1 == FunctionNotFound
  {
    var c1 := CompileLibrary(INITIAL.core, LIBRARY, true, {});
    var f, g := c1.funcs[1], c1.funcs[2];
    assert f == Compiled(1, F, LIBRARY) && g == Compiled(1, G, LIBRARY);
    var us := CallFunction(c1.libraries, FRESH, u, 2, g, Completes).0;
    NotRunYet(u, FRESH, g);
    assert 1 in us.compiled && 1 !in us.funcCache;
    var c2 := CompileLibrary(c1, RIVAL, true, {});
    assert c2.funcs[1] == f && c2.funcs[3] == Compiled(2, F, RIVAL);
  }

  /**
    Library ids start over after a reset, so a function freed only after the next library was
    compiled releases that one: its own function is live without a library.
   */
  lemma StaleFreeReleases(u: User)
    ensures var c1 := CompileLibrary(INITIAL.core, RIVAL, true, {});
      var c2 := CompileLibrary(ResetCore(c1, FunctionOnly), RIVAL, true, {});
      var c3 := FreeFunction(c2, 1);
      2 in c3.funcs && c3.funcs[2].libId !in c3.libraries
      && CallFunction(c3.libraries, FRESH, u, 2, c3.funcs[2], Completes).1 == LibraryNotFound
  {
    var c1 := CompileLibrary(INITIAL.core, RIVAL, true, {});
    assert c1.funcs[1] == Compiled(1, F, RIVAL);
    var c2 := CompileLibrary(ResetCore(c1, FunctionOnly), RIVAL, true, {});
    assert c2.funcs[1] == Compiled(1, F, RIVAL) && c2.funcs[2] == Compiled(1, F, RIVAL);
    assert c2.libraries[1].refCount == 1;
  }

  /** A call misses the library exactly when nothing is cached and the library is gone. */
  lemma LibraryMissing(libraries: map<Id, Library>, us: UserState, u: User, id: Id, f: Compiled, load: Load)
    ensures CallFunction(libraries, us, u, id, f, load).1 == LibraryNotFound <==> id !in us.funcCache && f.libId !in libraries
  {
  }
}
