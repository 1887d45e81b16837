/** Calls keep the invariant and run the function's own callback, cached or not. */
module EngineCalls {
  import opened Engine
  import opened EngineSafety

  lemma CallEvalKeeps(c: Core, u: User, us: UserState, id: Id, loads: bool)
    requires CoreInv(c) && UserInv(c, u, us) && id in c.evals
    ensures UserInv(c, u, CallEval(us, u, id, c.evals[id], loads).0)
  {
  }

  /** A script runs its own source, in the state of the caller, unless it is not cached and does not load. */
  lemma CallEvalRuns(c: Core, u: User, us: UserState, id: Id, loads: bool)
    requires UserInv(c, u, us) && id in c.evals
    ensures CallEval(us, u, id, c.evals[id], loads).1 ==
      if id in us.evalCache || loads then Ran(Callback(u, c.evals[id], [])) else LoadError
  {
  }

  /** Every name the library of a kept function registers belongs to a kept function of it. */
  lemma Owner(c: Core, id: Id, i: nat) returns (same: Id)
    requires Complete(c) && Kept(c, id) && i < |c.funcs[id].code.names|
    ensures Kept(c, same) && c.funcs[same].libId == c.funcs[id].libId && c.funcs[same].name == c.funcs[id].code.names[i]
  {
    var name := c.funcs[id].code.names[i];
    assert name in c.funcs[id].code.names;
    assert HasFunction(c, c.funcs[id].libId, name);
    same :| Kept(c, same) && c.funcs[same].libId == c.funcs[id].libId && c.funcs[same].name == name;
  }

  /** So running the library changes no kept function of another one. */
  lemma OthersKeepNames(c: Core, code: Code, n: nat, id: Id, other: Id)
    requires CoreInv(c) && Kept(c, id) && c.funcs[id].code == code && n <= |code.names|
    requires Kept(c, other) && c.funcs[other].libId != c.funcs[id].libId
    ensures c.funcs[other].name !in code.names[..n]
  {
    forall i | 0 <= i < n
      ensures code.names[..n][i] != c.funcs[other].name
    {
      var same := Owner(c, id, i);
    }
  }

  /** Running the library of a kept function registers its functions and leaves the others registered. */
  lemma RunRegisters(c: Core, u: User, us: UserState, id: Id, load: Load)
    requires CoreInv(c) && UserInv(c, u, us) && Kept(c, id)
    ensures var f := c.funcs[id];
      Registered(c, u, RunLibrary(us, u, f.libId, f.code, load))
  {
    var f := c.funcs[id];
    var run, n := RunLibrary(us, u, f.libId, f.code, load), Registrations(f.code, load);
    if f.libId !in us.compiled {
      forall other: Id | Kept(c, other) && c.funcs[other].libId in run.compiled
        ensures c.funcs[other].name in run.functions && run.functions[c.funcs[other].name] == Own(u, c.funcs[other])
      {
        RegisterAt(us.functions, u, f.code, n, c.funcs[other].name);
        if c.funcs[other].libId == f.libId {
          assert n == |f.code.names| && f.code.names[..n] == f.code.names;
          assert c.funcs[other].code == f.code && c.funcs[other].name in f.code.names;
        } else {
          OthersKeepNames(c, f.code, n, id, other);
        }
      }
    }
  }

  lemma RunKeeps(c: Core, u: User, us: UserState, id: Id, load: Load)
    requires CoreInv(c) && UserInv(c, u, us) && Kept(c, id) && c.doomed == {}
    ensures UserInv(c, u, RunLibrary(us, u, c.funcs[id].libId, c.funcs[id].code, load))
  {
    var f := c.funcs[id];
    var run := RunLibrary(us, u, f.libId, f.code, load);
    assert f.libId in c.libraries;
    RunRegisters(c, u, us, id, load);
    RunBounds(c, u, us, f, load, run);
    RunCaches(c, u, us, f, load, run);
  }

  lemma RunBounds(c: Core, u: User, us: UserState, f: Compiled, load: Load, run: UserState)
    requires UserBounded(c, us) && f.libId <= c.nextLibId && run == RunLibrary(us, u, f.libId, f.code, load)
    ensures UserBounded(c, run)
  {
  }

  lemma RunCaches(c: Core, u: User, us: UserState, f: Compiled, load: Load, run: UserState)
    requires Cached(c, u, us) && c.doomed == {} && run == RunLibrary(us, u, f.libId, f.code, load)
    ensures Cached(c, u, run) && Safe(c, run)
  {
  }

  /** The lookup finds the function's own callback and the cache keeps it. */
  lemma LookUpFinds(c: Core, u: User, us: UserState, id: Id)
    requires CoreInv(c) && UserInv(c, u, us) && Kept(c, id) && c.funcs[id].libId in us.compiled
    ensures LookUp(us, id, c.funcs[id].name).1 == Ran(Own(u, c.funcs[id]))
    ensures UserInv(c, u, LookUp(us, id, c.funcs[id].name).0)
  {
  }

  /**
    A call of a live function, cached or not, runs the callback its own source registers, in the
    caller's own state. It fails only where the library has to be run first and stops with an error.
   */
  lemma CallFunctionRuns(c: Core, u: User, us: UserState, id: Id, load: Load)
    requires CoreInv(c) && UserInv(c, u, us) && c.doomed == {} && id in c.funcs
    ensures var (after, outcome) := CallFunction(c.libraries, us, u, id, c.funcs[id], load);
      && UserInv(c, u, after)
      && outcome == if id in us.funcCache || c.funcs[id].libId in us.compiled || load.Completes? then Ran(Own(u, c.funcs[id]))
                    else LoadError
  {
    var f := c.funcs[id];
    assert Kept(c, id);
    if id !in us.funcCache {
      RunKeeps(c, u, us, id, load);
      var run := RunLibrary(us, u, f.libId, f.code, load);
      if f.libId in run.compiled {
        LookUpFinds(c, u, run, id);
      }
    }
  }
}
