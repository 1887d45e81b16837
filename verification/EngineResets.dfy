/** What calls notice of a reset and of the caches (src/engine_luajit.c:472-612, 716-791). */
module EngineResets {
  import opened Engine

  /** The outcome of a function call by u in this state. */
  function FunctionOutcome(s: State, u: User, id: Id, f: Compiled, load: Load): Outcome {
    CallFunction(s.core.libraries, UserOf(s, u), u, id, f, load).1
  }

  function ScriptOutcome(s: State, u: User, id: Id, source: string, loads: bool): Outcome {
    CallEval(UserOf(s, u), u, id, source, loads).1
  }

  ghost function AfterReset(s: State, kind: Kind): State {
    Step(s, DoReset(kind))
  }

  lemma UserAfterReset(s: State, kind: Kind, u: User)
    ensures UserOf(AfterReset(s, kind), u) == if u in s.users && kind != Everything then ResetUser(s.users[u], kind) else FRESH
  {
  }

  /** Once the functions are reset, every user's call of any function misses the library, cached before or not. */
  lemma FunctionsAreGone(s: State, kind: Kind, u: User, id: Id, f: Compiled, load: Load)
    requires kind != EvalOnly
    ensures FunctionOutcome(AfterReset(s, kind), u, id, f, load) == LibraryNotFound
  {
    UserAfterReset(s, kind, u);
  }

  /** Once the scripts are reset, every script has to be loaded again. */
  lemma ScriptsAreGone(s: State, kind: Kind, u: User, id: Id, source: string, loads: bool)
    requires kind != FunctionOnly
    ensures ScriptOutcome(AfterReset(s, kind), u, id, source, loads) == if loads then Ran(Callback(u, source, [])) else LoadError
  {
    UserAfterReset(s, kind, u);
  }

  /** A reset of the one leaves every call of the other as it was. */
  lemma OthersUnaffected(s: State, u: User, id: Id, f: Compiled, load: Load, source: string, loads: bool)
    ensures FunctionOutcome(AfterReset(s, EvalOnly), u, id, f, load) == FunctionOutcome(s, u, id, f, load)
    ensures ScriptOutcome(AfterReset(s, FunctionOnly), u, id, source, loads) == ScriptOutcome(s, u, id, source, loads)
  {
    UserAfterReset(s, EvalOnly, u);
    UserAfterReset(s, FunctionOnly, u);
  }

  /**
    The first library after a reset of the functions gets id 1 again, while function ids go on, and no
    function from before is kept.
   */
  lemma IdsAfterReset(s: State, kind: Kind, code: Code, id: Id)
    requires kind != EvalOnly
    ensures var c := CompileLibrary(AfterReset(s, kind).core, code, true, {});
      && c.libraries == map[1 := Library(code, |code.names|)]
      && c.nextFuncId == s.core.nextFuncId + |code.names|
      && (Kept(c, id) ==> s.core.nextFuncId < id <= c.nextFuncId || id !in s.core.funcs)
  {
  }

  /** A script that loads gets the next id, and the functions of a library the next ones in their order. */
  lemma IdsInOrder(c: Core, source: string, code: Code, i: nat)
    requires i < |code.names|
    ensures var d := CompileEval(c, source, true);
      d.nextFuncId == c.nextFuncId + 1 && d.nextFuncId in d.evals && d.evals[d.nextFuncId] == source
    ensures var d, id := CompileLibrary(c, code, true, {}), c.nextFuncId + 1 + i;
      id in d.funcs && d.funcs[id] == Compiled(c.nextLibId + 1, code.names[i], code)
  {
  }

  /** A script that ran once runs again without being loaded, with nothing changed by it. */
  lemma ScriptLoadsOnce(us: UserState, u: User, id: Id, source: string, loads: bool, again: bool)
    requires CallEval(us, u, id, source, loads).1.Ran?
    ensures var after := CallEval(us, u, id, source, loads).0;
      CallEval(after, u, id, source, again) == (after, CallEval(us, u, id, source, loads).1)
  {
  }

  /** A function that ran once runs again even without its library, with nothing changed by it. */
  lemma FunctionFoundOnce(libraries: map<Id, Library>, left: map<Id, Library>, us: UserState, u: User, id: Id, f: Compiled,
                          load: Load, again: Load)
    requires CallFunction(libraries, us, u, id, f, load).1.Ran?
    ensures var after := CallFunction(libraries, us, u, id, f, load).0;
      CallFunction(left, after, u, id, f, again) == (after, CallFunction(libraries, us, u, id, f, load).1)
  {
  }

  /** A library that ran to its end is not run again: a second function of it is only looked up. */
  lemma LibraryRunsOnce(libraries: map<Id, Library>, us: UserState, u: User, id: Id, f: Compiled, load: Load,
                        other: Id, g: Compiled, again: Load)
    requires CallFunction(libraries, us, u, id, f, load).1.Ran? && id !in us.funcCache
    requires g.libId == f.libId && other != id && other !in us.funcCache
    ensures var after := CallFunction(libraries, us, u, id, f, load).0;
      CallFunction(libraries, after, u, other, g, again) == LookUp(after, other, g.name)
  {
  }
}
