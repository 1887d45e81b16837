/** Freeing, resetting and whole runs. */
module EngineRuns {
  import opened Engine
  import opened EngineSafety
  import opened EngineCalls

  // ----- deleting -----

  function Doom(c: Core, ids: set<Id>): Core {
    c.(doomed := c.doomed + ids)
  }

  lemma DoomKeeps(c: Core, libId: Id)
    requires CoreInv(c)
    ensures CoreInv(Doom(c, Members(c.funcs, libId)))
  {
    var d := Doom(c, Members(c.funcs, libId));
    forall id: Id, name | Kept(d, id) && name in d.funcs[id].code.names
      ensures HasFunction(d, d.funcs[id].libId, name)
    {
      assert Kept(c, id) && HasFunction(c, c.funcs[id].libId, name);
      var other :| Kept(c, other) && c.funcs[other].libId == c.funcs[id].libId && c.funcs[other].name == name;
      assert Kept(d, other);
    }
    assert forall id :: Kept(d, id) ==> Kept(c, id);
  }

  /** A function of the doomed library shares its name with none of another. */
  lemma DoomedNames(c: Core, libId: Id, a: Id, b: Id)
    requires Distinct(c) && Kept(c, a) && Kept(c, b) && c.funcs[a].libId == libId != c.funcs[b].libId
    ensures c.funcs[a].name != c.funcs[b].name
  {
  }

  lemma DoomKeepsUser(c: Core, libId: Id, u: User, us: UserState)
    requires CoreInv(c) && UserInv(c, u, us)
    ensures UserInv(Doom(c, Members(c.funcs, libId)), u, us)
  {
    var d := Doom(c, Members(c.funcs, libId));
    forall a: Id, b: Id | a in d.doomed && a in d.funcs && Kept(d, b) && d.funcs[a].name == d.funcs[b].name
      ensures d.funcs[b].libId !in us.compiled
    {
      assert Kept(c, b);
      if a !in c.doomed {
        DoomedNames(c, libId, a, b);
      }
    }
    assert forall id :: Kept(d, id) ==> Kept(c, id);
  }

  // ----- freeing -----

  lemma FreeEvalKeeps(c: Core, id: Id)
    requires CoreInv(c) && id in c.evals
    ensures CoreInv(FreeEval(c, id))
  {
    var d := FreeEval(c, id);
    forall other: Id, name | Kept(d, other) && name in d.funcs[other].code.names
      ensures HasFunction(d, d.funcs[other].libId, name)
    {
      assert Kept(c, other) && HasFunction(c, c.funcs[other].libId, name);
      var same :| Kept(c, same) && c.funcs[same].libId == c.funcs[other].libId && c.funcs[same].name == name;
      assert Kept(d, same);
    }
    assert forall other :: Kept(d, other) ==> Kept(c, other);
  }

  lemma FreeEvalKeepsUser(c: Core, id: Id, u: User, us: UserState)
    requires CoreInv(c) && UserInv(c, u, us) && id in c.evals
    ensures UserInv(FreeEval(c, id), u, us)
  {
    assert forall other :: Kept(FreeEval(c, id), other) ==> Kept(c, other);
  }

  lemma FreedMembers(funcs: map<Id, Compiled>, id: Id, k: Id)
    requires id in funcs
    ensures Members(funcs - {id}, k) == Members(funcs, k) - {id}
    ensures |Members(funcs - {id}, k)| == |Members(funcs, k)| - if funcs[id].libId == k then 1 else 0
  {
    assert Members(funcs - {id}, k) == Members(funcs, k) - {id};
    if funcs[id].libId == k {
      assert id in Members(funcs, k);
    } else {
      assert Members(funcs, k) - {id} == Members(funcs, k);
    }
  }

  lemma FreeCounts(c: Core, id: Id)
    requires Counted(c) && id in c.funcs
    ensures Counted(FreeFunction(c, id))
  {
    var d := FreeFunction(c, id);
    forall k | k in d.libraries
      ensures d.libraries[k].refCount == |Members(d.funcs, k)|
    {
      FreedMembers(c.funcs, id, k);
    }
  }

  /** A library goes only when none of its functions is left. */
  lemma LibraryStays(c: Core, id: Id, other: Id)
    requires Counted(c) && id in c.funcs && other in c.funcs && other != id && c.funcs[other].libId in c.libraries
    ensures var k, d := c.funcs[other].libId, FreeFunction(c, id);
      k in d.libraries && d.libraries[k].code == c.libraries[k].code
  {
    var k := c.funcs[other].libId;
    if c.funcs[id].libId == k {
      TwoMembers(Members(c.funcs, k), id, other);
    }
  }

  lemma TwoMembers(ids: set<Id>, a: Id, b: Id)
    requires a in ids && b in ids && a != b
    ensures 2 <= |ids|
  {
    assert {a, b} * (ids - {a, b}) == {};
    assert ids == {a, b} + (ids - {a, b});
  }

  lemma FreePresent(c: Core, id: Id)
    requires CoreInv(c) && id in c.funcs && id in c.doomed
    ensures Present(FreeFunction(c, id))
  {
    var d := FreeFunction(c, id);
    forall other: Id | Kept(d, other)
      ensures d.funcs[other].libId in d.libraries && d.libraries[d.funcs[other].libId].code == d.funcs[other].code
      ensures d.funcs[other].name in d.funcs[other].code.names
    {
      assert Kept(c, other);
      LibraryStays(c, id, other);
    }
  }

  lemma FreeComplete(c: Core, id: Id)
    requires Complete(c) && Distinct(c) && id in c.funcs && id in c.doomed
    ensures Complete(FreeFunction(c, id)) && Distinct(FreeFunction(c, id))
  {
    var d := FreeFunction(c, id);
    forall other: Id, name | Kept(d, other) && name in d.funcs[other].code.names
      ensures HasFunction(d, d.funcs[other].libId, name)
    {
      assert Kept(c, other) && HasFunction(c, c.funcs[other].libId, name);
      var same :| Kept(c, same) && c.funcs[same].libId == c.funcs[other].libId && c.funcs[same].name == name;
      assert Kept(d, same);
    }
    assert forall other :: Kept(d, other) ==> Kept(c, other);
  }

  lemma FreeFunctionKeeps(c: Core, id: Id)
    requires CoreInv(c) && id in c.funcs && id in c.doomed
    ensures CoreInv(FreeFunction(c, id))
  {
    FreeCounts(c, id);
    FreePresent(c, id);
    FreeComplete(c, id);
  }

  /** The name leaves the state of every user: no function kept needs it there. */
  lemma FreeFunctionKeepsUser(c: Core, id: Id, u: User, us: UserState)
    requires CoreInv(c) && UserInv(c, u, us) && id in c.funcs && id in c.doomed
    ensures UserInv(FreeFunction(c, id), u, Forget(us, c.funcs[id].name))
  {
    var d := FreeFunction(c, id);
    assert forall other :: Kept(d, other) ==> Kept(c, other);
  }

  // ----- resetting -----

  lemma ResetKeeps(c: Core, kind: Kind)
    requires CoreInv(c)
    ensures CoreInv(ResetCore(c, kind))
  {
    if kind != EvalOnly {
      assert forall id :: !Kept(ResetCore(c, kind), id);
    }
  }

  lemma ResetKeepsUser(c: Core, kind: Kind, u: User, us: UserState)
    requires CoreInv(c) && UserInv(c, u, us)
    ensures UserInv(ResetCore(c, kind), u, ResetUser(us, kind))
  {
    if kind != EvalOnly {
      assert forall id :: !Kept(ResetCore(c, kind), id);
    }
  }

  // ----- runs -----

  lemma StepKeepsCore(s: State, e: Event)
    requires Inv(s) && Disciplined(s.core, e)
    ensures CoreInv(Step(s, e).core)
  {
    var c := s.core;
    match e
    case DoCompileEval(source, ok) => CompileEvalKeeps(c, source, ok);
    case DoCompileLibrary(code, ok, replaced) => CompileLibraryKeeps(c, code, ok, replaced);
    case DoDelete(libId) => DoomKeeps(c, libId);
    case DoCallEval(_, _, _) =>
    case DoCallFunction(_, _, _) =>
    case DoFreeEval(id) => FreeEvalKeeps(c, id);
    case DoFreeFunction(id) => FreeFunctionKeeps(c, id);
    case DoReset(kind) => ResetKeeps(c, kind);
  }

  lemma StepKeepsUser(s: State, e: Event, u: User)
    requires Inv(s) && Disciplined(s.core, e) && u in Step(s, e).users
    ensures UserInv(Step(s, e).core, u, Step(s, e).users[u])
  {
    var c, us := s.core, UserOf(s, u);
    UserKept(s, u);
    match e
    case DoCompileEval(source, ok) => CompileEvalKeepsUser(c, source, ok, u, us);
    case DoCompileLibrary(code, ok, replaced) => CompileLibraryKeepsUser(c, code, ok, replaced, u, us);
    case DoDelete(libId) => DoomKeepsUser(c, libId, u, us);
    case DoCallEval(_, id, loads) => CallEvalKeeps(c, u, us, id, loads);
    case DoCallFunction(_, id, load) => CallFunctionRuns(c, u, us, id, load);
    case DoFreeEval(id) => FreeEvalKeepsUser(c, id, u, us);
    case DoFreeFunction(id) => FreeFunctionKeepsUser(c, id, u, us);
    case DoReset(kind) => ResetKeepsUser(c, kind, u, us);
  }

  /** Every step of a disciplined host keeps the invariant. */
  lemma StepKeeps(s: State, e: Event)
    requires Inv(s) && Disciplined(s.core, e)
    ensures Inv(Step(s, e))
  {
    StepKeepsCore(s, e);
    forall u | u in Step(s, e).users
      ensures UserInv(Step(s, e).core, u, Step(s, e).users[u])
    {
      StepKeepsUser(s, e, u);
    }
  }

  /** A run of a disciplined host from s through these states. */
  ghost predicate IsRun(s: State, events: seq<Event>, t: State)
    decreases |events|
  {
    if events == [] then s == t
    else Disciplined(s.core, events[0]) && IsRun(Step(s, events[0]), events[1..], t)
  }

  lemma {:induction false} RunKeeps(s: State, events: seq<Event>, t: State)
    requires Inv(s) && IsRun(s, events, t)
    ensures Inv(t)
    decreases |events|
  {
    if events != [] {
      StepKeeps(s, events[0]);
      RunKeeps(Step(s, events[0]), events[1..], t);
    }
  }

  /** Running the library, where that is still needed, goes through. */
  predicate Runnable(us: UserState, id: Id, f: Compiled, load: Load) {
    id in us.funcCache || f.libId in us.compiled || load.Completes?
  }

  /**
    After any run: reference counts are the numbers of live functions, the library of every
    function kept is there, a call of a script by any user runs its own source, and a call of a
    function by any user runs the function's own callback, unless its library has yet to be run and stops early.
   */
  lemma Safety(events: seq<Event>, t: State)
    requires IsRun(INITIAL, events, t)
    ensures forall k :: k in t.core.libraries ==> t.core.libraries[k].refCount == |Members(t.core.funcs, k)|
    ensures forall id :: Kept(t.core, id) ==> t.core.funcs[id].libId in t.core.libraries
    ensures forall u: User, id: Id, loads: bool :: id in t.core.evals ==>
      CallEval(UserOf(t, u), u, id, t.core.evals[id], loads).1 ==
        if id in UserOf(t, u).evalCache || loads then Ran(Callback(u, t.core.evals[id], [])) else LoadError
    ensures forall u: User, id: Id, load: Load :: t.core.doomed == {} && id in t.core.funcs ==>
      CallFunction(t.core.libraries, UserOf(t, u), u, id, t.core.funcs[id], load).1 ==
        if Runnable(UserOf(t, u), id, t.core.funcs[id], load) then Ran(Own(u, t.core.funcs[id])) else LoadError
  {
    RunKeeps(INITIAL, events, t);
    forall u: User, id: Id, loads: bool | id in t.core.evals
      ensures CallEval(UserOf(t, u), u, id, t.core.evals[id], loads).1 ==
        if id in UserOf(t, u).evalCache || loads then Ran(Callback(u, t.core.evals[id], [])) else LoadError
    {
      UserKept(t, u);
      CallEvalRuns(t.core, u, UserOf(t, u), id, loads);
    }
    forall u: User, id: Id, load: Load | t.core.doomed == {} && id in t.core.funcs
      ensures CallFunction(t.core.libraries, UserOf(t, u), u, id, t.core.funcs[id], load).1 ==
        if Runnable(UserOf(t, u), id, t.core.funcs[id], load) then Ran(Own(u, t.core.funcs[id])) else LoadError
    {
      UserKept(t, u);
      CallFunctionRuns(t.core, u, UserOf(t, u), id, load);
    }
  }

  // ----- function ids -----

  predicate Alive(c: Core, id: Id) {
    id in c.funcs || id in c.evals
  }

  lemma StepReusesNone(s: State, e: Event, id: Id)
    requires Disciplined(s.core, e) && id <= s.core.nextFuncId && !Alive(s.core, id)
    ensures id <= Step(s, e).core.nextFuncId && !Alive(Step(s, e).core, id)
  {
  }

  /** A function id that was handed out and freed never comes back, resets or not. */
  lemma {:induction false} NeverReused(s: State, events: seq<Event>, t: State, id: Id)
    requires IsRun(s, events, t) && id <= s.core.nextFuncId && !Alive(s.core, id)
    ensures id <= t.core.nextFuncId && !Alive(t.core, id)
    decreases |events|
  {
    if events != [] {
      StepReusesNone(s, events[0], id);
      NeverReused(Step(s, events[0]), events[1..], t, id);
    }
  }
}
