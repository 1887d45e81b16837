/** What every run of a disciplined host keeps, and that every call runs the function's own callback. */
module EngineSafety {
  import opened Engine

  /** The callback that the source of a library function registers under its name, in the state of u. */
  function Own(u: User, f: Compiled): Callback {
    Callback(u, f.code.text, f.name)
  }

  // ----- the invariant -----

  /** Reference counts are the numbers of live functions. */
  predicate Counted(c: Core) {
    CountedIn(c.funcs, c.libraries)
  }

  predicate CountedIn(funcs: map<Id, Compiled>, libraries: map<Id, Library>) {
    forall k :: k in libraries ==> libraries[k].refCount == |Members(funcs, k)|
  }

  /** All ids in use were handed out, to one function each. */
  predicate Bounded(c: Core) {
    && (forall id :: id in c.funcs ==> id <= c.nextFuncId && id !in c.evals)
    && (forall id :: id in c.evals ==> id <= c.nextFuncId)
    && (forall k :: k in c.libraries ==> k <= c.nextLibId)
    && (forall id :: id in c.doomed ==> id in c.funcs)
  }

  /** The library of every function kept is there, with the code the function was compiled from. */
  ghost predicate Present(c: Core) {
    forall id :: Kept(c, id) ==>
      && c.funcs[id].libId in c.libraries && c.libraries[c.funcs[id].libId].code == c.funcs[id].code
      && c.funcs[id].name in c.funcs[id].code.names
  }

  ghost predicate HasFunction(c: Core, libId: Id, name: Name) {
    exists id :: Kept(c, id) && c.funcs[id].libId == libId && c.funcs[id].name == name
  }

  /** Every name the library of a kept function registers is the name of a kept function of it. */
  ghost predicate Complete(c: Core) {
    forall id, name :: Kept(c, id) && name in c.funcs[id].code.names ==> HasFunction(c, c.funcs[id].libId, name)
  }

  /** No two libraries kept share a name. */
  ghost predicate Distinct(c: Core) {
    forall a, b :: Kept(c, a) && Kept(c, b) && c.funcs[a].name == c.funcs[b].name ==> c.funcs[a].libId == c.funcs[b].libId
  }

  ghost predicate CoreInv(c: Core) {
    Counted(c) && Bounded(c) && Present(c) && Complete(c) && Distinct(c)
  }

  predicate UserBounded(c: Core, us: UserState) {
    && (forall id :: id in us.funcCache ==> id <= c.nextFuncId)
    && (forall id :: id in us.evalCache ==> id <= c.nextFuncId)
    && (forall k :: k in us.compiled ==> k <= c.nextLibId)
  }

  /** A cached callback is the function's own, whatever happened since. */
  predicate Cached(c: Core, u: User, us: UserState) {
    && (forall id :: id in us.funcCache && id in c.funcs ==> us.funcCache[id] == Own(u, c.funcs[id]))
    && (forall id :: id in us.evalCache && id in c.evals ==> us.evalCache[id] == Callback(u, c.evals[id], []))
  }

  /** Every kept function of a library that u has run is registered. */
  ghost predicate Registered(c: Core, u: User, us: UserState) {
    forall id :: Kept(c, id) && c.funcs[id].libId in us.compiled ==>
      c.funcs[id].name in us.functions && us.functions[c.funcs[id].name] == Own(u, c.funcs[id])
  }

  /** A name about to be freed is not one that u still needs. */
  ghost predicate Safe(c: Core, us: UserState) {
    forall a, b :: a in c.doomed && a in c.funcs && Kept(c, b) && c.funcs[a].name == c.funcs[b].name ==>
      c.funcs[b].libId !in us.compiled
  }

  ghost predicate UserInv(c: Core, u: User, us: UserState) {
    UserBounded(c, us) && Cached(c, u, us) && Registered(c, u, us) && Safe(c, us)
  }

  ghost predicate Inv(s: State) {
    CoreInv(s.core) && forall u :: u in s.users ==> UserInv(s.core, u, s.users[u])
  }

  lemma FreshUser(c: Core, u: User)
    ensures UserInv(c, u, FRESH)
  {
  }

  lemma UserKept(s: State, u: User)
    requires Inv(s)
    ensures UserInv(s.core, u, UserOf(s, u))
  {
    FreshUser(s.core, u);
  }

  // ----- registering -----

  lemma {:induction false} RegisterAt(functions: map<Name, Callback>, u: User, code: Code, n: nat, name: Name)
    requires n <= |code.names|
    ensures var r := Register(functions, u, code, n);
      if name in code.names[..n] then name in r && r[name] == Callback(u, code.text, name)
      else (name in r <==> name in functions) && (name in r ==> r[name] == functions[name])
  {
    if n != 0 {
      RegisterAt(functions, u, code, n - 1, name);
      assert code.names[..n] == code.names[..n - 1] + [code.names[n - 1]];
    }
  }

  // ----- compiling -----

  lemma CompileEvalKeeps(c: Core, source: string, ok: bool)
    requires CoreInv(c)
    ensures CoreInv(CompileEval(c, source, ok))
  {
    var d := CompileEval(c, source, ok);
    forall id: Id, name | Kept(d, id) && name in d.funcs[id].code.names
      ensures HasFunction(d, d.funcs[id].libId, name)
    {
      assert Kept(c, id) && HasFunction(c, c.funcs[id].libId, name);
      var other :| Kept(c, other) && c.funcs[other].libId == c.funcs[id].libId && c.funcs[other].name == name;
      assert Kept(d, other);
    }
    assert forall id :: Kept(d, id) ==> Kept(c, id);
  }

  lemma CompileEvalKeepsUser(c: Core, source: string, ok: bool, u: User, us: UserState)
    requires CoreInv(c) && UserInv(c, u, us)
    ensures UserInv(CompileEval(c, source, ok), u, us)
  {
    var d := CompileEval(c, source, ok);
    assert forall id :: Kept(d, id) ==> Kept(c, id);
  }

  /** One key more. */
  predicate Grows(before: map<Id, Compiled>, after: map<Id, Compiled>, id: Id) {
    after.Keys == before.Keys + {id} && id !in before
  }

  lemma OneMoreKey(before: map<Id, Compiled>, after: map<Id, Compiled>, id: Id)
    requires Grows(before, after, id)
    ensures |after.Keys| == |before.Keys| + 1
  {
  }

  lemma NextFunction(next: Id, libId: Id, code: Code, n: nat, before: map<Id, Compiled>, after: map<Id, Compiled>)
    requires 0 < n <= |code.names|
    requires before == NewFunctions(next, libId, code, n - 1) && after == NewFunctions(next, libId, code, n)
    ensures Grows(before, after, next + n)
  {
  }

  lemma OneMoreFunction(next: Id, libId: Id, code: Code, n: nat, before: map<Id, Compiled>, after: map<Id, Compiled>)
    requires 0 < n <= |code.names|
    requires before == NewFunctions(next, libId, code, n - 1) && after == NewFunctions(next, libId, code, n)
    ensures |after.Keys| == |before.Keys| + 1
  {
    NextFunction(next, libId, code, n, before, after);
    OneMoreKey(before, after, next + n);
  }

  lemma {:induction false} NewFunctionsCount(next: Id, libId: Id, code: Code, n: nat, fs: map<Id, Compiled>)
    requires n <= |code.names| && fs == NewFunctions(next, libId, code, n)
    ensures |fs.Keys| == n
  {
    if n == 0 {
      assert fs.Keys == {};
    } else {
      var before := NewFunctions(next, libId, code, n - 1);
      NewFunctionsCount(next, libId, code, n - 1, before);
      OneMoreFunction(next, libId, code, n, before, fs);
    }
  }

  lemma NewMembers(before: map<Id, Compiled>, added: map<Id, Compiled>, k: Id)
    requires before.Keys !! added.Keys
    requires (forall id :: id in before ==> before[id].libId != k) && (forall id :: id in added ==> added[id].libId == k)
    ensures Members(before + added, k) == added.Keys
  {
  }

  lemma OldMembers(before: map<Id, Compiled>, added: map<Id, Compiled>, j: Id)
    requires before.Keys !! added.Keys && forall id :: id in added ==> added[id].libId != j
    ensures Members(before + added, j) == Members(before, j)
  {
  }

  /** Nothing is about to be freed, so every live function has its library, older than the next one. */
  /** No function is of a library that is still to come. */
  predicate Older(c: Core) {
    forall id :: id in c.funcs ==> c.funcs[id].libId <= c.nextLibId
  }

  lemma NoneNewer(c: Core)
    requires CoreInv(c) && c.doomed == {}
    ensures Older(c)
  {
    forall id | id in c.funcs
      ensures c.funcs[id].libId <= c.nextLibId
    {
      assert Kept(c, id);
    }
  }

  predicate NoneOf(funcs: map<Id, Compiled>, k: Id) {
    forall id :: id in funcs ==> funcs[id].libId != k
  }

  predicate AllOf(funcs: map<Id, Compiled>, k: Id) {
    forall id :: id in funcs ==> funcs[id].libId == k
  }

  predicate Apart(funcs: map<Id, Compiled>, added: map<Id, Compiled>) {
    funcs.Keys !! added.Keys
  }

  lemma OlderIsNone(c: Core, k: Id)
    requires Older(c) && c.nextLibId < k
    ensures NoneOf(c.funcs, k)
  {
  }

  lemma CountsWith(funcs: map<Id, Compiled>, libraries: map<Id, Library>, added: map<Id, Compiled>, k: Id, lib: Library)
    requires CountedIn(funcs, libraries) && k !in libraries && Apart(funcs, added)
    requires NoneOf(funcs, k) && AllOf(added, k) && |added.Keys| == lib.refCount
    ensures CountedIn(funcs + added, libraries[k := lib])
  {
    NewMembers(funcs, added, k);
    forall j | j in libraries[k := lib]
      ensures libraries[k := lib][j].refCount == |Members(funcs + added, j)|
    {
      if j != k {
        OldMembers(funcs, added, j);
      }
    }
  }

  lemma CompileCounts(c: Core, code: Code, replaced: set<Id>)
    requires CoreInv(c) && c.doomed == {}
    ensures Counted(CompileLibrary(c, code, true, replaced))
  {
    var k := c.nextLibId + 1;
    var added := NewFunctions(c.nextFuncId, k, code, |code.names|);
    NoneNewer(c);
    OlderIsNone(c, k);
    NewFunctionsCount(c.nextFuncId, k, code, |code.names|, added);
    AllNew(c, k, code, added);
    CountsWith(c.funcs, c.libraries, added, k, Library(code, |code.names|));
    CompiledCounts(c, code, replaced, k, added);
  }

  lemma CompiledCounts(c: Core, code: Code, replaced: set<Id>, k: Id, added: map<Id, Compiled>)
    requires k == c.nextLibId + 1 && added == NewFunctions(c.nextFuncId, k, code, |code.names|)
    requires CountedIn(c.funcs + added, c.libraries[k := Library(code, |code.names|)])
    ensures Counted(CompileLibrary(c, code, true, replaced))
  {
  }

  lemma AllNew(c: Core, k: Id, code: Code, added: map<Id, Compiled>)
    requires Bounded(c) && k == c.nextLibId + 1 && added == NewFunctions(c.nextFuncId, k, code, |code.names|)
    ensures k !in c.libraries && Apart(c.funcs, added) && AllOf(added, k)
  {
  }

  /** The functions kept after a library was compiled: the old ones not replaced, and the new ones. */
  lemma KeptAfterCompile(c: Core, code: Code, replaced: set<Id>, id: Id)
    requires Bounded(c) && c.doomed == {} && replaced <= c.funcs.Keys
    ensures var d := CompileLibrary(c, code, true, replaced);
      && (Kept(d, id) <==> (Kept(c, id) && id !in replaced) || c.nextFuncId < id <= d.nextFuncId)
      && (id in c.funcs ==> d.funcs[id] == c.funcs[id])
      && (c.nextFuncId < id <= d.nextFuncId ==>
            d.funcs[id] == Compiled(c.nextLibId + 1, code.names[id - c.nextFuncId - 1], code))
  {
  }

  lemma CompileBounds(c: Core, code: Code, replaced: set<Id>)
    requires Bounded(c) && replaced <= c.funcs.Keys
    ensures Bounded(CompileLibrary(c, code, true, replaced))
  {
  }

  lemma CompilePresent(c: Core, code: Code, replaced: set<Id>)
    requires CoreInv(c) && c.doomed == {} && replaced <= c.funcs.Keys
    ensures Present(CompileLibrary(c, code, true, replaced))
  {
    var d := CompileLibrary(c, code, true, replaced);
    NoneNewer(c);
    forall id: Id | Kept(d, id)
      ensures d.funcs[id].libId in d.libraries && d.libraries[d.funcs[id].libId].code == d.funcs[id].code
      ensures d.funcs[id].name in d.funcs[id].code.names
    {
      KeptAfterCompile(c, code, replaced, id);
      if id <= c.nextFuncId {
        assert Kept(c, id);
      }
    }
  }

  /** A library replaced as a whole takes no function of another one with it. */
  lemma StillHas(c: Core, code: Code, replaced: set<Id>, id: Id, name: Name)
    requires CoreInv(c) && c.doomed == {} && WholeLibrary(c, replaced) && Kept(c, id) && id !in replaced
    requires HasFunction(c, c.funcs[id].libId, name)
    ensures HasFunction(CompileLibrary(c, code, true, replaced), c.funcs[id].libId, name)
  {
    var d := CompileLibrary(c, code, true, replaced);
    var other :| Kept(c, other) && c.funcs[other].libId == c.funcs[id].libId && c.funcs[other].name == name;
    var libId: Id :| replaced == Members(c.funcs, libId);
    assert other !in replaced;
    KeptAfterCompile(c, code, replaced, other);
    assert Kept(d, other);
  }

  lemma NewHas(c: Core, code: Code, replaced: set<Id>, name: Name)
    requires Bounded(c) && c.doomed == {} && replaced <= c.funcs.Keys && name in code.names
    ensures HasFunction(CompileLibrary(c, code, true, replaced), c.nextLibId + 1, name)
  {
    var d := CompileLibrary(c, code, true, replaced);
    var i :| 0 <= i < |code.names| && code.names[i] == name;
    var id := c.nextFuncId + 1 + i;
    KeptAfterCompile(c, code, replaced, id);
    assert Kept(d, id) && d.funcs[id].name == name;
  }

  lemma CompileComplete(c: Core, code: Code, replaced: set<Id>)
    requires CoreInv(c) && c.doomed == {} && WholeLibrary(c, replaced)
    ensures Complete(CompileLibrary(c, code, true, replaced))
  {
    var d := CompileLibrary(c, code, true, replaced);
    forall id: Id, name | Kept(d, id) && name in d.funcs[id].code.names
      ensures HasFunction(d, d.funcs[id].libId, name)
    {
      KeptAfterCompile(c, code, replaced, id);
      if id <= c.nextFuncId {
        StillHas(c, code, replaced, id, name);
      } else {
        NewHas(c, code, replaced, name);
      }
    }
  }

  lemma CompileDistinct(c: Core, code: Code, replaced: set<Id>)
    requires CoreInv(c) && Disciplined(c, DoCompileLibrary(code, true, replaced))
    ensures Distinct(CompileLibrary(c, code, true, replaced))
  {
    var d := CompileLibrary(c, code, true, replaced);
    forall a: Id, b: Id | Kept(d, a) && Kept(d, b) && d.funcs[a].name == d.funcs[b].name
      ensures d.funcs[a].libId == d.funcs[b].libId
    {
      KeptAfterCompile(c, code, replaced, a);
      KeptAfterCompile(c, code, replaced, b);
    }
  }

  lemma CompileLibraryKeeps(c: Core, code: Code, ok: bool, replaced: set<Id>)
    requires CoreInv(c) && Disciplined(c, DoCompileLibrary(code, ok, replaced))
    ensures CoreInv(CompileLibrary(c, code, ok, replaced))
  {
    if ok {
      CompileCounts(c, code, replaced);
      CompileBounds(c, code, replaced);
      CompilePresent(c, code, replaced);
      CompileComplete(c, code, replaced);
      CompileDistinct(c, code, replaced);
    }
  }

  lemma CompileRegistered(c: Core, code: Code, replaced: set<Id>, u: User, us: UserState)
    requires Bounded(c) && c.doomed == {} && replaced <= c.funcs.Keys && UserInv(c, u, us)
    ensures Registered(CompileLibrary(c, code, true, replaced), u, us)
  {
    var d := CompileLibrary(c, code, true, replaced);
    forall id: Id | Kept(d, id) && d.funcs[id].libId in us.compiled
      ensures d.funcs[id].name in us.functions && us.functions[d.funcs[id].name] == Own(u, d.funcs[id])
    {
      KeptAfterCompile(c, code, replaced, id);
    }
  }

  /** A replaced function shares its name with no function kept from before. */
  lemma ReplacedNames(c: Core, replaced: set<Id>, a: Id, b: Id)
    requires Distinct(c) && c.doomed == {} && WholeLibrary(c, replaced)
    requires a in replaced && Kept(c, b) && b !in replaced
    ensures c.funcs[a].name != c.funcs[b].name
  {
    var libId: Id :| replaced == Members(c.funcs, libId);
    assert Kept(c, a);
  }

  lemma CompileSafe(c: Core, code: Code, replaced: set<Id>, u: User, us: UserState)
    requires CoreInv(c) && c.doomed == {} && WholeLibrary(c, replaced) && UserInv(c, u, us)
    ensures Safe(CompileLibrary(c, code, true, replaced), us)
  {
    var d := CompileLibrary(c, code, true, replaced);
    forall a: Id, b: Id | a in d.doomed && a in d.funcs && Kept(d, b) && d.funcs[a].name == d.funcs[b].name
      ensures d.funcs[b].libId !in us.compiled
    {
      KeptAfterCompile(c, code, replaced, b);
      if b <= c.nextFuncId {
        ReplacedNames(c, replaced, a, b);
      }
    }
  }

  lemma CompileUserBounded(c: Core, code: Code, replaced: set<Id>, u: User, us: UserState)
    requires Bounded(c) && UserInv(c, u, us)
    ensures var d := CompileLibrary(c, code, true, replaced); UserBounded(d, us) && Cached(d, u, us)
  {
  }

  lemma CompileLibraryKeepsUser(c: Core, code: Code, ok: bool, replaced: set<Id>, u: User, us: UserState)
    requires CoreInv(c) && Disciplined(c, DoCompileLibrary(code, ok, replaced)) && UserInv(c, u, us)
    ensures UserInv(CompileLibrary(c, code, ok, replaced), u, us)
  {
    if ok {
      CompileRegistered(c, code, replaced, u, us);
      CompileSafe(c, code, replaced, u, us);
      CompileUserBounded(c, code, replaced, u, us);
    }
  }
}
