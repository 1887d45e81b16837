/**
  The life cycle of compiled scripts and libraries (src/engine_luajit.c:384-669, 716-809,
  src/script_luajit.c:1690-1778): what each callback of the host does to the engine.
 */
module Engine {
  import opened Bytes

  type Id = nat
  /** The name a function is registered under: a C string. */
  type Name = s: seq<byte> | CString(s)
  type User = string

  /** Library code: its text and the functions it registers, in order. Running it twice registers the same. */
  datatype Code = Code(text: string, names: seq<Name>)

  /** A Lua function in the state of one user, made by running code there. Eval scripts have no name. */
  datatype Callback = Callback(user: User, text: string, name: Name)

  datatype Library = Library(code: Code, refCount: int)

  /** function_ref, with the code it was compiled from. */
  datatype Compiled = Compiled(libId: Id, name: Name, code: Code)

  /**
    The two Lua states of a user: their function caches by function id, and in the function state
    the libraries already run and the callbacks registered by name.
   */
  datatype UserState = UserState(
    evalCache: map<Id, Callback>,
    funcCache: map<Id, Callback>,
    compiled: set<Id>,
    functions: map<Name, Callback>)

  const FRESH := UserState(map[], map[], {}, map[])

  /**
    The engine's libraries and counters, and what the host holds: the live eval scripts and library
    functions, and the functions it is about to free because their library was replaced, deleted or
    reset.
   */
  datatype Core = Core(
    libraries: map<Id, Library>,
    nextFuncId: Id,
    nextLibId: Id,
    evals: map<Id, string>,
    funcs: map<Id, Compiled>,
    doomed: set<Id>)

  datatype State = State(core: Core, users: map<User, UserState>)

  const INITIAL := State(Core(map[], 0, 0, map[], map[], {}), map[])

  function UserOf(s: State, u: User): UserState {
    if u in s.users then s.users[u] else FRESH
  }

  // ----- compiling -----

  /** luajitEngineCompileCode for a script: ok tells whether it loads. */
  function CompileEval(c: Core, source: string, ok: bool): Core {
    if ok then c.(evals := c.evals[c.nextFuncId + 1 := source], nextFuncId := c.nextFuncId + 1) else c
  }

  /** The first n functions of a new library, with consecutive ids after next. */
  function NewFunctions(next: Id, libId: Id, code: Code, n: nat): (fs: map<Id, Compiled>)
    requires n <= |code.names|
    ensures forall id: Id :: id in fs <==> next < id <= next + n
    ensures forall id: Id :: id in fs ==> fs[id] == Compiled(libId, code.names[id - next - 1], code)
  {
    if n == 0 then map[]
    else NewFunctions(next, libId, code, n - 1)[next + n := Compiled(libId, code.names[n - 1], code)]
  }

  /** The live functions of a library. */
  function Members(funcs: map<Id, Compiled>, libId: Id): set<Id> {
    set id | id in funcs && funcs[id].libId == libId
  }

  /** luajitEngineCompileCode for a library; the host then drops the functions it replaces, if any. */
  function CompileLibrary(c: Core, code: Code, ok: bool, replaced: set<Id>): Core {
    if !ok then c
    else
      var libId := c.nextLibId + 1;
      Core(c.libraries[libId := Library(code, |code.names|)],
           c.nextFuncId + |code.names|,
           libId,
           c.evals,
           c.funcs + NewFunctions(c.nextFuncId, libId, code, |code.names|),
           c.doomed + replaced)
  }

  // ----- calling -----

  datatype Outcome = Ran(callback: Callback) | LoadError | LibraryNotFound | FunctionNotFound

  function CallEval(us: UserState, u: User, id: Id, source: string, loads: bool): (UserState, Outcome) {
    if id in us.evalCache then (us, Ran(us.evalCache[id]))
    else if !loads then (us, LoadError)
    else
      var callback := Callback(u, source, []);
      (us.(evalCache := us.evalCache[id := callback]), Ran(callback))
  }

  /** The first n registrations of the code. */
  function Register(functions: map<Name, Callback>, u: User, code: Code, n: nat): map<Name, Callback>
    requires n <= |code.names|
  {
    if n == 0 then functions
    else Register(functions, u, code, n - 1)[code.names[n - 1] := Callback(u, code.text, code.names[n - 1])]
  }

  /** Running a library in the state of a user; it may stop with an error after some registrations. */
  datatype Load = Completes | StopsAfter(registered: nat)

  function Registrations(code: Code, load: Load): (n: nat)
    ensures n <= |code.names|
  {
    if load.StopsAfter? && load.registered < |code.names| then load.registered else |code.names|
  }

  /** luajitCompileLibraryInUserState where the library has not been run yet. */
  function RunLibrary(us: UserState, u: User, libId: Id, code: Code, load: Load): UserState {
    if libId in us.compiled then us
    else
      us.(functions := Register(us.functions, u, code, Registrations(code, load)),
          compiled := if load.Completes? then us.compiled + {libId} else us.compiled)
  }

  /** The lookup in the table of registered functions, cached under the function id. */
  function LookUp(us: UserState, id: Id, name: Name): (UserState, Outcome) {
    if name in us.functions then (us.(funcCache := us.funcCache[id := us.functions[name]]), Ran(us.functions[name]))
    else (us, FunctionNotFound)
  }

  /** luajitEngineFunctionCall. */
  function CallFunction(libraries: map<Id, Library>, us: UserState, u: User, id: Id, f: Compiled, load: Load): (UserState, Outcome) {
    if id in us.funcCache then (us, Ran(us.funcCache[id]))
    else if f.libId !in libraries then (us, LibraryNotFound)
    else
      var run := RunLibrary(us, u, f.libId, libraries[f.libId].code, load);
      if f.libId !in run.compiled then (run, LoadError) else LookUp(run, id, f.name)
  }

  // ----- freeing -----

  function FreeEval(c: Core, id: Id): Core {
    c.(evals := c.evals - {id})
  }

  /** luajitRemoveFunctionFromUserState. */
  function Forget(us: UserState, name: Name): UserState {
    us.(functions := us.functions - {name})
  }

  function ForgetEverywhere(users: map<User, UserState>, name: Name): map<User, UserState> {
    map u | u in users :: Forget(users[u], name)
  }

  /** One reference less; the library goes with the last one. */
  function Release(libraries: map<Id, Library>, libId: Id): map<Id, Library> {
    if libId !in libraries then libraries
    else
      var lib := libraries[libId];
      if lib.refCount - 1 == 0 then libraries - {libId} else libraries[libId := lib.(refCount := lib.refCount - 1)]
  }

  function FreeFunction(c: Core, id: Id): Core
    requires id in c.funcs
  {
    c.(libraries := Release(c.libraries, c.funcs[id].libId), funcs := c.funcs - {id}, doomed := c.doomed - {id})
  }

  // ----- resetting -----

  datatype Kind = EvalOnly | FunctionOnly | Everything

  function ResetUser(us: UserState, kind: Kind): UserState {
    if kind == EvalOnly then us.(evalCache := map[])
    else us.(funcCache := map[], compiled := {}, functions := map[])
  }

  function ResetUsers(users: map<User, UserState>, kind: Kind): map<User, UserState> {
    if kind == Everything then map[] else map u | u in users :: ResetUser(users[u], kind)
  }

  /** luajitEngineResetEnv; the host then frees what a reset of the libraries left behind. */
  function ResetCore(c: Core, kind: Kind): Core {
    if kind == EvalOnly then c else c.(libraries := map[], nextLibId := 0, doomed := c.doomed + c.funcs.Keys)
  }

  // ----- runs -----

  datatype Event =
    | DoCompileEval(source: string, ok: bool)
    | DoCompileLibrary(code: Code, ok: bool, replaced: set<Id>)
    | DoDelete(libId: Id)
    | DoCallEval(u: User, id: Id, loads: bool)
    | DoCallFunction(u: User, id: Id, load: Load)
    | DoFreeEval(id: Id)
    | DoFreeFunction(id: Id)
    | DoReset(kind: Kind)

  /** A live function that is not about to be freed. */
  predicate Kept(c: Core, id: Id) {
    id in c.funcs && id !in c.doomed
  }

  /** All the functions of one library, perhaps none. */
  ghost predicate WholeLibrary(c: Core, ids: set<Id>) {
    exists libId: Id :: ids == Members(c.funcs, libId)
  }

  /**
    What the engine may expect of the host: it uses only what it holds, frees a library as a whole,
    and frees what was replaced, deleted or reset before the next library is compiled or called.
    Two libraries share a function name only while one replaces the other.
   */
  ghost predicate Disciplined(c: Core, e: Event) {
    match e
    case DoCompileEval(_, _) => true
    case DoCompileLibrary(code, _, replaced) =>
      && c.doomed == {} && WholeLibrary(c, replaced)
      && forall id :: id in c.funcs && id !in replaced ==> c.funcs[id].name !in code.names
    case DoDelete(_) => true
    case DoCallEval(_, id, _) => id in c.evals
    case DoCallFunction(_, id, _) => c.doomed == {} && id in c.funcs
    case DoFreeEval(id) => id in c.evals
    case DoFreeFunction(id) => id in c.funcs && id in c.doomed
    case DoReset(_) => true
  }

  ghost function Step(s: State, e: Event): State
    requires Disciplined(s.core, e)
  {
    var c := s.core;
    match e
    case DoCompileEval(source, ok) => s.(core := CompileEval(c, source, ok))
    case DoCompileLibrary(code, ok, replaced) => s.(core := CompileLibrary(c, code, ok, replaced))
    case DoDelete(libId) => s.(core := c.(doomed := c.doomed + Members(c.funcs, libId)))
    case DoCallEval(u, id, loads) => s.(users := s.users[u := CallEval(UserOf(s, u), u, id, c.evals[id], loads).0])
    case DoCallFunction(u, id, load) =>
      s.(users := s.users[u := CallFunction(c.libraries, UserOf(s, u), u, id, c.funcs[id], load).0])
    case DoFreeEval(id) => s.(core := FreeEval(c, id))
    case DoFreeFunction(id) => State(FreeFunction(c, id), ForgetEverywhere(s.users, c.funcs[id].name))
    case DoReset(kind) => State(ResetCore(c, kind), ResetUsers(s.users, kind))
  }
}
