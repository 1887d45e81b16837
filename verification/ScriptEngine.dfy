/** The engine context with its dictionaries and counters, updated by each callback (src/engine_luajit.c:384-669, 716-809). */
module ScriptEngine {
  import opened Engine
  import opened Bytes
  import opened LuaObjects
  import opened Resp
  import opened RespStack

  // ----- the Lua stack during a call -----

  /** How the Lua function ends: with a value, sent under a protocol version, or with an error. */
  datatype Answer = Returns(v: Lua, resp: nat) | Fails(text: seq<byte>)

  /** The one reply of a call whose function ran, top being where its result stands. */
  function AnswerTokens(a: Answer, next: Order, top: nat, limit: nat): seq<Token> {
    match a
    case Returns(v, resp) => Tokens(ToReply(v, resp, next, top, limit))
    case Fails(text) => [Whole(Error(text))]
  }

  /** lua_pcall(lua, nargs, 1, -nargs - 2): the handler must stand right under the function. */
  method PCall(lua: Interpreter, ghost base: seq<Lua>, ghost callback: Callback, ghost args: seq<Lua>, nargs: nat, answer: Answer)
    requires |args| == nargs && lua.slots == base + [Other(ErrorHandler), Other(Function(callback))] + args
    modifies lua`slots
    ensures lua.slots == base + [Other(ErrorHandler), if answer.Returns? then answer.v else Str(answer.text)]
  {
    assert lua.slots[|lua.slots| - nargs - 1] == Other(Function(callback));
    lua.Pop(nargs + 1);
    assert lua.slots == base + [Other(ErrorHandler)];
    match answer
    case Returns(v, _) => lua.Push(v);
    case Fails(text) => lua.Push(Str(text));
  }

  /** luajitCallFunction: a script finds KEYS and ARGV in globals, a library function gets them as arguments. */
  method CallLua(lua: Interpreter, ghost base: seq<Lua>, ghost callback: Callback, isEval: bool, answer: Answer, next: Order)
    requires lua.slots == base + [Other(ErrorHandler), Other(Function(callback))]
    modifies lua
    ensures lua.slots == base + [Other(ErrorHandler)]
    ensures lua.out == old(lua.out) + AnswerTokens(answer, next, |base| + 2, lua.limit)
  {
    lua.Push(Other(Arguments));
    if isEval {
      lua.Pop(1);
    }
    lua.Push(Other(Arguments));
    if isEval {
      lua.Pop(1);
      PCall(lua, base, callback, [], 0, answer);
    } else {
      PCall(lua, base, callback, [Other(Arguments), Other(Arguments)], 2, answer);
    }
    match answer
    case Returns(v, resp) => lua.SendReply(resp, next);
    case Fails(text) =>
      lua.Emit(Whole(Error(text)));
      lua.Pop(1);
  }

  /** The end of luajitEngineFunctionCall: the error handler goes under the function and comes off after the call. */
  method RunOnTop(lua: Interpreter, ghost base: seq<Lua>, ghost callback: Callback, isEval: bool, answer: Answer, next: Order)
    requires lua.slots == base + [Other(Function(callback))]
    modifies lua
    ensures lua.slots == base
    ensures lua.out == old(lua.out) + AnswerTokens(answer, next, |base| + 2, lua.limit)
  {
    lua.Push(Other(ErrorHandler));
    lua.InsertUnder();
    CallLua(lua, base, callback, isEval, answer, next);
    lua.Pop(1);
  }

  /** The stack when a library function was looked for. */
  function Found(base: seq<Lua>, outcome: Outcome): seq<Lua> {
    if outcome.Ran? then base + [Other(Function(outcome.callback))]
    else if outcome == LibraryNotFound && base != [] then base[..|base| - 1]
    else base
  }

  /** An error of the engine itself: one reply, then n slots are popped. */
  method Refuse(lua: Interpreter, text: seq<byte>, n: nat)
    requires n <= |lua.slots|
    modifies lua
    ensures lua.slots == old(lua.slots)[..|old(lua.slots)| - n] && lua.out == old(lua.out) + [Whole(Error(text))]
  {
    lua.Emit(Whole(Error(text)));
    lua.Pop(n);
  }

  // ----- server.register_function -----

  // The field names, as ASCII bytes.
  const FUNCTION_NAME: seq<byte> := [0x66, 0x75, 0x6e, 0x63, 0x74, 0x69, 0x6f, 0x6e, 0x5f, 0x6e, 0x61, 0x6d, 0x65]
  const CALLBACK: seq<byte> := [0x63, 0x61, 0x6c, 0x6c, 0x62, 0x61, 0x63, 0x6b]

  lemma FieldNames()
    ensures FUNCTION_NAME == Ascii("function_name") && CALLBACK == Ascii("callback")
  {
  }

  /** What a call asks for: a name and a function, or an error. */
  datatype Registration = Registers(name: Name, callback: Callback) | Rejected

  /** lua_isstring takes numbers too. */
  predicate IsString(v: Lua) {
    v.Str? || v.Number?
  }

  predicate IsFunction(v: Lua) {
    v.Other? && v.thing.Function?
  }

  /** lua_tostring up to the first NUL; numeral is how Lua writes a number. */
  function NameOf(v: Lua, numeral: real -> seq<byte>): Name
    requires IsString(v)
  {
    CutCString(if v.Str? then v.s else numeral(v.x));
    CutAtNul(if v.Str? then v.s else numeral(v.x))
  }

  lemma {:induction false} CutCString(s: seq<byte>)
    ensures CString(CutAtNul(s))
  {
    if s != [] && s[0] != 0 {
      CutCString(s[1..]);
    }
  }

  lemma {:induction false} CutWhole(s: seq<byte>)
    requires CString(s)
    ensures CutAtNul(s) == s
  {
    if s != [] {
      assert CString(s[1..]) by {
        forall i | 0 <= i < |s[1..]| ensures s[1..][i] != 0 {
          assert s[1..][i] == s[i + 1];
        }
      }
      CutWhole(s[1..]);
    }
  }

  function RegistrationOf(name: Lua, callback: Lua, numeral: real -> seq<byte>): Registration {
    if IsString(name) && IsFunction(callback) then Registers(NameOf(name, numeral), callback.thing.callback) else Rejected
  }

  /** One table of named arguments, or a name and a function. */
  function Registering(args: seq<Lua>, numeral: real -> seq<byte>): Registration {
    if |args| == 1 && args[0].Table? then
      RegistrationOf(Field(args[0].entries, FUNCTION_NAME), Field(args[0].entries, CALLBACK), numeral)
    else if |args| == 2 then RegistrationOf(args[0], args[1], numeral)
    else Rejected
  }

  /** A name may be a string or a number. */
  predicate Names(name: Lua, callback: Lua) {
    (name.Str? || name.Number?) && callback.Other? && callback.thing.Function?
  }

  /** Exactly two forms of call register: a name and a function, or one table that holds them. */
  lemma RegistersExactly(args: seq<Lua>, numeral: real -> seq<byte>)
    ensures Registering(args, numeral).Registers? <==>
      || (|args| == 2 && Names(args[0], args[1]))
      || (|args| == 1 && args[0].Table?
          && Names(Field(args[0].entries, Ascii("function_name")), Field(args[0].entries, Ascii("callback"))))
  {
    FieldNames();
  }

  /** And the function goes by the name in front of the first NUL. */
  lemma RegistersName(name: seq<byte>, callback: Callback, numeral: real -> seq<byte>)
    requires CString(name)
    ensures Registering([Str(name), Other(Function(callback))], numeral) == Registers(name, callback)
    ensures Registering([Table([Entry(Str(CALLBACK), Other(Function(callback))), Entry(Str(FUNCTION_NAME), Str(name))])], numeral)
         == Registers(name, callback)
  {
    CutWhole(name);
    TwoFields(Other(Function(callback)), Str(name));
  }

  lemma TwoFields(callback: Lua, name: Lua)
    ensures var es := [Resp.Entry(Str(CALLBACK), callback), Resp.Entry(Str(FUNCTION_NAME), name)];
            Field(es, CALLBACK) == callback && Field(es, FUNCTION_NAME) == name
  {
    var es := [Resp.Entry(Str(CALLBACK), callback), Resp.Entry(Str(FUNCTION_NAME), name)];
    assert |CALLBACK| == 8 && |FUNCTION_NAME| == 13;
    assert Str(CALLBACK) != Str(FUNCTION_NAME);
    assert es[1..] == [Resp.Entry(Str(FUNCTION_NAME), name)];
    assert Resp.Find(es[1..], Str(FUNCTION_NAME)) == name;
    assert Resp.Find(es, Str(FUNCTION_NAME)) == Resp.Find(es[1..], Str(FUNCTION_NAME));
  }

  function Registered(functions: map<Name, Callback>, r: Registration): map<Name, Callback> {
    if r.Rejected? then functions else functions[r.name := r.callback]
  }

  /** The error message on top is raised. */
  method Raise(frame: Interpreter)
    modifies frame`slots
  {
    frame.Push(Str([]));
  }

  /** lua_setfield(lua, 1, name) with the function on top: the table of functions has to stand in the first slot. */
  method SetFunction(frame: Interpreter, functions: map<Name, Callback>, name: Name, callback: Callback)
    returns (after: map<Name, Callback>)
    requires frame.slots == [Other(LibraryFunctions), Other(Function(callback))]
    modifies frame`slots
    ensures after == functions[name := callback] && frame.slots == []
  {
    after := functions[name := frame.slots[1].thing.callback];
    frame.Pop(1);
    frame.Pop(1);
  }

  /** The form with one table of named arguments. */
  method RegisterNamed(frame: Interpreter, functions: map<Name, Callback>, numeral: real -> seq<byte>, ghost arg: Lua)
    returns (ok: bool, after: map<Name, Callback>)
    requires frame.slots == [arg, Other(LibraryFunctions)]
    modifies frame`slots
    ensures ok <==> Registering([arg], numeral).Registers?
    ensures after == Registered(functions, Registering([arg], numeral)) && (ok ==> frame.slots == [])
  {
    ok, after := false, functions;
    if !frame.slots[0].Table? {
      Raise(frame);
      return;
    }
    var entries := frame.slots[0].entries;
    frame.Push(Field(entries, FUNCTION_NAME));
    if !IsString(frame.slots[2]) {
      frame.Pop(2);
      Raise(frame);
      return;
    }
    var name := NameOf(frame.slots[2], numeral);
    frame.Pop(1);
    frame.Push(Field(entries, CALLBACK));
    if !IsFunction(frame.slots[2]) {
      frame.Pop(2);
      Raise(frame);
      return;
    }
    frame.RemoveFirst();
    ok := true;
    after := SetFunction(frame, functions, name, frame.slots[1].thing.callback);
  }

  /** The form with a name and a function. */
  method RegisterTwo(frame: Interpreter, functions: map<Name, Callback>, numeral: real -> seq<byte>, ghost first: Lua, ghost second: Lua)
    returns (ok: bool, after: map<Name, Callback>)
    requires frame.slots == [first, second, Other(LibraryFunctions)]
    modifies frame`slots
    ensures ok <==> Registering([first, second], numeral).Registers?
    ensures after == Registered(functions, Registering([first, second], numeral)) && (ok ==> frame.slots == [])
  {
    ok, after := false, functions;
    if !IsString(frame.slots[0]) || !IsFunction(frame.slots[1]) {
      frame.Pop(3);
      Raise(frame);
      return;
    }
    var name := NameOf(frame.slots[0], numeral);
    frame.RemoveFirst();
    frame.PushValue(2);
    frame.RemoveFirst();
    ok := true;
    after := SetFunction(frame, functions, name, frame.slots[1].thing.callback);
  }

  /**
    luajitUserStateRegisterFunction, in a stack of its own that holds the arguments. On success
    nothing is left there; an error is raised otherwise and no function is registered.
   */
  method RegisterFunction(functions: map<Name, Callback>, args: seq<Lua>, numeral: real -> seq<byte>, limit: nat)
    returns (ok: bool, after: map<Name, Callback>)
    ensures ok <==> Registering(args, numeral).Registers?
    ensures after == Registered(functions, Registering(args, numeral))
  {
    ok, after := false, functions;
    var frame := new Interpreter(limit);
    if |args| == 1 {
      frame.Push(args[0]);
      frame.Push(Other(LibraryFunctions));
      assert args == [args[0]];
      ok, after := RegisterNamed(frame, functions, numeral, args[0]);
    } else if |args| == 2 {
      frame.Push(args[0]);
      frame.Push(args[1]);
      frame.Push(Other(LibraryFunctions));
      assert args == [args[0], args[1]];
      ok, after := RegisterTwo(frame, functions, numeral, args[0], args[1]);
    } else {
      Raise(frame);
    }
  }

  lemma {:induction false} NewFunctionsPrefix(next: Id, libId: Id, code: Code, n: nat)
    requires n < |code.names|
    ensures NewFunctions(next, libId, code, n + 1) == NewFunctions(next, libId, code, n)[next + n + 1 := Compiled(libId, code.names[n], code)]
  {
  }

  class Context {
    var libraries: map<Id, Library>
    var users: map<User, UserState>
    var nextFuncId: Id
    var nextLibId: Id
    /** What the host holds. */
    ghost var evals: map<Id, string>
    ghost var funcs: map<Id, Compiled>
    ghost var doomed: set<Id>

    ghost function State(): Engine.State
      reads this
    {
      Engine.State(Core(libraries, nextFuncId, nextLibId, evals, funcs, doomed), users)
    }

    constructor ()
      ensures State() == INITIAL
    {
      libraries, users, nextFuncId, nextLibId := map[], map[], 0, 0;
      evals, funcs, doomed := map[], map[], {};
    }

    method GetOrCreateUserState(u: User) returns (us: UserState)
      modifies `users
      ensures us == UserOf(old(State()), u) && users == old(users)[u := us]
    {
      if u in users {
        us := users[u];
        assert users == users[u := us];
      } else {
        us := FRESH;
        users := users[u := us];
      }
    }

    method CompileEval(source: string, ok: bool) returns (id: Id)
      modifies this
      ensures State() == old(State()).(core := Engine.CompileEval(old(State()).core, source, ok))
      ensures ok ==> id == nextFuncId && evals[id] == source
    {
      id := 0;
      if !ok {
        return;
      }
      nextFuncId := nextFuncId + 1;
      id := nextFuncId;
      evals := evals[id := source];
    }

    /** Every function of the new library gets the next id. */
    method AssignIds(libId: Id, code: Code) returns (functions: map<Id, Compiled>)
      modifies `nextFuncId
      ensures nextFuncId == old(nextFuncId) + |code.names|
      ensures functions == NewFunctions(old(nextFuncId), libId, code, |code.names|)
    {
      functions := map[];
      ghost var first := nextFuncId;
      for i := 0 to |code.names|
        invariant nextFuncId == first + i && functions == NewFunctions(first, libId, code, i)
      {
        NewFunctionsPrefix(first, libId, code, i);
        nextFuncId := nextFuncId + 1;
        functions := functions[nextFuncId := Compiled(libId, code.names[i], code)];
      }
    }

    method CompileLibrary(code: Code, ok: bool, ghost replaced: set<Id>) returns (functions: map<Id, Compiled>)
      modifies this
      ensures State() == old(State()).(core := Engine.CompileLibrary(old(State()).core, code, ok, replaced))
      ensures functions == if ok then NewFunctions(old(nextFuncId), nextLibId, code, |code.names|) else map[]
    {
      functions := map[];
      if !ok {
        return;
      }
      nextLibId := nextLibId + 1;
      libraries := libraries[nextLibId := Library(code, |code.names|)];
      functions := AssignIds(nextLibId, code);
      funcs := funcs + functions;
      doomed := doomed + replaced;
    }

    // The registry tables on the stack are those of the current user.

    /** lua_rawget(-2) of a function id in a cache table. */
    method CacheGet(lua: Interpreter, cache: map<Id, Callback>, ghost base: seq<Lua>, table: Object, id: Id)
      requires lua.slots == base + [Other(table), Other(FunctionKey(id))]
      modifies lua`slots
      ensures lua.slots == base + [Other(table), if id in cache then Other(Function(cache[id])) else Nil]
    {
      lua.Pop(1);
      lua.Push(if id in cache then Other(Function(cache[id])) else Nil);
    }

    /** The cached function in place of its table, or just the table. */
    method FetchCached(lua: Interpreter, cache: map<Id, Callback>, table: Object, id: Id) returns (hit: bool)
      modifies lua`slots
      ensures hit <==> id in cache
      ensures lua.slots == old(lua.slots) + [if hit then Other(Function(cache[id])) else Other(table)]
    {
      ghost var base := lua.slots;
      lua.Push(Other(table));
      lua.Push(Other(FunctionKey(id)));
      CacheGet(lua, cache, base, table, id);
      hit := !lua.slots[|lua.slots| - 1].Nil?;
      if hit {
        lua.RemoveUnder();
      } else {
        lua.Pop(1);
      }
    }

    /** The function on top is stored under its id in the table below it, which then goes. */
    method CacheSet(lua: Interpreter, cache: map<Id, Callback>, ghost base: seq<Lua>, table: Object, id: Id, callback: Callback)
      returns (after: map<Id, Callback>)
      requires lua.slots == base + [Other(table), Other(Function(callback))]
      modifies lua`slots
      ensures lua.slots == base + [Other(Function(callback))] && after == cache[id := callback]
    {
      lua.Push(Other(FunctionKey(id)));
      lua.PushValue(2);
      // lua_rawset(-4): the table stands under the function, the key and the copy.
      assert lua.slots == base + [Other(table), Other(Function(callback)), Other(FunctionKey(id)), Other(Function(callback))];
      assert lua.slots[|lua.slots| - 4] == Other(table);
      after := cache[lua.slots[|lua.slots| - 2].thing.id := lua.slots[|lua.slots| - 1].thing.callback];
      lua.Pop(2);
      lua.RemoveUnder();
    }

    /**
      The call of a script: the stack is as before, whatever the outcome, and exactly one reply is
      sent. say gives the error texts.
     */
    method CallEval(u: User, id: Id, source: string, loads: bool, lua: Interpreter, answer: Answer, next: Order,
                    say: Outcome -> seq<byte>)
      returns (outcome: Outcome)
      modifies `users, lua
      ensures var (after, result) := Engine.CallEval(UserOf(old(State()), u), u, id, source, loads);
        outcome == result && users == old(users)[u := after]
      ensures lua.slots == old(lua.slots)
      ensures lua.out == old(lua.out) + if outcome.Ran? then AnswerTokens(answer, next, |lua.slots| + 2, lua.limit)
                                        else [Whole(Error(say(outcome)))]
    {
      ghost var base, spec := lua.slots, Engine.CallEval(UserOf(State(), u), u, id, source, loads);
      outcome := PutScript(u, id, source, loads, lua, say, spec);
      if outcome.Ran? {
        RunOnTop(lua, base, outcome.callback, true, answer, next);
      }
    }

    /** The script as a function on top of the stack, or an error reply. */
    method PutScript(u: User, id: Id, source: string, loads: bool, lua: Interpreter, say: Outcome -> seq<byte>,
                     ghost spec: (UserState, Outcome))
      returns (outcome: Outcome)
      requires spec == Engine.CallEval(UserOf(State(), u), u, id, source, loads)
      modifies `users, lua
      ensures outcome == spec.1 && users == old(users)[u := spec.0]
      ensures lua.slots == if outcome.Ran? then old(lua.slots) + [Other(Function(outcome.callback))] else old(lua.slots)
      ensures lua.out == if outcome.Ran? then old(lua.out) else old(lua.out) + [Whole(Error(say(outcome)))]
    {
      ghost var base := lua.slots;
      var us := GetOrCreateUserState(u);
      var hit := FetchCached(lua, us.evalCache, EvalCache, id);
      if hit {
        outcome := Ran(us.evalCache[id]);
      } else {
        outcome := LoadScript(u, id, source, loads, us, lua, base, say, spec);
      }
    }

    /** Loads a script that is not cached and puts it in place of the cache table. */
    method LoadScript(u: User, id: Id, source: string, loads: bool, us: UserState, lua: Interpreter, ghost base: seq<Lua>,
                      say: Outcome -> seq<byte>, ghost spec: (UserState, Outcome))
      returns (outcome: Outcome)
      requires id !in us.evalCache && u in users && users[u] == us && lua.slots == base + [Other(EvalCache)]
      requires spec == Engine.CallEval(us, u, id, source, loads)
      modifies `users, lua
      ensures outcome == spec.1 && users == old(users)[u := spec.0]
      ensures lua.slots == if outcome.Ran? then base + [Other(Function(outcome.callback))] else base
      ensures lua.out == if outcome.Ran? then old(lua.out) else old(lua.out) + [Whole(Error(say(outcome)))]
    {
      if !loads {
        outcome := LoadError;
        lua.Push(Str(say(outcome)));
        Refuse(lua, say(outcome), 2);
        return;
      }
      var callback := Callback(u, source, []);
      lua.Push(Other(Function(callback)));
      var cache := CacheSet(lua, us.evalCache, base, EvalCache, id, callback);
      users := users[u := us.(evalCache := cache)];
      outcome := Ran(callback);
    }

    /** luajitCompileLibraryInUserState: one value is left on the stack where the library stops early. */
    method RunLibraryCode(us: UserState, u: User, code: Code, load: Load, lua: Interpreter, text: seq<byte>)
      returns (functions: map<Name, Callback>)
      modifies lua`slots
      ensures functions == Register(us.functions, u, code, Registrations(code, load))
      ensures lua.slots == if load.Completes? then old(lua.slots) else old(lua.slots) + [Str(text)]
    {
      lua.Push(Other(Function(Callback(u, code.text, []))));
      functions := us.functions;
      for i := 0 to Registrations(code, load)
        invariant functions == Register(us.functions, u, code, i)
        invariant lua.slots == old(lua.slots) + [Other(Function(Callback(u, code.text, [])))]
      {
        var name, callback := code.names[i], Callback(u, code.text, code.names[i]);
        CutWhole(name);
        var registered;
        registered, functions := RegisterFunction(functions, [Str(name), Other(Function(callback))], _ => [], lua.limit);
      }
      lua.Pop(1);
      if load.StopsAfter? {
        lua.Push(Str(text));
      }
    }

    /** Runs the library in the state of the user unless it was run before. */
    method CompileInUserState(us: UserState, u: User, libId: Id, code: Code, load: Load, lua: Interpreter, text: seq<byte>)
      returns (run: UserState, ok: bool)
      modifies lua`slots
      ensures run == RunLibrary(us, u, libId, code, load) && (ok <==> libId in run.compiled)
      ensures lua.slots == if ok then old(lua.slots) else old(lua.slots) + [Str(text)]
    {
      lua.Push(Other(CompiledLibraries));
      lua.Push(Number(libId as real));
      lua.Pop(1);
      lua.Push(if libId in us.compiled then Bool(true) else Nil);
      var isCompiled := !lua.slots[|lua.slots| - 1].Nil?;
      lua.Pop(1);
      lua.Pop(1);
      run := us;
      if !isCompiled {
        var functions := RunLibraryCode(us, u, code, load, lua, text);
        run := us.(functions := functions);
        if load.StopsAfter? {
          return run, false;
        }
        lua.Push(Other(CompiledLibraries));
        lua.Push(Number(libId as real));
        lua.Push(Bool(true));
        run := run.(compiled := run.compiled + {libId});
        lua.Pop(2);
        lua.Pop(1);
      }
      ok := true;
    }

    /** The callback of the name, stored in the cache table and put in its place. */
    method LookUpCallback(u: User, id: Id, name: Name, run: UserState, lua: Interpreter, ghost base: seq<Lua>,
                          say: Outcome -> seq<byte>, ghost spec: (UserState, Outcome))
      returns (outcome: Outcome)
      requires u in users && users[u] == run && lua.slots == base + [Other(FunctionCache)] && spec == LookUp(run, id, name)
      modifies `users, lua
      ensures outcome == spec.1 && users == old(users)[u := spec.0]
      ensures lua.slots == if outcome.Ran? then base + [Other(Function(outcome.callback))] else base
      ensures lua.out == if outcome.Ran? then old(lua.out) else old(lua.out) + [Whole(Error(say(outcome)))]
    {
      lua.Push(Other(LibraryFunctions));
      lua.Push(if name in run.functions then Other(Function(run.functions[name])) else Nil);
      if lua.slots[|lua.slots| - 1].Nil? {
        outcome := FunctionNotFound;
        lua.Pop(3);
        Refuse(lua, say(outcome), 0);
        return;
      }
      lua.RemoveUnder();
      var callback := run.functions[name];
      var cache := CacheSet(lua, run.funcCache, base, FunctionCache, id, callback);
      users := users[u := run.(funcCache := cache)];
      outcome := Ran(callback);
    }

    /** Finds the callback of a library function that is not cached and puts it on top of the cache table. */
    method FindCallback(u: User, id: Id, f: Compiled, load: Load, us: UserState, lua: Interpreter, ghost base: seq<Lua>,
                        say: Outcome -> seq<byte>, ghost spec: (UserState, Outcome))
      returns (outcome: Outcome)
      requires id !in us.funcCache && u in users && users[u] == us && lua.slots == base + [Other(FunctionCache)]
      requires base != [] || f.libId in libraries
      requires spec == Engine.CallFunction(libraries, us, u, id, f, load)
      modifies `users, lua
      ensures outcome == spec.1 && users == old(users)[u := spec.0]
      ensures lua.slots == Found(base, outcome)
      ensures lua.out == if outcome.Ran? then old(lua.out) else old(lua.out) + [Whole(Error(say(outcome)))]
    {
      if f.libId !in libraries {
        outcome := LibraryNotFound;
        Refuse(lua, say(outcome), 2);
        return;
      }
      var run, ok := CompileInUserState(us, u, f.libId, libraries[f.libId].code, load, lua, say(LoadError));
      users := users[u := run];
      if !ok {
        outcome := LoadError;
        Refuse(lua, say(outcome), 2);
        return;
      }
      outcome := LookUpCallback(u, id, f.name, run, lua, base, say, spec);
    }

    /**
      The call of a library function: exactly one reply is sent, and the stack is as before on every
      path but one. Where the library is missing one slot too many is popped, which has to be there.
     */
    method CallFunction(u: User, id: Id, f: Compiled, load: Load, lua: Interpreter, answer: Answer, next: Order,
                        say: Outcome -> seq<byte>)
      returns (outcome: Outcome)
      requires lua.slots != [] || id in UserOf(State(), u).funcCache || f.libId in libraries
      modifies `users, lua
      ensures var (after, result) := Engine.CallFunction(libraries, UserOf(old(State()), u), u, id, f, load);
        outcome == result && users == old(users)[u := after]
      ensures lua.slots == if outcome == LibraryNotFound then old(lua.slots)[..|old(lua.slots)| - 1] else old(lua.slots)
      ensures lua.out == old(lua.out) + if outcome.Ran? then AnswerTokens(answer, next, |old(lua.slots)| + 2, lua.limit)
                                        else [Whole(Error(say(outcome)))]
    {
      ghost var base, spec := lua.slots, Engine.CallFunction(libraries, UserOf(State(), u), u, id, f, load);
      outcome := PutCallback(u, id, f, load, lua, say, spec);
      if outcome.Ran? {
        RunOnTop(lua, base, outcome.callback, false, answer, next);
      }
    }

    /** The callback on top of the stack, or an error reply. */
    method PutCallback(u: User, id: Id, f: Compiled, load: Load, lua: Interpreter, say: Outcome -> seq<byte>,
                       ghost spec: (UserState, Outcome))
      returns (outcome: Outcome)
      requires lua.slots != [] || id in UserOf(State(), u).funcCache || f.libId in libraries
      requires spec == Engine.CallFunction(libraries, UserOf(State(), u), u, id, f, load)
      modifies `users, lua
      ensures outcome == spec.1 && users == old(users)[u := spec.0]
      ensures lua.slots == Found(old(lua.slots), outcome)
      ensures lua.out == if outcome.Ran? then old(lua.out) else old(lua.out) + [Whole(Error(say(outcome)))]
    {
      ghost var base := lua.slots;
      var us := GetOrCreateUserState(u);
      var hit := FetchCached(lua, us.funcCache, FunctionCache, id);
      if hit {
        outcome := Ran(us.funcCache[id]);
      } else {
        outcome := FindCallback(u, id, f, load, us, lua, base, say, spec);
      }
    }

    method FreeEval(id: Id)
      requires id in evals
      modifies `evals
      ensures State() == old(State()).(core := Engine.FreeEval(old(State()).core, id))
    {
      evals := evals - {id};
    }

    method ForgetInAll(name: Name)
      modifies `users
      ensures users == ForgetEverywhere(old(users), name)
    {
      var left := users.Keys;
      while left != {}
        invariant left <= users.Keys && users.Keys == old(users).Keys
        invariant forall u :: u in users ==> users[u] == if u in left then old(users)[u] else Forget(old(users)[u], name)
        decreases left
      {
        var u :| u in left;
        users := users[u := Forget(users[u], name)];
        left := left - {u};
      }
    }

    method ReleaseLibrary(libId: Id)
      modifies `libraries
      ensures libraries == Release(old(libraries), libId)
    {
      if libId in libraries {
        var lib := libraries[libId];
        libraries := libraries[libId := lib.(refCount := lib.refCount - 1)];
        if lib.refCount - 1 == 0 {
          libraries := libraries - {libId};
        }
      }
    }

    method FreeFunction(id: Id, f: Compiled)
      requires id in funcs && funcs[id] == f
      modifies this
      ensures State() == Engine.State(Engine.FreeFunction(old(State()).core, id), ForgetEverywhere(old(users), f.name))
    {
      ForgetInAll(f.name);
      ReleaseLibrary(f.libId);
      funcs := funcs - {id};
      doomed := doomed - {id};
    }

    method ResetEnv(kind: Engine.Kind)
      modifies this
      ensures State() == Engine.State(ResetCore(old(State()).core, kind), ResetUsers(old(users), kind))
    {
      if kind != EvalOnly {
        libraries := map[];
        nextLibId := 0;
        doomed := doomed + funcs.Keys;
      }
      if kind == Everything {
        users := map[];
      } else {
        var left := users.Keys;
        while left != {}
          invariant left <= users.Keys && users.Keys == old(users).Keys
          invariant forall u :: u in users ==> users[u] == if u in left then old(users)[u] else ResetUser(old(users)[u], kind)
          invariant State() == Engine.State(ResetCore(old(State()).core, kind), users)
          decreases left
        {
          var u :| u in left;
          var us := users[u];
          if kind == EvalOnly {
            users := users[u := us.(evalCache := map[])];
          } else {
            users := users[u := us.(funcCache := map[], compiled := {}, functions := map[])];
          }
          left := left - {u};
        }
      }
    }
  }
}
