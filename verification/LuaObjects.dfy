/** What the engine keeps on a Lua stack beside plain values (src/engine_luajit.c:205-243, 472-612). */
module LuaObjects {
  import opened Engine

  /** The tables stand for the entries of the registry they are fetched from: they are shared, not copied. */
  datatype Object =
    | Function(callback: Callback)
    | ErrorHandler
    | FunctionKey(id: Id)
    | EvalCache
    | FunctionCache
    | CompiledLibraries
    | LibraryFunctions
    | Arguments
}
