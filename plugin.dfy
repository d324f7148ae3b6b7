/**
 * `hirzel::Plugin`: a wrapper around one dynamic-library handle and a table
 * of symbol addresses, updated in place. Each method takes the loader's
 * answer as a parameter where the original asks the OS loader, and is proved
 * to move the object's fields exactly as the matching function of
 * `PluginState` moves a state value.
 */
module Plugins {
  import opened Wrappers
  import opened Loader
  import PluginState

  class Plugin {
    var lib: Option<Handle>
    var bound: bool
    var error: Option<string>
    var filepath: string
    var functions: map<string, Option<Address>>

    /** The five fields as one value. */
    function Model(): PluginState.State
      reads this
    {
      PluginState.State(lib, bound, error, filepath, functions)
    }

    ghost predicate Valid()
      reads this
    {
      PluginState.Valid(Model())
    }

    /** `Plugin() = default`: no handle, flag clear, no error, empty path and table. */
    constructor Default()
      ensures Valid()
      ensures Model() == PluginState.Initial
    {
      lib, bound, error, filepath, functions := None, false, None, "", map[];
    }

    /**
     * `Plugin(filepath, funcnames)`: open the library and, only if that gave
     * a handle, bind every name in list order, carrying on past failures.
     * `lookups[i]` is the loader's answer for `funcnames[i]`.
     */
    constructor (path: string, funcnames: seq<string>, outcome: LoadResult, lookups: seq<LookupResult>)
      requires |lookups| == |funcnames|
      ensures Valid()
      ensures Model() == PluginState.Construct(path, funcnames, outcome, lookups)
    {
      lib, bound, error, filepath, functions := None, false, None, "", map[];
      new;
      BindLibrary(path, outcome);
      ghost var target := PluginState.Construct(path, funcnames, outcome, lookups);
      if lib.Some? {
        assert funcnames[0..] == funcnames && lookups[0..] == lookups;
        for i := 0 to |funcnames|
          invariant lib.Some?
          invariant PluginState.Run(Model(), PluginState.LookupOps(funcnames[i..], lookups[i..])) == target
        {
          ghost var ops := PluginState.LookupOps(funcnames[i..], lookups[i..]);
          assert ops[0] == PluginState.BindFn(funcnames[i], lookups[i]);
          assert funcnames[i..][1..] == funcnames[i + 1..] && lookups[i..][1..] == lookups[i + 1..];
          assert ops[1..] == PluginState.LookupOps(funcnames[i + 1..], lookups[i + 1..]);
          var f := BindFunction(funcnames[i], lookups[i]);
        }
      }
    }

    /**
     * `bind_library`: refused with an error when a handle is held; otherwise
     * the path is recorded before the load, and the flag follows its outcome.
     */
    method BindLibrary(path: string, outcome: LoadResult)
      modifies this
      ensures Model() == PluginState.BindLibrary(old(Model()), path, outcome)
      ensures old(Valid()) ==> Valid()
    {
      if lib.Some? {
        error := Some(PluginState.AlreadyBoundMessage);
        return;
      }
      filepath := path;
      lib := if outcome.Loaded? then Some(outcome.handle) else None;
      if lib.None? {
        error := Some(outcome.message);
        bound := false;
      } else {
        bound := true;
      }
    }

    /**
     * `bind_function`: refused with an error when no handle is held; a failed
     * lookup clears the flag; a successful one is stored under the name.
     * Returns the address, or `None` for null.
     */
    method BindFunction(name: string, lookup: LookupResult) returns (f: Option<Address>)
      modifies this
      ensures (Model(), f) == PluginState.BindFunction(old(Model()), name, lookup)
      ensures old(Valid()) ==> Valid()
    {
      if lib.None? {
        error := Some(PluginState.NoLibraryMessage);
        return None;
      }
      f := if lookup.Found? then Some(lookup.address) else None;
      if f.None? {
        error := Some(lookup.message);
        bound := false;
        return None;
      }
      functions := functions[name := f];
    }

    /**
     * The guard of `execute<T>`: `zero` is `T()` and `call` what calling the
     * stored address returns. The lookup inserts a null entry for a new name.
     */
    method Execute<T>(name: string, zero: T, call: Address -> T) returns (r: T)
      modifies this
      ensures (Model(), r) == PluginState.Execute(old(Model()), name, zero, call)
      ensures old(Valid()) ==> Valid()
    {
      if name !in functions {
        functions := functions[name := None];
      }
      var func := functions[name];
      if func.None? {
        error := Some(PluginState.NotBoundMessage);
        return zero;
      }
      r := call(func.value);
    }

    /** `get_func`: the entry for the name, inserting a null one if there is none. */
    method GetFunc(name: string) returns (f: Option<Address>)
      modifies this
      ensures (Model(), f) == PluginState.Subscript(old(Model()), name)
      ensures old(Valid()) ==> Valid()
    {
      if name !in functions {
        functions := functions[name := None];
      }
      f := functions[name];
    }

    /** `is_lib_bound`. */
    function IsLibBound(): (b: bool)
      reads this
      ensures b <==> lib.Some?
    {
      lib.Some?
    }

    /** `is_func_bound`: true for any entry, a null one included. */
    function IsFuncBound(name: string): (b: bool)
      reads this
      ensures b <==> name in functions
    {
      name in functions
    }

    /** `bound`: on a valid plugin, a set flag means a handle is held. */
    function Bound(): (b: bool)
      reads this
      ensures Valid() && b ==> IsLibBound()
    {
      bound
    }

    /** `filepath`: the recorded path. */
    function Filepath(): (p: string)
      reads this
      ensures p == Model().filepath
    {
      filepath
    }

    /** `error`: the last error, `None` for null. */
    function Error(): (e: Option<string>)
      reads this
      ensures e == Model().error
    {
      error
    }

    /** The destructor's guard: the handle is handed back to the loader exactly when one is held. */
    method Close() returns (released: bool)
      ensures released <==> lib.Some?
    {
      released := lib.Some?;
    }
  }
}
