/**
 * The state of a `hirzel::Plugin` as a value, and each of its operations as a
 * function from the state before to the state after (plus what the operation
 * returns). The class in plugin.dfy is proved to follow these functions.
 */
module PluginState {
  import opened Wrappers
  import opened Loader

  /** The messages the plugin itself stores in its error field. */
  const AlreadyBoundMessage: string := "a library is already bound! overwriting is not allowed."
  const NoLibraryMessage: string := "lib has not been bound! cannot continue with binding function!"
  const NotBoundMessage: string := "attempted to execute function that is not bound!"

  /**
   * The five fields of a plugin: the library handle (`None` is null), the
   * "library and every symbol bound" flag, the last error (`None` is null),
   * the recorded path and the table from symbol name to address, whose
   * entries may be null.
   */
  datatype State = State(
    lib: Option<Handle>,
    bound: bool,
    error: Option<string>,
    filepath: string,
    functions: map<string, Option<Address>>)

  /** A default-constructed plugin. */
  const Initial: State := State(None, false, None, "", map[])

  /** The flag is only ever set while a handle is held. */
  ghost predicate Valid(s: State)
  {
    s.bound ==> s.lib.Some?
  }

  /**
   * `bind_library`: refuse when a handle is held; otherwise record the path
   * first, then take the loader's answer.
   */
  function BindLibrary(s: State, path: string, outcome: LoadResult): (t: State)
    ensures Valid(t)
    // A second open only changes the error: handle, path, flag and table stay.
    ensures s.lib.Some? ==> t == s.(error := Some(AlreadyBoundMessage))
    // Otherwise the path is recorded whatever the outcome, and the table is left alone.
    ensures s.lib.None? ==> t.filepath == path && t.functions == s.functions
    ensures s.lib.None? ==> (t.lib.Some? <==> outcome.Loaded?) && (t.bound <==> outcome.Loaded?)
    ensures s.lib.None? && outcome.Loaded? ==> t.lib == Some(outcome.handle) && t.error == s.error
    ensures s.lib.None? && outcome.LoadFailed? ==> t.error == Some(outcome.message)
  {
    if s.lib.Some? then
      s.(error := Some(AlreadyBoundMessage))
    else
      match outcome
      case Loaded(h) => s.(lib := Some(h), bound := true, filepath := path)
      case LoadFailed(msg) => s.(lib := None, bound := false, filepath := path, error := Some(msg))
  }

  /**
   * `bind_function`: refuse without a handle; otherwise ask the loader, and
   * either clear the flag or store the address under the name. Returns the
   * address, or `None` for null.
   */
  function BindFunction(s: State, name: string, lookup: LookupResult): (res: (State, Option<Address>))
    ensures Valid(s) ==> Valid(res.0)
    ensures res.0.lib == s.lib && res.0.filepath == s.filepath
    // Without a handle: null, an error, and nothing else changes.
    ensures s.lib.None? ==> res.1.None? && res.0 == s.(error := Some(NoLibraryMessage))
    // A failed lookup: null, the flag cleared, the loader's message; the table stays.
    ensures s.lib.Some? && lookup.NotFound? ==>
      res.1.None? && res.0 == s.(bound := false, error := Some(lookup.message))
    // A successful lookup: the address is returned and stored under the name,
    // replacing any earlier entry, and no other entry changes.
    ensures s.lib.Some? && lookup.Found? ==>
      && res.1 == Some(lookup.address)
      && res.0.bound == s.bound && res.0.error == s.error
      && res.0.functions.Keys == s.functions.Keys + {name}
      && res.0.functions[name] == Some(lookup.address)
      && (forall n :: n in s.functions && n != name ==> res.0.functions[n] == s.functions[n])
  {
    if s.lib.None? then
      (s.(error := Some(NoLibraryMessage)), None)
    else
      match lookup
      case NotFound(msg) => (s.(bound := false, error := Some(msg)), None)
      case Found(a) => (s.(functions := s.functions[name := Some(a)]), Some(a))
  }

  /**
   * `_functions[name]` on an `std::unordered_map`: an absent name is inserted
   * with a null entry; the entry is returned. This is `get_func`, and the
   * first step of `execute`.
   */
  function Subscript(s: State, name: string): (res: (State, Option<Address>))
    // Only the table changes, and only by gaining the name.
    ensures res.0 == s.(functions := res.0.functions)
    ensures res.0.functions.Keys == s.functions.Keys + {name}
    ensures forall n :: n in s.functions ==> res.0.functions[n] == s.functions[n]
    // The entry now exists; it is the old one, or null for a new name.
    ensures res.1 == res.0.functions[name]
    ensures name !in s.functions ==> res.1.None?
  {
    var table := if name in s.functions then s.functions else s.functions[name := None];
    (s.(functions := table), table[name])
  }

  /**
   * The guard of `execute<T>`: look the name up with `operator[]`; for a null
   * entry record an error and return `zero` (the value `T()`), otherwise
   * return what calling the address gives, which `call` stands for.
   */
  function Execute<T>(s: State, name: string, zero: T, call: Address -> T): (res: (State, T))
    ensures Valid(s) ==> Valid(res.0)
    ensures res.0.functions == Subscript(s, name).0.functions
    ensures res.0.lib == s.lib && res.0.bound == s.bound && res.0.filepath == s.filepath
    ensures name in res.0.functions
    ensures res.0.functions[name].None? ==> res.1 == zero && res.0.error == Some(NotBoundMessage)
    ensures res.0.functions[name].Some? ==>
      res.1 == call(res.0.functions[name].value) && res.0.error == s.error
    // An unknown name: it is now in the table, as null, and nothing is called.
    ensures name !in s.functions ==>
      res.0.functions[name].None? && res.1 == zero && res.0.error == Some(NotBoundMessage)
  {
    var (t, f) := Subscript(s, name);
    match f
    case None => (t.(error := Some(NotBoundMessage)), zero)
    case Some(a) => (t, call(a))
  }

  /**
   * One call on a plugin, with the loader's answer where the call asks the
   * loader. `Exec` stands for `execute` at any return type: what it does to
   * the state does not depend on the type or on the callee.
   */
  datatype Op =
    | BindLib(path: string, outcome: LoadResult)
    | BindFn(name: string, lookup: LookupResult)
    | Exec(name: string)
    | GetFn(name: string)

  function Step(s: State, op: Op): (t: State)
    ensures Valid(s) ==> Valid(t)
    ensures s.lib.Some? ==> t.lib == s.lib && t.filepath == s.filepath
    ensures s.functions.Keys <= t.functions.Keys
  {
    match op
    case BindLib(p, r) => BindLibrary(s, p, r)
    case BindFn(n, r) => BindFunction(s, n, r).0
    case Exec(n) => Execute(s, n, (), (a: Address) => ()).0
    case GetFn(n) => Subscript(s, n).0
  }

  /**
   * A sequence of calls, in order. Over any such sequence a held handle and
   * its path never change, no table entry is removed and the flag is only
   * set while a handle is held.
   */
  function Run(s: State, ops: seq<Op>): (t: State)
    ensures Valid(s) ==> Valid(t)
    ensures s.lib.Some? ==> t.lib == s.lib && t.filepath == s.filepath
    ensures s.functions.Keys <= t.functions.Keys
    decreases |ops|
  {
    if ops == [] then s else Run(Step(s, ops[0]), ops[1..])
  }

  /** The calls the constructor makes: one `bind_function` per name, in list order. */
  function LookupOps(names: seq<string>, lookups: seq<LookupResult>): (ops: seq<Op>)
    requires |names| == |lookups|
    ensures |ops| == |names|
    ensures forall i :: 0 <= i < |ops| ==> ops[i] == BindFn(names[i], lookups[i])
    decreases |names|
  {
    if names == [] then [] else [BindFn(names[0], lookups[0])] + LookupOps(names[1..], lookups[1..])
  }

  /**
   * The constructor `Plugin(filepath, funcnames)`: open the library and, only
   * if that gave a handle, bind every name in order without stopping at a
   * failure. `lookups[i]` is the loader's answer for `names[i]`.
   */
  function Construct(path: string, names: seq<string>, outcome: LoadResult, lookups: seq<LookupResult>): (t: State)
    requires |names| == |lookups|
    ensures Valid(t)
    ensures t.filepath == path
    ensures t.lib == (if outcome.Loaded? then Some(outcome.handle) else None)
    // A failed open binds nothing: the table stays empty.
    ensures outcome.LoadFailed? ==> t == State(None, false, Some(outcome.message), path, map[])
  {
    var s := BindLibrary(Initial, path, outcome);
    if s.lib.Some? then Run(s, LookupOps(names, lookups)) else s
  }
}
