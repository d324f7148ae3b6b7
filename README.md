# hirzel::Plugin in Dafny

A model of `hirzel::Plugin` (`include/hirzel/plugin.h`), a small C++ wrapper
that opens one shared library at run time, looks symbols up in it, caches
their addresses by name and calls them through a caller-asserted signature.

The plugin's five fields are `_lib` (the library handle or null), `_bound`
("library and every symbol bound"), `_error` (the last error or null),
`_filepath` (the recorded path) and `_functions` (an `unordered_map` from
name to a function pointer that may be null). The model keeps them in two
forms:

- `PluginState.State`, a value, with one function per operation
  (`BindLibrary`, `BindFunction`, `Subscript` for `operator[]` / `get_func`,
  `Execute`, `Construct`) and a trace semantics (`Op`, `Step`, `Run`) for
  sequences of calls;
- `Plugins.Plugin`, a class with the same five fields updated in place. Each
  method is proved to move the fields exactly as the matching function moves
  a `State` (`Model() == PluginState.BindLibrary(old(Model()), ...)`); the
  constructor loops over the names like the source's `for` loop.

The OS loader is not modelled. Where the source calls `dlopen`, the caller
passes a `Loader.LoadResult` (a handle, or failure with the loader's message);
where it calls `dlsym`, a `Loader.LookupResult` (an address, or failure with
a message). The constructor takes one `LookupResult` per name, in list order.
`execute<T>` takes `zero` for the value `T()` and `call` for what calling the
stored address returns. Null is `None` throughout.

`PluginTraces` states what holds over any sequence of calls: the handle
and path, once held, never change; the flag is set exactly when a library was
opened and no lookup has failed since; a table entry only changes through a
successful `bind_function` for its name; and what the constructor leaves
behind (handle, flag, error of the last failed lookup, table of the last
successful lookup of each name).

Behaviour the model follows, read from the code:

- `bind_function` without a handle does change the plugin: it records an
  error (`include/hirzel/plugin.h:235-239`).
- A repeated `bind_function` for a name asks the loader again and overwrites
  the entry; there is no cache short-cut (`include/hirzel/plugin.h:260-265`).
- `execute` and `get_func` use `operator[]`, which inserts a null entry for an
  unknown name (`include/hirzel/plugin.h:100`, `include/hirzel/plugin.h:138`).
  So `is_func_bound`, documented as "true if symbol is bound"
  (`include/hirzel/plugin.h:119-120`), becomes true for a name that was never
  resolved. `AddAndMissingScenario` shows it for a plugin over "mathlib.so"
  constructed with "add" found and "missing_fn" not found.
- `execute` returns the default value for any null entry, not only for an
  absent name (`include/hirzel/plugin.h:102-106`).

## Model

| member | source | states |
|---|---|---|
| PluginState.BindLibrary | include/hirzel/plugin.h:197-227 | with a handle held only the error changes (to the "already bound" message); otherwise the path is recorded whatever the outcome, the table is untouched, a load sets the handle and the flag, a failure leaves the handle null, clears the flag and stores the loader's message; the result always satisfies "flag implies handle" |
| PluginState.BindFunction | include/hirzel/plugin.h:229-266 | handle and path never change; without a handle it returns null and only the error changes; a failed lookup returns null, clears the flag, stores the loader's message and leaves the table; a successful one returns the address, stores it under the name replacing any earlier entry, adds no other key and changes no other entry |
| PluginState.Subscript | include/hirzel/plugin.h:136-139 | `operator[]` / `get_func`: only the table changes; it gains the name and nothing else; existing entries keep their values; the returned entry is the stored one, null for a name that was absent |
| PluginState.Execute | include/hirzel/plugin.h:97-111 | the table is the one `operator[]` leaves; handle, flag and path unchanged; a null entry gives the default value and the "not bound" error; a non-null entry gives the callee's result and leaves the error; an absent name ends in the table as null, with the default value returned and nothing called |
| PluginState.Run | include/hirzel/plugin.h:197-266 | over any sequence of calls: "flag implies handle" is preserved, a held handle and its path never change, and no table key is ever removed |
| PluginState.Construct | include/hirzel/plugin.h:172-183 | the path is always recorded; the handle is the load's; a failed load binds nothing: null handle, clear flag, the loader's message and an empty table |
| PluginTraces.BoundWhileHeld | include/hirzel/plugin.h:249-258 | while a handle is held, the flag after a sequence of calls is set iff it was set before and no lookup in the sequence failed |
| PluginTraces.BoundNeverReturns | include/hirzel/plugin.h:199-203 | once a handle is held and the flag is clear, no sequence of calls sets it again |
| PluginTraces.UnloadedWithoutLoad | include/hirzel/plugin.h:213-222 | a sequence of calls with no successful load leaves the handle null and the flag clear |
| PluginTraces.BoundIffNoMissSinceLoad | include/hirzel/plugin.h:221-225 | from a default plugin, after calls without a successful load, a successful load and further calls: the handle and path are those of that load, and the flag is set iff no lookup failed after it |
| PluginTraces.EntryKeptUnlessRebound | include/hirzel/plugin.h:260-265 | an existing table entry keeps its value through any calls that contain no successful `bind_function` for its name |
| PluginTraces.LastFoundIsLast | include/hirzel/plugin.h:178-181 | the reference "last successful lookup" of a name is none iff no lookup of it succeeded, and otherwise the answer at the last index where it did |
| PluginTraces.LastMissIsLast | include/hirzel/plugin.h:178-181 | the reference "last failed lookup" is none iff every lookup succeeded, and otherwise the loader's message at the last index whose lookup failed |
| PluginTraces.LookupsBound | include/hirzel/plugin.h:178-181 | binding a list of names with a handle held keeps the flag iff it was set and every lookup succeeded |
| PluginTraces.LookupsError | include/hirzel/plugin.h:178-181 | binding a list of names with a handle held ends with the message of the last failed lookup, or the earlier error if none failed |
| PluginTraces.LookupsEntry | include/hirzel/plugin.h:178-181 | binding a list of names with a handle held leaves each name with the address of its last successful lookup; a name never found keeps its earlier entry or stays absent |
| PluginTraces.ConstructLoaded | include/hirzel/plugin.h:172-183 | a plugin constructed over a library that opens holds that handle and path; its flag is set iff every lookup succeeded; its error is the last lookup's failure message or null; its table holds exactly the names found, each with the address of its last successful lookup |
| PluginTraces.AddAndMissingScenario | include/hirzel/plugin.h:97-111 | constructing with "add" found and "missing_fn" not found gives an open library, a table holding only "add" and a clear flag; executing "missing_fn" returns the default value with the "not bound" error and leaves a null entry for it; executing "add" returns what calling its address gives and leaves the error and the table unchanged |
| Plugins.Plugin.Default | include/hirzel/plugin.h:63 | a default plugin: null handle, clear flag, null error, empty path and table |
| Plugins.Plugin.constructor | include/hirzel/plugin.h:172-183 | the object ends in the state `Construct` gives: one `bind_function` per name, in order, past failures, and only when the load gave a handle |
| Plugins.Plugin.BindLibrary | include/hirzel/plugin.h:197-227 | the fields move exactly as `PluginState.BindLibrary` says, and "flag implies handle" is kept |
| Plugins.Plugin.BindFunction | include/hirzel/plugin.h:229-266 | the fields and the returned address are exactly those of `PluginState.BindFunction`, and "flag implies handle" is kept |
| Plugins.Plugin.Execute | include/hirzel/plugin.h:97-111 | the fields and the returned value are exactly those of `PluginState.Execute`, and "flag implies handle" is kept |
| Plugins.Plugin.GetFunc | include/hirzel/plugin.h:136-139 | the fields and the returned entry are exactly those of `PluginState.Subscript`, and "flag implies handle" is kept |
| Plugins.Plugin.IsLibBound | include/hirzel/plugin.h:116 | true iff a handle is held |
| Plugins.Plugin.IsFuncBound | include/hirzel/plugin.h:122-125 | true iff the name is a key of the table, a null entry included |
| Plugins.Plugin.Bound | include/hirzel/plugin.h:130 | on a valid plugin, a set flag implies a held handle |
| Plugins.Plugin.Filepath | include/hirzel/plugin.h:144 | the recorded path |
| Plugins.Plugin.Error | include/hirzel/plugin.h:149 | the last error, null if none |
| Plugins.Plugin.Close | include/hirzel/plugin.h:185-195 | the destructor releases the handle exactly when one is held |

## Left out

- The OS loader (`dlopen`, `dlsym`, `dlerror`, `dlclose`, `LoadLibrary`, `GetProcAddress`, `FreeLibrary`, `GetLastError`): foreign calls with process-wide effects; their answers are parameters and their messages opaque strings.
- Plugins.Plugin.constructor: requires one loader answer per name (`|lookups| == |funcnames|`); this only supplies the oracle and demands nothing of the source's callers.
- Plugins.Plugin.Execute: the cast of the stored pointer to `T(*)(Args...)` and the call through it are not modelled; `call` stands for the callee's result and `zero` for `T()`.
- Plugins.Plugin.Close: models only the destructor's guard; releasing the handle and the invalidation of addresses already handed out are OS resource management.
- The Windows branch, which does not compile as written (an undefined `func_ptr`, a `DWORD` stored in a `const char*`), and the preprocessor selection of the platform.
- The lifetime of the string returned by `dlerror`, and thread safety: the model is sequential.
- Null error after a failed lookup: in the model a failed lookup always carries a message, but `dlsym` can also return null for a symbol whose value is null; `dlerror` then returns null, so the source stores a null error (`include/hirzel/plugin.h:254`) while still clearing the flag (`include/hirzel/plugin.h:257`). The model cannot represent that null error.
- Copying a plugin: the class declares a destructor but no copy operations, so an implicit copy shares the handle and both destructors release it (`include/hirzel/plugin.h:185-194`). A Dafny object reference cannot express a C++ value copy, so this double release is not modelled.
