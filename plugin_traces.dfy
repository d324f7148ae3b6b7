/**
 * What holds over sequences of calls on one plugin, and what the
 * constructor leaves behind.
 */
module PluginTraces {
  import opened Wrappers
  import opened Loader
  import opened PluginState

  /** A `bind_library` call that the loader answers with a handle. */
  predicate Loads(op: Op)
  {
    op.BindLib? && op.outcome.Loaded?
  }

  /** A `bind_function` call that the loader answers with null. */
  predicate MissesSymbol(op: Op)
  {
    op.BindFn? && op.lookup.NotFound?
  }

  /** A `bind_function` call for `name` that the loader answers with an address. */
  predicate Rebinds(op: Op, name: string)
  {
    op.BindFn? && op.name == name && op.lookup.Found?
  }

  lemma {:induction false} RunAppend(s: State, a: seq<Op>, b: seq<Op>)
    ensures Run(s, a + b) == Run(Run(s, a), b)
    decreases |a|
  {
    if a == [] {
      assert a + b == b;
    } else {
      assert (a + b)[0] == a[0];
      assert (a + b)[1..] == a[1..] + b;
      RunAppend(Step(s, a[0]), a[1..], b);
    }
  }

  /**
   * While a handle is held, the flag stays set exactly as long as no symbol
   * lookup fails: once it is cleared, nothing sets it again.
   */
  lemma {:induction false} BoundWhileHeld(s: State, ops: seq<Op>)
    requires s.lib.Some?
    ensures Run(s, ops).bound <==> s.bound && forall op :: op in ops ==> !MissesSymbol(op)
    decreases |ops|
  {
    if ops != [] {
      var t := Step(s, ops[0]);
      BoundWhileHeld(t, ops[1..]);
      assert t.bound <==> s.bound && !MissesSymbol(ops[0]);
      if forall op :: op in ops ==> !MissesSymbol(op) {
        assert ops[0] in ops;
        assert forall op :: op in ops[1..] ==> op in ops;
      } else {
        var op :| op in ops && MissesSymbol(op);
        if op != ops[0] {
          assert op in ops[1..];
        }
      }
    }
  }

  /** Once a handle is held and the flag is clear, it stays clear. */
  lemma BoundNeverReturns(s: State, ops: seq<Op>)
    requires s.lib.Some? && !s.bound
    ensures !Run(s, ops).bound
  {
    BoundWhileHeld(s, ops);
  }

  /** Without a successful open, no handle is held and the flag stays clear. */
  lemma {:induction false} UnloadedWithoutLoad(s: State, ops: seq<Op>)
    requires Valid(s) && s.lib.None?
    requires forall op :: op in ops ==> !Loads(op)
    ensures Run(s, ops).lib.None? && !Run(s, ops).bound
    decreases |ops|
  {
    if ops != [] {
      assert ops[0] in ops;
      UnloadedWithoutLoad(Step(s, ops[0]), ops[1..]);
    }
  }

  /**
   * From a default-constructed plugin, the first successful open fixes the
   * handle and the path for good, and afterwards the flag is set exactly
   * when no symbol lookup has failed since.
   */
  lemma BoundIffNoMissSinceLoad(pre: seq<Op>, path: string, h: Handle, post: seq<Op>)
    requires forall op :: op in pre ==> !Loads(op)
    ensures var t := Run(Initial, pre + [BindLib(path, Loaded(h))] + post);
      && t.lib == Some(h)
      && t.filepath == path
      && (t.bound <==> forall op :: op in post ==> !MissesSymbol(op))
  {
    var load := [BindLib(path, Loaded(h))];
    RunAppend(Initial, pre + load, post);
    RunAppend(Initial, pre, load);
    UnloadedWithoutLoad(Initial, pre);
    var afterLoad := Run(Run(Initial, pre), load);
    assert afterLoad == Step(Run(Initial, pre), load[0]);
    BoundWhileHeld(afterLoad, post);
  }

  /**
   * A table entry changes only through a successful `bind_function` for its
   * name: `execute` and `get_func` never overwrite an existing entry.
   */
  lemma {:induction false} EntryKeptUnlessRebound(s: State, ops: seq<Op>, name: string)
    requires name in s.functions
    requires forall op :: op in ops ==> !Rebinds(op, name)
    ensures name in Run(s, ops).functions
    ensures Run(s, ops).functions[name] == s.functions[name]
    decreases |ops|
  {
    if ops != [] {
      assert ops[0] in ops;
      EntryKeptUnlessRebound(Step(s, ops[0]), ops[1..], name);
    }
  }

  /**
   * The address the last successful lookup of `name` in `names` produced, or
   * `None` if no lookup of `name` succeeded.
   */
  function LastFound(names: seq<string>, lookups: seq<LookupResult>, name: string): (a: Option<Address>)
    requires |names| == |lookups|
    decreases |names|
  {
    if names == [] then None
    else match LastFound(names[1..], lookups[1..], name)
      case Some(a) => Some(a)
      case None => if names[0] == name && lookups[0].Found? then Some(lookups[0].address) else None
  }

  /** `LastFound` is the answer at the last index where `name` was found. */
  lemma {:induction false} LastFoundIsLast(names: seq<string>, lookups: seq<LookupResult>, name: string)
    requires |names| == |lookups|
    ensures LastFound(names, lookups, name).None? <==>
      forall i :: 0 <= i < |names| ==> !(names[i] == name && lookups[i].Found?)
    ensures LastFound(names, lookups, name).Some? ==>
      exists i :: 0 <= i < |names| && names[i] == name && lookups[i] == Found(LastFound(names, lookups, name).value)
        && forall j :: i < j < |names| ==> !(names[j] == name && lookups[j].Found?)
    decreases |names|
  {
    if names != [] {
      LastFoundIsLast(names[1..], lookups[1..], name);
      var rest := LastFound(names[1..], lookups[1..], name);
      if rest.Some? {
        var i :| 0 <= i < |names| - 1 && names[1..][i] == name && lookups[1..][i] == Found(rest.value)
          && forall j :: i < j < |names| - 1 ==> !(names[1..][j] == name && lookups[1..][j].Found?);
        assert names[i + 1] == name && lookups[i + 1] == Found(rest.value);
        forall j | i + 1 < j < |names| ensures !(names[j] == name && lookups[j].Found?) {
          assert names[j] == names[1..][j - 1] && lookups[j] == lookups[1..][j - 1];
        }
      } else {
        forall i | 1 <= i < |names| ensures !(names[i] == name && lookups[i].Found?) {
          assert names[i] == names[1..][i - 1] && lookups[i] == lookups[1..][i - 1];
        }
      }
    }
  }

  /** The loader's message of the last failed lookup, or `None` if none failed. */
  function LastMiss(lookups: seq<LookupResult>): (m: Option<string>)
    decreases |lookups|
  {
    if lookups == [] then None
    else match LastMiss(lookups[1..])
      case Some(m) => Some(m)
      case None => if lookups[0].NotFound? then Some(lookups[0].message) else None
  }

  /** `LastMiss` is the message at the last index whose lookup failed. */
  lemma {:induction false} LastMissIsLast(lookups: seq<LookupResult>)
    ensures LastMiss(lookups).None? <==> forall i :: 0 <= i < |lookups| ==> lookups[i].Found?
    ensures LastMiss(lookups).Some? ==>
      exists i :: 0 <= i < |lookups| && lookups[i] == NotFound(LastMiss(lookups).value)
        && forall j :: i < j < |lookups| ==> lookups[j].Found?
    decreases |lookups|
  {
    if lookups != [] {
      LastMissIsLast(lookups[1..]);
      var rest := LastMiss(lookups[1..]);
      if rest.Some? {
        var i :| 0 <= i < |lookups| - 1 && lookups[1..][i] == NotFound(rest.value)
          && forall j :: i < j < |lookups| - 1 ==> lookups[1..][j].Found?;
        assert lookups[i + 1] == NotFound(rest.value);
        forall j | i + 1 < j < |lookups| ensures lookups[j].Found? {
          assert lookups[j] == lookups[1..][j - 1];
        }
      } else {
        forall i | 1 <= i < |lookups| ensures lookups[i].Found? {
          assert lookups[i] == lookups[1..][i - 1];
        }
      }
    }
  }

  /**
   * Binding a list of names while a handle is held: the flag survives only if
   * every lookup succeeds.
   */
  lemma {:induction false} LookupsBound(s: State, names: seq<string>, lookups: seq<LookupResult>)
    requires s.lib.Some? && |names| == |lookups|
    ensures Run(s, LookupOps(names, lookups)).bound <==>
      s.bound && forall i :: 0 <= i < |lookups| ==> lookups[i].Found?
    decreases |names|
  {
    if names != [] {
      var ops := LookupOps(names, lookups);
      assert ops[1..] == LookupOps(names[1..], lookups[1..]);
      LookupsBound(Step(s, ops[0]), names[1..], lookups[1..]);
      if forall i :: 0 <= i < |lookups| ==> lookups[i].Found? {
        assert forall i :: 0 <= i < |lookups[1..]| ==> lookups[1..][i] == lookups[i + 1];
      } else {
        var i :| 0 <= i < |lookups| && !lookups[i].Found?;
        if i > 0 {
          assert !lookups[1..][i - 1].Found?;
        }
      }
    }
  }

  /**
   * Binding a list of names while a handle is held: the error ends as the
   * message of the last failed lookup, or as it was if none failed.
   */
  lemma {:induction false} LookupsError(s: State, names: seq<string>, lookups: seq<LookupResult>)
    requires s.lib.Some? && |names| == |lookups|
    ensures Run(s, LookupOps(names, lookups)).error ==
      (if LastMiss(lookups).Some? then LastMiss(lookups) else s.error)
    decreases |names|
  {
    if names != [] {
      var ops := LookupOps(names, lookups);
      assert ops[1..] == LookupOps(names[1..], lookups[1..]);
      LookupsError(Step(s, ops[0]), names[1..], lookups[1..]);
    }
  }

  /**
   * Binding a list of names while a handle is held: each name's entry ends as
   * the address of its last successful lookup; a name never found keeps the
   * entry it had, and gains none if it had none.
   */
  lemma {:induction false} LookupsEntry(s: State, names: seq<string>, lookups: seq<LookupResult>, name: string)
    requires s.lib.Some? && |names| == |lookups|
    ensures var t := Run(s, LookupOps(names, lookups));
      && (name in t.functions <==> name in s.functions || LastFound(names, lookups, name).Some?)
      && (LastFound(names, lookups, name).Some? ==> t.functions[name] == LastFound(names, lookups, name))
      && (LastFound(names, lookups, name).None? && name in s.functions ==> t.functions[name] == s.functions[name])
    decreases |names|
  {
    if names != [] {
      var ops := LookupOps(names, lookups);
      assert ops[1..] == LookupOps(names[1..], lookups[1..]);
      LookupsEntry(Step(s, ops[0]), names[1..], lookups[1..], name);
    }
  }

  /**
   * A plugin constructed over a library that opens: it holds the handle and
   * the path; its flag is set exactly when every name was found; its error is
   * the message of the last lookup that failed (null if none did); and its
   * table holds exactly the names that were found, each with the address of
   * its last successful lookup, so no entry is null.
   */
  lemma ConstructLoaded(path: string, names: seq<string>, h: Handle, lookups: seq<LookupResult>)
    requires |names| == |lookups|
    ensures var t := Construct(path, names, Loaded(h), lookups);
      && t.lib == Some(h) && t.filepath == path
      && (t.bound <==> forall i :: 0 <= i < |lookups| ==> lookups[i].Found?)
      && t.error == LastMiss(lookups)
      && (forall n :: n in t.functions <==> LastFound(names, lookups, n).Some?)
      && (forall n :: n in t.functions ==> t.functions[n] == LastFound(names, lookups, n))
  {
    var s := BindLibrary(Initial, path, Loaded(h));
    var t := Construct(path, names, Loaded(h), lookups);
    assert t == Run(s, LookupOps(names, lookups));
    LookupsBound(s, names, lookups);
    LookupsError(s, names, lookups);
    forall n ensures (n in t.functions <==> LastFound(names, lookups, n).Some?)
      && (n in t.functions ==> t.functions[n] == LastFound(names, lookups, n))
    {
      LookupsEntry(s, names, lookups, n);
    }
  }

  /**
   * A plugin constructed with the names "add" (found) and "missing_fn" (not
   * found): the library is open, only "add" is in the table and the flag is
   * clear. Executing "missing_fn" then returns the default value with the
   * plugin's own error, and leaves a null entry behind, so that
   * `is_func_bound("missing_fn")` turns true. Executing "add" instead calls
   * its address and leaves the error and the table as they were.
   */
  lemma AddAndMissingScenario(h: Handle, add: Address, msg: string, zero: int, call: Address -> int)
    ensures var t := Construct("mathlib.so", ["add", "missing_fn"], Loaded(h), [Found(add), NotFound(msg)]);
      && t.lib == Some(h)
      && t.functions == map["add" := Some(add)]
      && !t.bound && t.error == Some(msg)
      && var (u, r) := Execute(t, "missing_fn", zero, call);
      && r == zero && u.error == Some(NotBoundMessage)
      && u.functions == map["add" := Some(add), "missing_fn" := None]
      && var (v, q) := Execute(t, "add", zero, call);
      && q == call(add) && v.error == Some(msg) && v.functions == t.functions
  {
    var names, lookups := ["add", "missing_fn"], [Found(add), NotFound(msg)];
    var t := Construct("mathlib.so", names, Loaded(h), lookups);
    ConstructLoaded("mathlib.so", names, h, lookups);
    assert !lookups[1].Found?;
    assert LastMiss(lookups[1..][1..]) == None;
    assert LastMiss(lookups[1..]) == Some(msg);
    assert LastMiss(lookups) == Some(msg);
    assert LastFound(names, lookups, "add") == Some(add);
    assert LastFound(names, lookups, "missing_fn").None?;
    forall n | n != "add" ensures LastFound(names, lookups, n).None? {
    }
    assert t.functions.Keys == {"add"};
  }
}
