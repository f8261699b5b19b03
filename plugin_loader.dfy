/**
 * The entry-point plugin loader of src/ia_sarah/core/plugin_loader.py: a
 * per-group cache of name -> loaded object, filled once from the
 * discovered entry points (minus the disabled ones and those whose load
 * raises) and replayed to a callback on every call.
 *
 * Discovery (`importlib.metadata.entry_points`) and the environment
 * variable are parameters; an entry point's `load()` is its result or the
 * exception it raises; a callback is the predicate telling whether it
 * raises for a given pair.
 */
module PluginLoader {
  import opened Wrappers
  import opened OrderedDict

  /** An object an entry point loads (a class, in practice). */
  datatype Obj = Obj(id: nat)

  /** A discovered entry point and what its `load()` does. */
  datatype EntryPoint = EntryPoint(name: string, load: Result<Obj, string>)

  // ----- DISABLED_PLUGINS -----

  /** `s.split(",")`: the pieces between commas; never empty. */
  function Split(s: string): (r: seq<string>)
    ensures |r| >= 1
    decreases |s|
  {
    if s == [] then [""]
    else
      var rest := Split(s[1..]);
      if s[0] == ',' then [""] + rest else [[s[0]] + rest[0]] + rest[1..]
  }

  /** `",".join(pieces)`. */
  function Join(pieces: seq<string>): string
    requires |pieces| >= 1
  {
    if |pieces| == 1 then pieces[0] else pieces[0] + "," + Join(pieces[1..])
  }

  /** Joining a piece in front of at least one more adds it and a comma. */
  lemma JoinHead(a: string, rest: seq<string>)
    requires |rest| >= 1
    ensures Join([a] + rest) == a + "," + Join(rest)
  {
    assert ([a] + rest)[1..] == rest;
  }

  /** Prefixing the first piece with a character prefixes the joined text. */
  lemma JoinPrepend(c: char, pieces: seq<string>)
    requires |pieces| >= 1
    ensures Join([[c] + pieces[0]] + pieces[1..]) == [c] + Join(pieces)
  {
    if |pieces| > 1 {
      var a, j := pieces[0], Join(pieces[1..]);
      JoinHead([c] + a, pieces[1..]);
      JoinHead(a, pieces[1..]);
      assert pieces == [a] + pieces[1..];
      CommaAssoc(c, a, j);
    }
  }

  lemma CommaAssoc(c: char, a: string, j: string)
    ensures ([c] + a) + "," + j == [c] + (a + "," + j)
  {
  }

  /** Splitting on commas loses nothing: joining the pieces gives the text back. */
  lemma {:induction false} JoinSplit(s: string)
    ensures Join(Split(s)) == s
    decreases |s|
  {
    if s != [] {
      JoinSplit(s[1..]);
      var rest := Split(s[1..]);
      if s[0] == ',' {
        JoinHead("", rest);
      } else {
        JoinPrepend(s[0], rest);
      }
      assert s == [s[0]] + s[1..];
    }
  }

  /** No piece contains a comma. */
  lemma {:induction false} SplitPiecesHaveNoComma(s: string)
    ensures forall i :: 0 <= i < |Split(s)| ==> ',' !in Split(s)[i]
    decreases |s|
  {
    if s != [] {
      SplitPiecesHaveNoComma(s[1..]);
      var rest := Split(s[1..]);
      var r := Split(s);
      if s[0] != ',' {
        forall i | 0 <= i < |r|
          ensures ',' !in r[i]
        {
          if i == 0 {
            assert r[0] == [s[0]] + rest[0];
          } else {
            assert r[i] == rest[i];
          }
        }
      }
    }
  }

  /** `set(os.getenv("DISABLED_PLUGINS", "").split(","))`. */
  function DisabledNames(env: Option<string>): set<string>
  {
    var pieces := Split(env.GetOr(""));
    set i | 0 <= i < |pieces| :: pieces[i]
  }

  /** With the variable unset only the empty name is disabled; otherwise a
      name is disabled exactly when it is one of the comma-separated pieces. */
  lemma DisabledNamesSpec(env: Option<string>, name: string)
    ensures env.None? ==> DisabledNames(env) == {""}
    ensures env.Some? ==> (name in DisabledNames(env) <==> name in Split(env.value))
  {
    if env.None? {
      var pieces := Split("");
      assert pieces == [""];
      assert pieces[0] in DisabledNames(env);
    }
  }

  // ----- The registry of one group -----

  /** One step of the discovery loop: a disabled name or a failing load is
      skipped, anything else is stored under its name. */
  function Admit(registry: Dict<Obj>, ep: EntryPoint, disabled: set<string>): Dict<Obj>
  {
    if ep.name in disabled || ep.load.Failure? then registry
    else Put(registry, ep.name, ep.load.value)
  }

  /** The registry the loop has built after the entry points `eps`. */
  function Registry(eps: seq<EntryPoint>, disabled: set<string>): Dict<Obj>
    decreases |eps|
  {
    if eps == [] then []
    else Admit(Registry(eps[..|eps| - 1], disabled), eps[|eps| - 1], disabled)
  }

  /** The object of the last entry point named `n` that is enabled and loads. */
  function LastLoaded(eps: seq<EntryPoint>, disabled: set<string>, n: string): Option<Obj>
    decreases |eps|
  {
    if eps == [] then None
    else
      var e := eps[|eps| - 1];
      if e.name == n && n !in disabled && e.load.Success? then Some(e.load.value)
      else LastLoaded(eps[..|eps| - 1], disabled, n)
  }

  /** LastLoaded finds something exactly when some entry point of that name
      is enabled and loads, and then it is the object of the last such one. */
  lemma {:induction false} LastLoadedSpec(eps: seq<EntryPoint>, disabled: set<string>, n: string)
    ensures LastLoaded(eps, disabled, n).Some? <==>
      exists i :: 0 <= i < |eps| && eps[i].name == n && n !in disabled && eps[i].load.Success?
    ensures LastLoaded(eps, disabled, n).Some? ==>
      exists i :: && 0 <= i < |eps| && eps[i].name == n && n !in disabled
                  && eps[i].load == Success(LastLoaded(eps, disabled, n).value)
                  && forall j :: i < j < |eps| ==> !(eps[j].name == n && eps[j].load.Success?)
    decreases |eps|
  {
    if eps != [] {
      var last := |eps| - 1;
      var prefix := eps[..last];
      LastLoadedSpec(prefix, disabled, n);
      if eps[last].name == n && n !in disabled && eps[last].load.Success? {
        assert eps[last].load == Success(LastLoaded(eps, disabled, n).value);
      } else {
        if exists i :: 0 <= i < |eps| && eps[i].name == n && n !in disabled && eps[i].load.Success? {
          var i :| 0 <= i < |eps| && eps[i].name == n && n !in disabled && eps[i].load.Success?;
          assert i < last && prefix[i] == eps[i];
        }
        if LastLoaded(eps, disabled, n).Some? {
          var i :| && 0 <= i < |prefix| && prefix[i].name == n && n !in disabled
                   && prefix[i].load == Success(LastLoaded(prefix, disabled, n).value)
                   && forall j :: i < j < |prefix| ==> !(prefix[j].name == n && prefix[j].load.Success?);
          forall j | i < j < |eps|
            ensures !(eps[j].name == n && eps[j].load.Success?)
          {
            if j < last {
              assert eps[j] == prefix[j];
            }
          }
          assert eps[i] == prefix[i];
        }
      }
    }
  }

  /** Looking a name up in the built registry gives the last enabled entry
      point of that name that loads; a disabled name is never there. */
  lemma {:induction false} RegistryLookup(eps: seq<EntryPoint>, disabled: set<string>, n: string)
    ensures Get(Registry(eps, disabled), n) == LastLoaded(eps, disabled, n)
    ensures n in disabled ==> Get(Registry(eps, disabled), n) == None
    decreases |eps|
  {
    if eps != [] {
      var prefix := eps[..|eps| - 1];
      var e := eps[|eps| - 1];
      RegistryLookup(prefix, disabled, n);
      if !(e.name in disabled || e.load.Failure?) {
        if e.name == n {
          GetPutSame(Registry(prefix, disabled), n, e.load.value);
        } else {
          GetPutOther(Registry(prefix, disabled), e.name, e.load.value, n);
        }
      }
    }
  }

  /** The registry never holds a name twice. */
  lemma {:induction false} RegistryDistinct(eps: seq<EntryPoint>, disabled: set<string>)
    ensures DistinctKeys(Registry(eps, disabled))
    decreases |eps|
  {
    if eps != [] {
      var prefix := eps[..|eps| - 1];
      var e := eps[|eps| - 1];
      RegistryDistinct(prefix, disabled);
      if !(e.name in disabled || e.load.Failure?) {
        PutKeepsDistinct(Registry(prefix, disabled), e.name, e.load.value);
      }
    }
  }

  /** The names, in order, whose callback raised (and was logged). */
  function CallbackFailures(entries: Dict<Obj>, raises: (string, Obj) -> bool): seq<string>
    decreases |entries|
  {
    if entries == [] then []
    else
      var e := entries[|entries| - 1];
      CallbackFailures(entries[..|entries| - 1], raises) + (if raises(e.0, e.1) then [e.0] else [])
  }

  /** A name is logged exactly when its callback raised; nothing stops the loop. */
  lemma {:induction false} CallbackFailuresSpec(entries: Dict<Obj>, raises: (string, Obj) -> bool, n: string)
    requires DistinctKeys(entries)
    ensures n in CallbackFailures(entries, raises) <==>
      exists i :: 0 <= i < |entries| && entries[i].0 == n && raises(entries[i].0, entries[i].1)
    decreases |entries|
  {
    if entries != [] {
      var last := |entries| - 1;
      var prefix := entries[..last];
      assert DistinctKeys(prefix);
      CallbackFailuresSpec(prefix, raises, n);
      if exists i :: 0 <= i < |entries| && entries[i].0 == n && raises(entries[i].0, entries[i].1) {
        var i :| 0 <= i < |entries| && entries[i].0 == n && raises(entries[i].0, entries[i].1);
        if i < last {
          assert prefix[i] == entries[i];
        }
      }
      if n in CallbackFailures(prefix, raises) {
        var i :| 0 <= i < |prefix| && prefix[i].0 == n && raises(prefix[i].0, prefix[i].1);
        assert entries[i] == prefix[i];
      }
    }
  }

  /** The module-level `_CACHE`: group -> registry. */
  class Loader {
    var cache: map<string, Dict<Obj>>

    ghost predicate Valid()
      reads this
    {
      forall g :: g in cache ==> DistinctKeys(cache[g])
    }

    constructor ()
      ensures Valid() && cache == map[]
    {
      cache := map[];
    }

    /** `load_entrypoints(group, callback)`: builds and caches the group's
        registry on the first call only, then hands every cached pair to the
        callback, in order. `calls` are the callback invocations; `logged`
        the names whose callback raised. */
    method LoadEntrypoints(group: string, discovered: seq<EntryPoint>, env: Option<string>,
                           raises: (string, Obj) -> bool)
      returns (calls: seq<(string, Obj)>, logged: seq<string>)
      requires Valid()
      modifies this`cache
      ensures Valid()
      ensures group in old(cache) ==> cache == old(cache)
      ensures group !in old(cache) ==> cache == old(cache)[group := Registry(discovered, DisabledNames(env))]
      ensures calls == cache[group]
      ensures logged == CallbackFailures(cache[group], raises)
    {
      if group !in cache {
        var disabled := DisabledNames(env);
        var registry: Dict<Obj> := [];
        for i := 0 to |discovered|
          invariant registry == Registry(discovered[..i], disabled)
        {
          var ep := discovered[i];
          assert discovered[..i + 1][..i] == discovered[..i];
          if ep.name in disabled {
            continue;
          }
          match ep.load
          case Failure(_) =>
          case Success(obj) =>
            registry := Put(registry, ep.name, obj);
        }
        assert discovered[..|discovered|] == discovered;
        RegistryDistinct(discovered, disabled);
        cache := cache[group := registry];
      }
      var entries := cache[group];
      calls := [];
      logged := [];
      for i := 0 to |entries|
        invariant calls == entries[..i]
        invariant logged == CallbackFailures(entries[..i], raises)
      {
        var (name, obj) := entries[i];
        assert entries[..i + 1][..i] == entries[..i];
        calls := calls + [(name, obj)];
        if raises(name, obj) {
          logged := logged + [name];
        }
      }
      assert entries[..|entries|] == entries;
    }

    /** `list_plugins(group)`: loads the group if needed (with a callback
        that never raises) and returns its cached names. */
    method ListPlugins(group: string, discovered: seq<EntryPoint>, env: Option<string>) returns (names: seq<string>)
      requires Valid()
      modifies this`cache
      ensures Valid()
      ensures group in old(cache) ==> cache == old(cache)
      ensures group !in old(cache) ==> cache == old(cache)[group := Registry(discovered, DisabledNames(env))]
      ensures names == Keys(cache[group])
    {
      var calls, logged := LoadEntrypoints(group, discovered, env, (n: string, o: Obj) => false);
      names := Keys(cache[group]);
    }

    /** `reload_entrypoints(group)`: drops and rebuilds that group only. */
    method ReloadEntrypoints(group: string, discovered: seq<EntryPoint>, env: Option<string>)
      requires Valid()
      modifies this`cache
      ensures Valid()
      ensures cache == old(cache)[group := Registry(discovered, DisabledNames(env))]
    {
      cache := cache - {group};
      var calls, logged := LoadEntrypoints(group, discovered, env, (n: string, o: Obj) => false);
    }
  }

  /** The loader's own test: one enabled entry point `dummy` reaches the
      callback together with the object it loads. */
  method DummyScenario() returns (calls: seq<(string, Obj)>)
    ensures calls == [("dummy", Obj(0))]
  {
    var loader := new Loader();
    var logged;
    calls, logged := loader.LoadEntrypoints("dummy", [EntryPoint("dummy", Success(Obj(0)))], None,
                                            (n: string, o: Obj) => false);
    assert Split("") == [""];
    var eps := [EntryPoint("dummy", Success(Obj(0)))];
    assert eps[..0] == [];
  }
}
