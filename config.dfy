/** The run's configuration: built-in defaults, overridden by the keys of a
    configuration module, overridden by the options given on the command
    line. Parsing the command line, importing the configuration module and
    decoding JSON are outside the model; what they produce is described by
    `Args`, `Json` and the `fileConf` parameter. */
module Config {
  import opened Common
  import opened Strings

  /** A value `json.loads` yields for a `--context` flag. */
  datatype Json =
    | JNum(n: int)
    | JStr(s: string)
    | JList(xs: seq<Json>)
    | JObject(fields: map<string, Json>)
    | JOther

  /** A configuration value. `Other` is any value a configuration module
      sets that the merge passes through untouched. */
  datatype Setting =
    | Path(p: string)
    | Paths(ps: seq<string>)
    | Dict(m: map<string, Json>)
    | Other

  type Conf = map<string, Setting>

  /** The parsed command line, option by option, before values that were
      not given are dropped. `context` holds the `--context KEY JSON` pairs
      in the order given, `statics` the `--static` paths in the order given. */
  datatype Args = Args(
    context: seq<(string, Json)>,
    content: Option<string>,
    templates: Option<string>,
    output: Option<string>,
    statics: seq<string>,
    configFile: Option<string>)

  const NoArgs := Args([], None, None, None, [], None)

  /** The built-in defaults, relative to the working directory. */
  function Defaults(cwd: string): (d: Conf)
    ensures d.Keys == {"context", "content", "templates", "output", "static", "meta"}
    ensures d["context"] == Dict(map[]) && d["meta"] == Dict(map[]) && d["static"] == Paths([])
    ensures d["content"] == Path(PathJoin(cwd, "content"))
    ensures d["templates"] == Path(PathJoin(cwd, "templates"))
    ensures d["output"] == Path(PathJoin(cwd, "out"))
  {
    map["context" := Dict(map[]),
        "content" := Path(PathJoin(cwd, "content")),
        "templates" := Path(PathJoin(cwd, "templates")),
        "output" := Path(PathJoin(cwd, "out")),
        "static" := Paths([]),
        "meta" := Dict(map[])]
  }

  // ---------------------------------------------------------------------------
  // Repeated `--context` flags.

  /** The `context` attribute of the argument namespace after the given
      flags: unset (None) before the first flag; each flag copies the
      mapping so far and sets its key. */
  function ContextAfter(pairs: seq<(string, Json)>): (ctx: Option<map<string, Json>>)
    ensures ctx.Some? <==> |pairs| > 0
    decreases |pairs|
  {
    if pairs == [] then None
    else
      var before := ContextAfter(pairs[..|pairs| - 1]);
      var last := pairs[|pairs| - 1];
      Some((if before.Some? then before.value else map[])[last.0 := last.1])
  }

  /** Each flag `-cx KEY JSON` runs the namespace action once, in order. */
  method AccumulateContext(pairs: seq<(string, Json)>) returns (ctx: Option<map<string, Json>>)
    ensures ctx == ContextAfter(pairs)
  {
    ctx := None;
    for i := 0 to |pairs|
      invariant ctx == ContextAfter(pairs[..i])
    {
      assert pairs[..i + 1][..i] == pairs[..i];
      var newContext := if ctx.Some? then ctx.value else map[];
      ctx := Some(newContext[pairs[i].0 := pairs[i].1]);
    }
    assert pairs[..|pairs|] == pairs;
  }

  /** Its keys are the keys of the flags. */
  lemma {:induction false} ContextAfterKeys(pairs: seq<(string, Json)>, k: string)
    requires |pairs| > 0
    ensures k in ContextAfter(pairs).value <==> exists i :: 0 <= i < |pairs| && pairs[i].0 == k
    decreases |pairs|
  {
    var init := pairs[..|pairs| - 1];
    if k != pairs[|pairs| - 1].0 && init != [] {
      ContextAfterKeys(init, k);
      if k in ContextAfter(pairs).value {
        var i :| 0 <= i < |init| && init[i].0 == k;
        assert pairs[i].0 == k;
      }
      if exists i :: 0 <= i < |pairs| && pairs[i].0 == k {
        var i :| 0 <= i < |pairs| && pairs[i].0 == k;
        assert init[i].0 == k;
      }
    }
  }

  /** Each key holds the value of the last flag that named it. */
  lemma {:induction false} ContextAfterLast(pairs: seq<(string, Json)>, i: nat)
    requires i < |pairs|
    requires forall j :: i < j < |pairs| ==> pairs[j].0 != pairs[i].0
    ensures pairs[i].0 in ContextAfter(pairs).value && ContextAfter(pairs).value[pairs[i].0] == pairs[i].1
    decreases |pairs|
  {
    var init := pairs[..|pairs| - 1];
    if i < |init| {
      assert init[i] == pairs[i];
      forall j | i < j < |init| ensures init[j].0 != init[i].0 {
        assert init[j] == pairs[j];
      }
      ContextAfterLast(init, i);
    }
  }

  // ---------------------------------------------------------------------------
  // The merge.

  /** `vars(namespace)`: every option under its destination name, None when
      it was not given. */
  function Namespace(args: Args, context: Option<map<string, Json>>): map<string, Option<Setting>>
  {
    map["context" := if context.Some? then Some(Dict(context.value)) else None,
        "content" := if args.content.Some? then Some(Path(args.content.value)) else None,
        "templates" := if args.templates.Some? then Some(Path(args.templates.value)) else None,
        "output" := if args.output.Some? then Some(Path(args.output.value)) else None,
        "static" := if args.statics != [] then Some(Paths(args.statics)) else None,
        "config_file" := if args.configFile.Some? then Some(Path(args.configFile.value)) else None]
  }

  /** Keeps the options whose value is not None. */
  function DropUnset(ns: map<string, Option<Setting>>): (conf: Conf)
    ensures forall k :: k in conf <==> k in ns && ns[k].Some?
    ensures forall k :: k in conf ==> conf[k] == ns[k].value
  {
    map k | k in ns && ns[k].Some? :: ns[k].value
  }

  /** The options given on the command line, under their destination names. */
  function ArgConf(args: Args): Conf
  {
    DropUnset(Namespace(args, ContextAfter(args.context)))
  }

  /** `config.update(file_conf)` when a configuration module is named, then
      `config.update(arg_conf)`: a later mapping's keys replace an earlier
      one's. */
  function Layered(defaults: Conf, fileConf: Option<Conf>, argConf: Conf): Conf
  {
    (if fileConf.Some? then defaults + fileConf.value else defaults) + argConf
  }

  /** `os.path.basename` of the configuration file, without a trailing
      `.py`: the name `imp.find_module` looks the module up by in the
      file's directory (it is then loaded as `transcribe_config`). */
  function ModuleName(path: string): (name: string)
    ensures '/' !in name
  {
    var base := LastComponent(path);
    if |base| >= 3 && base[|base| - 3..] == ".py" then base[..|base| - 3] else base
  }

  /** Builds the configuration. `fileConf` is the `TRANSCRIBE_CONFIG` of the
      configuration module, consulted only when `--config-file` is given;
      `moduleName` is the name that module is looked up by. */
  method GenerateConfig(cwd: string, args: Args, fileConf: Conf) returns (config: Conf, moduleName: Option<string>)
    ensures config == Layered(Defaults(cwd), if args.configFile.Some? then Some(fileConf) else None, ArgConf(args))
    ensures moduleName.Some? <==> args.configFile.Some?
    ensures moduleName.Some? ==> moduleName.value == ModuleName(args.configFile.value)
  {
    var context := AccumulateContext(args.context);
    var argConf := DropUnset(Namespace(args, context));
    assert argConf == ArgConf(args);
    ConfigFileGiven(args);
    config := Defaults(cwd);
    moduleName := None;
    if "config_file" in argConf {
      moduleName := Some(ModuleName(args.configFile.value));
      config := config + fileConf;
    }
    config := config + argConf;
  }

  // ---------------------------------------------------------------------------
  // Properties of the merge.

  /** Precedence: a key given on the command line wins, then a key of the
      configuration module, then the default; the keys are those of all three. */
  lemma LayeredLookup(defaults: Conf, fileConf: Option<Conf>, argConf: Conf, k: string)
    ensures k in Layered(defaults, fileConf, argConf)
        <==> k in argConf || (fileConf.Some? && k in fileConf.value) || k in defaults
    ensures k in argConf ==> Layered(defaults, fileConf, argConf)[k] == argConf[k]
    ensures k !in argConf && fileConf.Some? && k in fileConf.value ==>
      Layered(defaults, fileConf, argConf)[k] == fileConf.value[k]
    ensures k !in argConf && (fileConf.None? || k !in fileConf.value) && k in defaults ==>
      Layered(defaults, fileConf, argConf)[k] == defaults[k]
  {
  }

  /** Which options reach the configuration: exactly the ones given. */
  lemma ConfigFileGiven(args: Args)
    ensures "config_file" in ArgConf(args) <==> args.configFile.Some?
  {
    ArgConfKeys(args);
  }

  lemma ArgConfKeys(args: Args)
    ensures "context" in ArgConf(args) <==> |args.context| > 0
    ensures "content" in ArgConf(args) <==> args.content.Some?
    ensures "templates" in ArgConf(args) <==> args.templates.Some?
    ensures "output" in ArgConf(args) <==> args.output.Some?
    ensures "static" in ArgConf(args) <==> args.statics != []
    ensures "config_file" in ArgConf(args) <==> args.configFile.Some?
    ensures forall k :: k in ArgConf(args) ==>
      k in {"context", "content", "templates", "output", "static", "config_file"}
  {
    var ns := Namespace(args, ContextAfter(args.context));
    assert ArgConf(args) == DropUnset(ns);
    NamespaceKeys(args, ContextAfter(args.context));
  }

  lemma NamespaceKeys(args: Args, context: Option<map<string, Json>>)
    ensures Namespace(args, context).Keys == {"context", "content", "templates", "output", "static", "config_file"}
    ensures Namespace(args, context)["context"].Some? <==> context.Some?
    ensures Namespace(args, context)["content"].Some? <==> args.content.Some?
    ensures Namespace(args, context)["templates"].Some? <==> args.templates.Some?
    ensures Namespace(args, context)["output"].Some? <==> args.output.Some?
    ensures Namespace(args, context)["static"].Some? <==> args.statics != []
    ensures Namespace(args, context)["config_file"].Some? <==> args.configFile.Some?
  {
  }


  /** Without arguments the configuration is the defaults. */
  lemma NoArgumentsGiveDefaults(cwd: string)
    ensures Layered(Defaults(cwd), None, ArgConf(NoArgs)) == Defaults(cwd)
  {
    NoFlags();
  }

  /** A key set by the configuration module replaces the default. */
  lemma FileOverridesDefaults(cwd: string, path: string, fileConf: Conf)
    requires fileConf == map["output" := Path("foo")]
    ensures Layered(Defaults(cwd), Some(fileConf), ArgConf(NoArgs.(configFile := Some(path))))["output"] == Path("foo")
  {
    ArgConfKeys(NoArgs.(configFile := Some(path)));
  }

  /** `--output` replaces what the configuration module sets. */
  lemma CommandLineOverridesFile(cwd: string, path: string, fileConf: Conf)
    requires fileConf == map["output" := Path("foo")]
    ensures Layered(Defaults(cwd), Some(fileConf), ArgConf(NoArgs.(configFile := Some(path), output := Some("bar"))))["output"]
         == Path("bar")
  {
    ArgConfKeys(NoArgs.(configFile := Some(path), output := Some("bar")));
  }

  /** `--content foo` changes that key and nothing else. */
  lemma CommandLineOverridesDefaults(cwd: string)
    ensures Layered(Defaults(cwd), None, ArgConf(NoArgs.(content := Some("foo"))))
         == Defaults(cwd)["content" := Path("foo")]
  {
    var args := NoArgs.(content := Some("foo"));
    ArgConfKeys(args);
    assert ArgConf(args) == map["content" := Path("foo")];
  }

  /** Three `--context` flags collect into one context mapping that replaces
      the default one. */
  lemma ContextFlagsAccumulate(cwd: string)
    ensures Layered(Defaults(cwd), None,
                    ArgConf(NoArgs.(context := [("foo", JStr("bar")), ("baz", JNum(23)),
                                               ("frob", JList([JNum(1), JNum(2), JNum(3)]))])))
         == Defaults(cwd)["context" := Dict(map["foo" := JStr("bar"), "baz" := JNum(23),
                                                "frob" := JList([JNum(1), JNum(2), JNum(3)])])]
  {
    var pairs := [("foo", JStr("bar")), ("baz", JNum(23)), ("frob", JList([JNum(1), JNum(2), JNum(3)]))];
    ThreeContextFlags();
    OnlyContextFlags(pairs);
    CommandLineUpdates(Defaults(cwd), "context", Dict(ContextAfter(pairs).value));
  }

  lemma ThreeContextFlags()
    ensures ContextAfter([("foo", JStr("bar")), ("baz", JNum(23)), ("frob", JList([JNum(1), JNum(2), JNum(3)]))])
         == Some(map["foo" := JStr("bar"), "baz" := JNum(23), "frob" := JList([JNum(1), JNum(2), JNum(3)])])
  {
    var pairs := [("foo", JStr("bar")), ("baz", JNum(23)), ("frob", JList([JNum(1), JNum(2), JNum(3)]))];
    assert pairs[..1] == [("foo", JStr("bar"))] && pairs[..1][..0] == [];
    assert pairs[..2] == [("foo", JStr("bar")), ("baz", JNum(23))] && pairs[..2][..1] == pairs[..1];
    assert ContextAfter(pairs[..1]) == Some(map["foo" := JStr("bar")]);
    assert ContextAfter(pairs[..2]) == Some(map["foo" := JStr("bar"), "baz" := JNum(23)]);
  }

  /** A single command-line option replaces that one key of the defaults. */
  lemma CommandLineUpdates(defaults: Conf, k: string, v: Setting)
    ensures Layered(defaults, None, map[k := v]) == defaults[k := v]
  {
  }

  /** With only context flags, the command line sets only `context`. */
  lemma OnlyContextFlags(pairs: seq<(string, Json)>)
    requires pairs != []
    ensures ArgConf(NoArgs.(context := pairs)) == map["context" := Dict(ContextAfter(pairs).value)]
  {
    var args := NoArgs.(context := pairs);
    ArgConfKeys(args);
  }


  /** The context is replaced as a whole, not merged: once a `--context`
      flag is given, keys the configuration module put in its context are
      gone. */
  lemma ContextFlagsReplaceFileContext(defaults: Conf, fileConf: Conf, args: Args)
    requires |args.context| > 0
    ensures Layered(defaults, Some(fileConf), ArgConf(args))["context"] == Dict(ContextAfter(args.context).value)
  {
    ArgConfKeys(args);
  }

  /** The configuration file's path is itself a key of the configuration. */
  lemma ConfigFileKept(defaults: Conf, fileConf: Conf, args: Args)
    requires args.configFile.Some?
    ensures Layered(defaults, Some(fileConf), ArgConf(args))["config_file"] == Path(args.configFile.value)
  {
    ArgConfKeys(args);
  }

  /** The module name is the file name without `.py`. */
  lemma ModuleNameOfPython(dir: string, name: string)
    requires '/' !in name
    ensures ModuleName(dir + "/" + name + ".py") == name
    ensures !(|name| >= 3 && name[|name| - 3..] == ".py") ==> ModuleName(dir + "/" + name) == name
  {
    PythonFileName(dir, name);
    if !(|name| >= 3 && name[|name| - 3..] == ".py") {
      LastComponentOf(dir, name);
    }
  }

  lemma PythonFileName(dir: string, name: string)
    requires '/' !in name
    ensures ModuleName(dir + "/" + name + ".py") == name
  {
    var file := name + ".py";
    LastComponentOf(dir, file);
    assert dir + "/" + name + ".py" == dir + "/" + file;
    assert file[|file| - 3..] == ".py" && file[..|file| - 3] == name;
  }

  lemma {:induction false} LastComponentOf(dir: string, name: string)
    requires '/' !in name
    ensures LastComponent(dir + "/" + name) == name
    decreases |name|
  {
    var p := dir + "/" + name;
    if name == [] {
    } else {
      assert p[..|p| - 1] == dir + "/" + name[..|name| - 1];
      LastComponentOf(dir, name[..|name| - 1]);
      assert name[..|name| - 1] + [name[|name| - 1]] == name;
    }
  }

  // ---------------------------------------------------------------------------
  // As written, the merge starts from the module-level defaults themselves
  // rather than a copy, so every call leaves its result behind as the
  // defaults of the next call.

  /** The module-level state: the defaults mapping that calls update. */
  class Module {
    var defaultConf: Conf

    constructor(cwd: string)
      ensures defaultConf == Defaults(cwd)
    {
      defaultConf := Defaults(cwd);
    }

    /** `config = DEFAULT_CONF` followed by the two updates. */
    method GenerateConfigAsWritten(args: Args, fileConf: Conf) returns (config: Conf)
      modifies this
      ensures config == Layered(old(defaultConf), if args.configFile.Some? then Some(fileConf) else None, ArgConf(args))
      ensures defaultConf == config
    {
      var context := AccumulateContext(args.context);
      var argConf := DropUnset(Namespace(args, context));
      assert argConf == ArgConf(args);
      ConfigFileGiven(args);
      if "config_file" in argConf {
        defaultConf := defaultConf + fileConf;
      }
      defaultConf := defaultConf + argConf;
      config := defaultConf;
    }
  }

  /** A run with `--output bar` followed by a run without arguments: the
      second run still writes to `bar`, not to the default `out`. */
  lemma SecondCallKeepsFirstOptions(cwd: string)
    ensures Layered(Layered(Defaults(cwd), None, ArgConf(NoArgs.(output := Some("bar")))), None, ArgConf(NoArgs))["output"]
         == Path("bar")
    ensures Defaults(cwd)["output"] != Path("bar")
  {
    OnlyOutputFlag("bar");
    NoFlags();
    var out := PathJoin(cwd, "out");
    assert out[|out| - 1] == 't';
  }

  lemma NoFlags()
    ensures ArgConf(NoArgs) == map[]
  {
    ArgConfKeys(NoArgs);
  }

  lemma OnlyOutputFlag(path: string)
    ensures ArgConf(NoArgs.(output := Some(path))) == map["output" := Path(path)]
  {
    ArgConfKeys(NoArgs.(output := Some(path)));
  }

}
