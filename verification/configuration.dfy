/** The configuration layer (mwptoolkit/config/configuration.py): the
    command-line parser of `_load_cmd_line`, the `task_type` check, the
    derived path table of `_build_path_config`, the six-layer merge of
    `_merge_external_config_dict`, and item access on the final dictionary.

    The model and dataset file reads are a parameter (`Reader`), the base
    file's contents and `sys.argv` are arguments, and command-line values
    stay strings. */
module Configuration {
  import opened Outcomes
  import opened Seqs

  /** A configuration value: a raw command-line string, or a value read from
      a JSON file or set by the caller, kept by its representation. */
  datatype Value = Str(text: string) | Json(repr: string)

  type Dict = map<string, Value>

  // ---------------------------------------------------------------------
  // _load_cmd_line
  // ---------------------------------------------------------------------

  /** A token is an option when it starts with `--` and its remainder splits
      on `=` into exactly two parts. */
  predicate Recognized(arg: string) {
    |arg| >= 2 && arg[..2] == "--" && |Split(arg[2..], '=')| == 2
  }

  predicate IsUnrecognized(arg: string) {
    !Recognized(arg)
  }

  function ArgName(arg: string): string
    requires Recognized(arg)
  {
    Split(arg[2..], '=')[0]
  }

  function ArgValue(arg: string): string
    requires Recognized(arg)
  {
    Split(arg[2..], '=')[1]
  }

  /** The recognised tokens are exactly `--name=value` with neither part
      holding `=`; name and value are read back unchanged. */
  lemma RecognizedShape(name: string, value: string)
    requires '=' !in name && '=' !in value
    ensures Recognized("--" + name + "=" + value)
    ensures ArgName("--" + name + "=" + value) == name
    ensures ArgValue("--" + name + "=" + value) == value
  {
    var arg := "--" + name + "=" + value;
    assert arg[2..] == JoinOn([name, value], '=');
    SplitJoin([name, value], '=');
  }

  /** A recognised token is `--` + name + `=` + value, and it holds exactly
      one `=` after the dashes. */
  lemma RecognizedParts(arg: string)
    requires Recognized(arg)
    ensures arg == "--" + ArgName(arg) + "=" + ArgValue(arg)
    ensures multiset(arg[2..])['='] == 1
  {
    var parts := Split(arg[2..], '=');
    JoinSplit(arg[2..], '=');
    SplitCount(arg[2..], '=');
    assert JoinOn(parts, '=') == parts[0] + "=" + parts[1];
    assert arg == arg[..2] + arg[2..];
  }

  /** What the parser collected: the option dictionary and the tokens it
      did not recognise, in order. */
  datatype Parsed = Parsed(cmd: map<string, string>, unrecognized: seq<string>)

  /** The loop over `sys.argv[1:]`: a recognised token sets its name, and a
      name repeated with a different value raises `SyntaxError`. */
  function ParseArgs(args: seq<string>): (r: Result<Parsed>)
    ensures r.Failure? ==> r.error.SyntaxError?
    decreases |args|
  {
    if |args| == 0 then Success(Parsed(map[], []))
    else
      var p :- ParseArgs(args[..|args| - 1]);
      ParseStep(p, args[|args| - 1])
  }

  /** One round of the loop: an unrecognised token is listed, a recognised
      one sets its name, and one that gives a set name a different value is
      rejected. */
  function ParseStep(p: Parsed, arg: string): (r: Result<Parsed>)
    ensures r.Failure? <==> Recognized(arg) && ArgName(arg) in p.cmd && ArgValue(arg) != p.cmd[ArgName(arg)]
    ensures r.Failure? ==> r.error == SyntaxError(arg)
  {
    if !Recognized(arg) then Success(Parsed(p.cmd, p.unrecognized + [arg]))
    else
      var name := ArgName(arg);
      var value := ArgValue(arg);
      if name in p.cmd && value != p.cmd[name] then Failure(SyntaxError(arg))
      else Success(Parsed(p.cmd[name := value], p.unrecognized))
  }

  /** The parse of a list extended at the end is one more round. */
  lemma ParseArgsSnoc(front: seq<string>, arg: string)
    ensures ParseArgs(front + [arg]) ==
      match ParseArgs(front) case Failure(e) => Failure(e) case Success(p) => ParseStep(p, arg)
  {
    assert (front + [arg])[..|front|] == front;
  }

  /** No option name is given two different values. */
  predicate Consistent(args: seq<string>) {
    forall i, j | 0 <= i < j < |args| && Recognized(args[i]) && Recognized(args[j])
                  && ArgName(args[i]) == ArgName(args[j]) :: ArgValue(args[i]) == ArgValue(args[j])
  }

  /** The names the recognised tokens set. */
  function OptionNames(args: seq<string>): set<string> {
    set i | 0 <= i < |args| && Recognized(args[i]) :: ArgName(args[i])
  }

  /** Consistency of a list extended at the end. */
  lemma ConsistentSnoc(front: seq<string>, arg: string)
    ensures Consistent(front + [arg]) <==>
      && Consistent(front)
      && (Recognized(arg) ==>
            forall i | 0 <= i < |front| && Recognized(front[i]) && ArgName(front[i]) == ArgName(arg) ::
              ArgValue(front[i]) == ArgValue(arg))
  {
    var args := front + [arg];
    assert forall i | 0 <= i < |front| :: args[i] == front[i];
    assert args[|front|] == arg;
  }

  /** The parser succeeds exactly when no name is given two values. */
  lemma {:induction false} ParseArgsSucceeds(args: seq<string>)
    ensures ParseArgs(args).Success? <==> Consistent(args)
    decreases |args|
  {
    if |args| > 0 {
      var n := |args| - 1;
      var front := args[..n];
      var arg := args[n];
      ParseArgsSucceeds(front);
      assert args == front + [arg];
      ConsistentSnoc(front, arg);
      ParseArgsSnoc(front, arg);
      if ParseArgs(front).Success? && Recognized(arg) {
        ParseArgsContents(front);
        ClashIffDisagrees(front, ParseArgs(front).value, arg);
      }
    }
  }

  /** Against a dictionary that records the earlier tokens, a recognised
      token clashes exactly when some earlier token gave its name another
      value. */
  lemma ClashIffDisagrees(front: seq<string>, p: Parsed, arg: string)
    requires Recognized(arg)
    requires p.cmd.Keys == OptionNames(front)
    requires forall i | 0 <= i < |front| && Recognized(front[i]) :: p.cmd[ArgName(front[i])] == ArgValue(front[i])
    ensures (ArgName(arg) in p.cmd && ArgValue(arg) != p.cmd[ArgName(arg)]) <==>
      !(forall i | 0 <= i < |front| && Recognized(front[i]) && ArgName(front[i]) == ArgName(arg) ::
          ArgValue(front[i]) == ArgValue(arg))
  {
    var name := ArgName(arg);
    if name in p.cmd {
      var i :| 0 <= i < |front| && Recognized(front[i]) && ArgName(front[i]) == name;
      assert p.cmd[name] == ArgValue(front[i]);
    } else {
      forall i | 0 <= i < |front| && Recognized(front[i])
        ensures ArgName(front[i]) != name
      {
        assert ArgName(front[i]) in OptionNames(front);
      }
    }
  }

  /** On success the dictionary maps every given name to its value and
      holds nothing else. */
  lemma {:induction false} ParseArgsContents(args: seq<string>)
    ensures ParseArgs(args).Success? ==>
      var p := ParseArgs(args).value;
      && p.cmd.Keys == OptionNames(args)
      && (forall i | 0 <= i < |args| && Recognized(args[i]) :: p.cmd[ArgName(args[i])] == ArgValue(args[i]))
    decreases |args|
  {
    if |args| > 0 && ParseArgs(args).Success? {
      var n := |args| - 1;
      var front := args[..n];
      var arg := args[n];
      ParseArgsContents(front);
      assert args == front + [arg];
      ParseArgsSnoc(front, arg);
      OptionNamesSnoc(front, arg);
      var p := ParseArgs(front).value;
      var q := ParseArgs(args).value;
      forall i | 0 <= i < |args| && Recognized(args[i])
        ensures q.cmd[ArgName(args[i])] == ArgValue(args[i])
      {
        if i < n {
          assert args[i] == front[i];
        }
      }
    }
  }

  /** The names set by a list extended at the end. */
  lemma OptionNamesSnoc(front: seq<string>, arg: string)
    ensures OptionNames(front + [arg]) == OptionNames(front) + (if Recognized(arg) then {ArgName(arg)} else {})
  {
    var args := front + [arg];
    assert forall i | 0 <= i < |front| :: args[i] == front[i];
    assert args[|front|] == arg;
  }

  /** On success the unrecognised tokens are listed in their order. */
  lemma {:induction false} ParseArgsUnrecognized(args: seq<string>)
    ensures ParseArgs(args).Success? ==> ParseArgs(args).value.unrecognized == Filter(args, IsUnrecognized)
    decreases |args|
  {
    if |args| > 0 && ParseArgs(args).Success? {
      var n := |args| - 1;
      ParseArgsUnrecognized(args[..n]);
      assert args == args[..n] + [args[n]];
      FilterSnoc(args[..n], args[n], IsUnrecognized);
    }
  }

  /** Repeating an option with the value it already has changes nothing. */
  lemma RepeatSameValue(args: seq<string>, arg: string)
    requires ParseArgs(args).Success? && Recognized(arg)
    requires ArgName(arg) in ParseArgs(args).value.cmd
    requires ParseArgs(args).value.cmd[ArgName(arg)] == ArgValue(arg)
    ensures ParseArgs(args + [arg]) == ParseArgs(args)
  {
    assert (args + [arg])[..|args|] == args;
    var p := ParseArgs(args).value;
    assert p.cmd[ArgName(arg) := ArgValue(arg)] == p.cmd;
  }

  /** The task types this loader family accepts. */
  const TaskTypes: seq<string> := ["single_equation", "multi_equation"]

  /** `_load_cmd_line`: inside a notebook kernel the arguments are ignored;
      otherwise they are parsed. The dictionary must name a supported
      `task_type`. */
  function LoadCmdLine(argv: seq<string>): (r: Result<map<string, string>>)
    requires |argv| > 0
    ensures r.Success? ==> "task_type" in r.value && r.value["task_type"] in TaskTypes
    ensures HasSubstring(argv[0], "ipykernel_launcher") ==> r == Failure(KeyError("task_type"))
    ensures !HasSubstring(argv[0], "ipykernel_launcher") ==>
      match ParseArgs(argv[1..])
      case Failure(e) => r == Failure(e)
      case Success(p) =>
        && ("task_type" !in p.cmd ==> r == Failure(KeyError("task_type")))
        && ("task_type" in p.cmd && p.cmd["task_type"] !in TaskTypes ==>
              r == Failure(NotImplementedError(p.cmd["task_type"])))
        && ("task_type" in p.cmd && p.cmd["task_type"] in TaskTypes ==> r == Success(p.cmd))
  {
    var parsed :- if HasSubstring(argv[0], "ipykernel_launcher") then Success(Parsed(map[], []))
                  else ParseArgs(argv[1..]);
    if "task_type" !in parsed.cmd then Failure(KeyError("task_type"))
    else if parsed.cmd["task_type"] !in TaskTypes then Failure(NotImplementedError(parsed.cmd["task_type"]))
    else Success(parsed.cmd)
  }

  // ---------------------------------------------------------------------
  // _build_path_config
  // ---------------------------------------------------------------------

  /** The path keys, in the order the table is filled. */
  const PathKeys: seq<string> :=
    ["checkpoint_path", "trained_model_path", "log_path", "model_config_path", "dataset_config_path", "dataset_path"]

  const ModelConfigDir: string := "mwptoolkit/properties/model/"
  const DatasetConfigDir: string := "mwptoolkit/properties/dataset/"

  /** The derived paths of a model and a dataset. */
  function DefaultPaths(model: string, dataset: string): (r: map<string, string>)
    ensures r.Keys == Elements(PathKeys)
    ensures forall k | k in PathKeys :: k in r
  {
    map[
      "checkpoint_path" := "checkpoint/" + model + "-" + dataset + ".pth",
      "trained_model_path" := "trained_model/" + model + "-" + dataset + ".pth",
      "log_path" := "log/" + model + "-" + dataset + ".log",
      "model_config_path" := ModelConfigDir + model + ".json",
      "dataset_config_path" := DatasetConfigDir + dataset + ".json",
      "dataset_path" := "dataset/" + dataset]
  }

  /** The model and dataset names can be read back from the derived paths,
      so distinct pairs never share a path table. */
  lemma DefaultPathsRecoverNames(model: string, dataset: string)
    ensures var r := DefaultPaths(model, dataset);
      && r["model_config_path"][|ModelConfigDir|..|r["model_config_path"]| - 5] == model
      && r["dataset_path"][8..] == dataset
      && r["checkpoint_path"] == "checkpoint/" + model + "-" + dataset + ".pth"
      && r["log_path"][4..|r["log_path"]| - 4] == model + "-" + dataset
  {
  }

  lemma DefaultPathsInjective(m1: string, d1: string, m2: string, d2: string)
    requires DefaultPaths(m1, d1) == DefaultPaths(m2, d2)
    ensures m1 == m2 && d1 == d2
  {
    DefaultPathsRecoverNames(m1, d1);
    DefaultPathsRecoverNames(m2, d2);
  }

  /** The path table with each path a command-line option names replaced by
      the option's value: what the override loop is evidently for. */
  function PathConfig(cmd: map<string, string>): (r: Result<map<string, string>>)
    ensures r.Failure? <==> "model" !in cmd || "dataset" !in cmd
    ensures r.Failure? ==> r.error == KeyError(if "model" !in cmd then "model" else "dataset")
    ensures r.Success? ==>
      && r.value.Keys == Elements(PathKeys)
      && forall k | k in PathKeys ::
           k in r.value && r.value[k] == if k in cmd then cmd[k] else DefaultPaths(cmd["model"], cmd["dataset"])[k]
  {
    if "model" !in cmd then Failure(KeyError("model"))
    else if "dataset" !in cmd then Failure(KeyError("dataset"))
    else
      var defaults := DefaultPaths(cmd["model"], cmd["dataset"]);
      Success(map k | k in defaults :: if k in cmd then cmd[k] else defaults[k])
  }

  /** What `self.path_config_dict` ends up holding as written: the table, or
      a bare command-line string once the loop has assigned one. */
  datatype PathSetting = Table(paths: map<string, string>) | Raw(text: string)

  /** The override loop as written: each path key found among the options
      REPLACES the whole setting with that option's string. */
  function OverrideAsWritten(current: PathSetting, keys: seq<string>, cmd: map<string, string>): PathSetting
    decreases |keys|
  {
    if |keys| == 0 then current
    else OverrideAsWritten(if keys[0] in cmd then Raw(cmd[keys[0]]) else current, keys[1..], cmd)
  }

  /** `_build_path_config` as written: the derived table survives only when
      no path key is among the options; otherwise the setting is the bare
      string of one of them. */
  function PathConfigAsWritten(cmd: map<string, string>): (r: Result<PathSetting>)
    ensures r.Failure? <==> "model" !in cmd || "dataset" !in cmd
    ensures r.Failure? ==> r.error == KeyError(if "model" !in cmd then "model" else "dataset")
    ensures r.Success? ==> (r.value.Table? <==> forall k | k in PathKeys :: k !in cmd)
    ensures r.Success? && r.value.Table? ==> r.value.paths == DefaultPaths(cmd["model"], cmd["dataset"])
    ensures r.Success? && r.value.Raw? ==> exists k | k in PathKeys :: k in cmd && r.value.text == cmd[k]
  {
    if "model" !in cmd then Failure(KeyError("model"))
    else if "dataset" !in cmd then Failure(KeyError("dataset"))
    else
      var start := Table(DefaultPaths(cmd["model"], cmd["dataset"]));
      OverrideAsWrittenSpec(start, PathKeys, cmd);
      Success(OverrideAsWritten(start, PathKeys, cmd))
  }

  /** Away from the defect the two readings agree: with no path key among
      the options, the loop as written keeps the derived table, which is the
      intended table, and both fail alike on a missing model or dataset. */
  lemma AsWrittenAgreesWithoutOverride(cmd: map<string, string>)
    requires forall k | k in PathKeys :: k !in cmd
    ensures PathConfigAsWritten(cmd) ==
      match PathConfig(cmd) case Success(paths) => Success(Table(paths)) case Failure(e) => Failure(e)
  {
    if "model" in cmd && "dataset" in cmd {
      var defaults := DefaultPaths(cmd["model"], cmd["dataset"]);
      var paths := PathConfig(cmd).value;
      assert PathConfigAsWritten(cmd) == Success(Table(defaults));
      SameTable(paths, defaults);
    }
  }

  /** The last of `keys` that the options name. */
  function LastOverride(keys: seq<string>, cmd: map<string, string>): (r: Option<string>)
    ensures r.Some? ==> r.value in keys && r.value in cmd
    ensures r.None? ==> forall k | k in keys :: k !in cmd
    decreases |keys|
  {
    if |keys| == 0 then None
    else if keys[|keys| - 1] in cmd then Some(keys[|keys| - 1])
    else LastOverride(keys[..|keys| - 1], cmd)
  }

  /** As written, the loop keeps the table only when no path is overridden;
      otherwise the setting becomes the string of the last overridden path
      key, and the table is lost. */
  lemma {:induction false} OverrideAsWrittenSpec(current: PathSetting, keys: seq<string>, cmd: map<string, string>)
    ensures OverrideAsWritten(current, keys, cmd) ==
      match LastOverride(keys, cmd) case None => current case Some(k) => Raw(cmd[k])
    decreases |keys|
  {
    if |keys| > 0 {
      var next := if keys[0] in cmd then Raw(cmd[keys[0]]) else current;
      OverrideAsWrittenSpec(next, keys[1..], cmd);
      LastOverrideCons(keys, cmd);
    }
  }

  /** Two tables over the path keys that agree on every path key are equal. */
  lemma SameTable(a: map<string, string>, b: map<string, string>)
    requires a.Keys == Elements(PathKeys) && b.Keys == Elements(PathKeys)
    requires forall k | k in PathKeys :: k in a && k in b && a[k] == b[k]
    ensures a == b
  {
  }

  /** `LastOverride` seen from the front of the list. */
  lemma {:induction false} LastOverrideCons(keys: seq<string>, cmd: map<string, string>)
    requires |keys| > 0
    ensures LastOverride(keys, cmd) ==
      match LastOverride(keys[1..], cmd)
      case Some(k) => Some(k)
      case None => if keys[0] in cmd then Some(keys[0]) else None
    decreases |keys|
  {
    if |keys| > 1 {
      var n := |keys| - 1;
      if keys[n] !in cmd {
        LastOverrideCons(keys[..n], cmd);
        assert keys[..n][1..] == keys[1..][..n - 1];
      }
    }
  }

  /** `dict.update` with what the path setting holds. A string is a
      sequence of one-character elements, which `update` rejects with
      `ValueError` unless the string is empty. */
  function UpdateAsWritten(d: Dict, setting: PathSetting): (r: Result<Dict>)
    ensures setting.Table? ==> r.Success?
    ensures setting.Raw? ==> (r.Success? <==> setting.text == "")
  {
    match setting
    case Table(paths) => Success(d + map k | k in paths :: Str(paths[k]))
    case Raw(text) =>
      if text == "" then Success(d)
      else Failure(ValueError("dictionary update sequence element #0 has length 1; 2 is required"))
  }

  /** The options of the counterexample: a single path override. */
  function LogPathOverride(): map<string, string> {
    map["task_type" := "multi_equation", "model" := "M", "dataset" := "D", "log_path" := "x"]
  }

  /** One option `--log_path=x` is enough: as written the path table is
      replaced by the string "x", and merging that string fails. */
  lemma PathOverrideAsWritten()
    ensures PathConfigAsWritten(LogPathOverride()) == Success(Raw("x"))
    ensures UpdateAsWritten(map[], Raw("x")).Failure?
  {
    var cmd := LogPathOverride();
    assert "model" in cmd && "dataset" in cmd && cmd["log_path"] == "x";
    assert |"task_type"| == 9 && |"model"| == 5 && |"dataset"| == 7 && |"log_path"| == 8;
    assert |"dataset_path"| == 12 && |"dataset_config_path"| == 19 && |"model_config_path"| == 17;
    LogPathIsLastOverride(cmd);
    LastOverrideReplacesTable(cmd, "log_path");
  }

  /** As written, the setting ends as the string of the last overridden
      path key. */
  lemma LastOverrideReplacesTable(cmd: map<string, string>, k: string)
    requires "model" in cmd && "dataset" in cmd
    requires LastOverride(PathKeys, cmd) == Some(k)
    ensures PathConfigAsWritten(cmd) == Success(Raw(cmd[k]))
  {
    OverrideAsWrittenSpec(Table(DefaultPaths(cmd["model"], cmd["dataset"])), PathKeys, cmd);
  }

  /** When `log_path` is the only one of the later path keys given, it is
      the last override. */
  lemma LogPathIsLastOverride(cmd: map<string, string>)
    requires "log_path" in cmd
    requires "model_config_path" !in cmd && "dataset_config_path" !in cmd && "dataset_path" !in cmd
    ensures LastOverride(PathKeys, cmd) == Some("log_path")
  {
    var k3 := ["checkpoint_path", "trained_model_path", "log_path"];
    var k4 := k3 + ["model_config_path"];
    var k5 := k4 + ["dataset_config_path"];
    assert PathKeys == k5 + ["dataset_path"];
    LastOverrideSkip(k5 + ["dataset_path"], cmd);
    LastOverrideSkip(k4 + ["dataset_config_path"], cmd);
    LastOverrideSkip(k3 + ["model_config_path"], cmd);
  }

  /** A last key that is not given does not change the last override. */
  lemma LastOverrideSkip(keys: seq<string>, cmd: map<string, string>)
    requires |keys| > 0 && keys[|keys| - 1] !in cmd
    ensures LastOverride(keys, cmd) == LastOverride(keys[..|keys| - 1], cmd)
  {
  }

  /** With the same option the intended table keeps every derived path and
      overrides only the log path. */
  lemma PathOverrideIntended()
    ensures PathConfig(LogPathOverride()).Success?
    ensures PathConfig(LogPathOverride()).value["log_path"] == "x"
    ensures PathConfig(LogPathOverride()).value["model_config_path"] == DefaultPaths("M", "D")["model_config_path"]
  {
    var cmd := LogPathOverride();
    assert "model" in cmd && "dataset" in cmd && "log_path" in cmd;
    assert PathKeys[2] == "log_path" && PathKeys[3] == "model_config_path";
    var r := PathConfig(cmd).value;
    assert r["log_path"] == cmd["log_path"];
    assert "model_config_path" !in cmd by {
      assert |"model_config_path"| == 17;
      assert |"task_type"| == 9 && |"model"| == 5 && |"dataset"| == 7 && |"log_path"| == 8;
    }
    assert r["model_config_path"] == DefaultPaths("M", "D")["model_config_path"];
  }

  // ---------------------------------------------------------------------
  // _merge_external_config_dict
  // ---------------------------------------------------------------------

  /** `dict.update` applied layer after layer: later layers win. */
  function MergeLayers(layers: seq<Dict>): (r: Dict)
    ensures forall i | 0 <= i < |layers| :: layers[i].Keys <= r.Keys
    ensures |layers| > 0 ==> forall k | k in layers[|layers| - 1] :: r[k] == layers[|layers| - 1][k]
    decreases |layers|
  {
    if |layers| == 0 then map[] else MergeLayers(layers[..|layers| - 1]) + layers[|layers| - 1]
  }

  /** The last layer that defines `k`. */
  function TopLayerWith(layers: seq<Dict>, k: string): (r: Option<nat>)
    ensures r.Some? ==> r.value < |layers| && k in layers[r.value]
    ensures r.Some? ==> forall i | r.value < i < |layers| :: k !in layers[i]
    ensures r.None? ==> forall i | 0 <= i < |layers| :: k !in layers[i]
    decreases |layers|
  {
    if |layers| == 0 then None
    else if k in layers[|layers| - 1] then Some(|layers| - 1)
    else TopLayerWith(layers[..|layers| - 1], k)
  }

  /** A merged key comes from the highest layer defining it; a key no layer
      defines is absent. */
  lemma {:induction false} MergeLayersSpec(layers: seq<Dict>, k: string)
    ensures k in MergeLayers(layers) <==> TopLayerWith(layers, k).Some?
    ensures k in MergeLayers(layers) ==> MergeLayers(layers)[k] == layers[TopLayerWith(layers, k).value][k]
    decreases |layers|
  {
    if |layers| > 0 {
      var n := |layers| - 1;
      MergeLayersSpec(layers[..n], k);
      if k !in layers[n] {
        var t := TopLayerWith(layers[..n], k);
        if t.Some? {
          assert layers[..n][t.value] == layers[t.value];
        }
      }
    }
  }

  /** The command-line and path layers hold strings. */
  function StrLayer(m: map<string, string>): (r: Dict)
    ensures r.Keys == m.Keys
    ensures forall k | k in r :: r[k] == Str(m[k])
  {
    map k | k in m :: Str(m[k])
  }

  /** The six layers, lowest priority first. */
  datatype Layers = Layers(file: Dict, variable: Dict, path: Dict, dataset: Dict, model: Dict, cmd: Dict)

  /** The merged external dictionary: it holds every key of every layer, and
      a command-line option always wins. */
  function External(l: Layers): (r: Dict)
    ensures l.file.Keys + l.variable.Keys + l.path.Keys + l.dataset.Keys + l.model.Keys + l.cmd.Keys <= r.Keys
    ensures forall k | k in l.cmd :: r[k] == l.cmd[k]
  {
    var layers := [l.file, l.variable, l.path, l.dataset, l.model, l.cmd];
    var r := MergeLayers(layers);
    assert layers[0].Keys + layers[1].Keys + layers[2].Keys <= r.Keys;
    assert layers[3].Keys + layers[4].Keys + layers[5].Keys <= r.Keys;
    r
  }

  /** Precedence: command line, then model file, then dataset file, then
      paths, then variables, then the base file. */
  lemma ExternalPrecedence(l: Layers, k: string)
    ensures k in External(l) <==>
      k in l.cmd || k in l.model || k in l.dataset || k in l.path || k in l.variable || k in l.file
    ensures k in External(l) ==> (External(l)[k] ==
      if k in l.cmd then l.cmd[k]
      else if k in l.model then l.model[k]
      else if k in l.dataset then l.dataset[k]
      else if k in l.path then l.path[k]
      else if k in l.variable then l.variable[k]
      else l.file[k])
  {
    ExternalIsUpdates(l);
    var m2 := l.file + l.variable;
    var m3 := m2 + l.path;
    var m4 := m3 + l.dataset;
    var m5 := m4 + l.model;
    UpdateKey(l.file, l.variable, k);
    UpdateKey(m2, l.path, k);
    UpdateKey(m3, l.dataset, k);
    UpdateKey(m4, l.model, k);
    UpdateKey(m5, l.cmd, k);
  }

  /** The merge of the six layers is five updates of the base file. */
  lemma ExternalIsUpdates(l: Layers)
    ensures External(l) == l.file + l.variable + l.path + l.dataset + l.model + l.cmd
  {
    var l1 := [l.file];
    var l2 := l1 + [l.variable];
    var l3 := l2 + [l.path];
    var l4 := l3 + [l.dataset];
    var l5 := l4 + [l.model];
    assert l5 + [l.cmd] == [l.file, l.variable, l.path, l.dataset, l.model, l.cmd];
    MergeSnoc([], l.file);
    assert [] + [l.file] == l1;
    assert map[] + l.file == l.file;
    MergeSnoc(l1, l.variable);
    MergeSnoc(l2, l.path);
    MergeSnoc(l3, l.dataset);
    MergeSnoc(l4, l.model);
    MergeSnoc(l5, l.cmd);
  }

  /** Merging one more layer is one more update. */
  lemma MergeSnoc(ls: seq<Dict>, d: Dict)
    ensures MergeLayers(ls + [d]) == MergeLayers(ls) + d
  {
    assert (ls + [d])[..|ls|] == ls;
  }

  /** One `dict.update`: the key is present if either side has it, and the
      right side wins. */
  lemma UpdateKey(a: Dict, b: Dict, k: string)
    ensures k in a + b <==> k in a || k in b
    ensures k in a + b ==> (a + b)[k] == if k in b then b[k] else a[k]
  {
  }

  // ---------------------------------------------------------------------
  // Config construction and item access
  // ---------------------------------------------------------------------

  /** The JSON reads of the model and dataset files: None when the read
      fails, and the guarded loaders (configuration.py:107-117) then use an
      empty layer. */
  type Reader = string -> Option<Dict>

  function ReadLayer(path: string, read: Reader): Dict {
    match read(path) case Some(d) => d case None => map[]
  }

  /** The final configuration dictionary. */
  datatype Config = Config(final: Dict)

  /** The construction sequence of `Config()` with the path table as
      intended: base file, command line, paths, model and dataset files read
      from the derived paths, merge. The variable layer is empty here. The
      base file's read (configuration.py:28) is unguarded and raises when it
      fails; its contents are the `fileLayer` argument, so that failure lies
      outside this function. */
  function BuildConfig(fileLayer: Dict, argv: seq<string>, read: Reader): (r: Result<Config>)
    requires |argv| > 0
    ensures r.Success? <==>
      LoadCmdLine(argv).Success? && "model" in LoadCmdLine(argv).value && "dataset" in LoadCmdLine(argv).value
  {
    var cmd :- LoadCmdLine(argv);
    var paths :- PathConfig(cmd);
    Success(Config(External(ConfigLayers(fileLayer, cmd, paths, read))))
  }

  /** The layers `Config()` merges: the variable layer is empty, and the
      model and dataset layers are read from the derived paths. */
  function ConfigLayers(fileLayer: Dict, cmd: map<string, string>, paths: map<string, string>, read: Reader): Layers
    requires "dataset_config_path" in paths && "model_config_path" in paths
  {
    Layers(
      fileLayer,
      map[],
      StrLayer(paths),
      ReadLayer(paths["dataset_config_path"], read),
      ReadLayer(paths["model_config_path"], read),
      StrLayer(cmd))
  }

  /** Every command-line option reaches the final dictionary unchanged, and
      every path key is present. A derived path can still be overridden by
      the model or dataset file, which rank above the path layer. */
  lemma ConfigLayersPrecedence(fileLayer: Dict, cmd: map<string, string>, read: Reader, k: string)
    requires PathConfig(cmd).Success?
    ensures var final := External(ConfigLayers(fileLayer, cmd, PathConfig(cmd).value, read));
      && (k in cmd ==> k in final && final[k] == Str(cmd[k]))
      && (k in PathKeys ==> k in final)
  {
    var paths := PathConfig(cmd).value;
    var layers := ConfigLayers(fileLayer, cmd, paths, read);
    ExternalPrecedence(layers, k);
    if k in PathKeys {
      assert k in layers.path;
    }
  }

  /** What `Config()` ends up holding: the merge of its layers. */
  lemma BuildConfigContents(fileLayer: Dict, argv: seq<string>, read: Reader, k: string)
    requires |argv| > 0 && BuildConfig(fileLayer, argv, read).Success?
    ensures var cmd := LoadCmdLine(argv).value;
      var final := BuildConfig(fileLayer, argv, read).value.final;
      && (k in cmd ==> k in final && final[k] == Str(cmd[k]))
      && (k in PathKeys ==> k in final)
  {
    var cmd := LoadCmdLine(argv).value;
    ConfigLayersPrecedence(fileLayer, cmd, read, k);
  }

  /** A key of any Python type. Only strings are accepted by `__setitem__`,
      and an unhashable key makes the membership test raise. */
  datatype Key = StrKey(name: string) | OtherKey(repr: string, hashable: bool)

  /** `config[item]`: the stored value, or None when absent. */
  function GetItem(c: Config, item: Key): (r: Result<Option<Value>>)
    ensures r.Failure? <==> item.OtherKey? && !item.hashable
    ensures r.Success? ==> (r.value.Some? <==> item.StrKey? && item.name in c.final)
  {
    match item
    case StrKey(name) => Success(if name in c.final then Some(c.final[name]) else None)
    case OtherKey(_, hashable) => if hashable then Success(None) else Failure(TypeError)
  }

  /** `config[key] = value`: only string keys are accepted. */
  function SetItem(c: Config, key: Key, value: Value): (r: Result<Config>)
    ensures r.Failure? <==> key.OtherKey?
    ensures r.Failure? ==> r.error == TypeError
  {
    match key
    case StrKey(name) => Success(Config(c.final[name := value]))
    case OtherKey(_, _) => Failure(TypeError)
  }

  /** Reading a key back after setting it gives the value set, and every
      other key reads as before. */
  lemma GetAfterSet(c: Config, key: Key, value: Value, other: Key)
    requires key.StrKey? && other != key
    ensures GetItem(SetItem(c, key, value).value, key) == Success(Some(value))
    ensures GetItem(SetItem(c, key, value).value, other) == GetItem(c, other)
  {
  }
}
