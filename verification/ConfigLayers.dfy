/** Configuration layers in increasing precedence, the environment last: the value of every option
    and the layer it is said to come from. */
module ConfigLayers {
  import opened Options
  import opened ConfigTree

  datatype Layer<V> = Layer(name: string, values: Tree<V>)

  datatype Source = UserConfig | File | EnvVar(name: string)

  /** An environment variable that is set, and the option it sets. */
  datatype EnvValue<V> = EnvValue(path: seq<string>, name: string, value: V)

  function SourceName<V>(layer: Layer<V>): Source {
    if layer.name == "user" then UserConfig else File
  }

  ghost predicate AreDicts<V>(layers: seq<Layer<V>>) {
    forall i :: 0 <= i < |layers| ==> layers[i].values.Branch?
  }

  ghost predicate HavePaths<V>(env: seq<EnvValue<V>>) {
    forall i :: 0 <= i < |env| ==> env[i].path != []
  }

  // ----- Values

  function Folded<V>(layers: seq<Layer<V>>): (values: Tree<V>)
    requires AreDicts(layers)
    ensures values.Branch?
  {
    if layers == [] then Branch(map[]) else Merge(Folded(layers[..|layers| - 1]), layers[|layers| - 1].values)
  }

  /** `_env_alias_overrides` */
  function EnvValues<V>(env: seq<EnvValue<V>>): (values: Tree<V>)
    requires HavePaths(env)
    ensures values.Branch?
  {
    if env == [] then Branch(map[])
    else Assign(EnvValues(env[..|env| - 1]), env[|env| - 1].path, env[|env| - 1].value)
  }

  /** The layer of highest precedence that says something about a path. */
  function LastDeciding<V>(layers: seq<Layer<V>>, path: seq<string>): Option<nat> {
    if layers == [] then None
    else if Decides(layers[|layers| - 1].values, path) then Some(|layers| - 1)
    else LastDeciding(layers[..|layers| - 1], path)
  }

  lemma {:induction false} LastDecidingIs<V>(layers: seq<Layer<V>>, path: seq<string>)
    ensures
      match LastDeciding(layers, path)
      case None => forall i :: 0 <= i < |layers| ==> !Decides(layers[i].values, path)
      case Some(at) =>
        && at < |layers| && Decides(layers[at].values, path)
        && (forall i :: at < i < |layers| ==> !Decides(layers[i].values, path))
  {
    hide Decides;
    if layers != [] && !Decides(layers[|layers| - 1].values, path) {
      LastDecidingIs(layers[..|layers| - 1], path);
    }
  }

  /** Any layers at all: the leaf at a path is that of the last layer that decides it. */
  lemma {:induction false} LeafOfLayers<V>(layers: seq<Layer<V>>, path: seq<string>)
    requires AreDicts(layers) && path != []
    ensures
      match LastDeciding(layers, path)
      case None => LeafAt(Folded(layers), path) == None
      case Some(at) => at < |layers| && LeafAt(Folded(layers), path) == LeafAt(layers[at].values, path)
  {
    LastDecidingIs(layers, path);
    hide Decides, LeafAt;
    if layers == [] {
      NothingInEmpty<V>(path);
    } else {
      LeafOfLayers(layers[..|layers| - 1], path);
      LastDecidingIs(layers[..|layers| - 1], path);
      LeafOfMerge(Folded(layers[..|layers| - 1]), layers[|layers| - 1].values, path);
    }
  }

  lemma {:induction false} NothingInEmpty<V>(path: seq<string>)
    ensures path != [] ==> LeafAt<V>(Branch(map[]), path) == None && !Decides<V>(Branch(map[]), path)
  {
  }

  /** On layers of compatible shapes it is that of the last layer that has a leaf there. */
  lemma {:induction false} LeafOfCompatibleLayers<V>(layers: seq<Layer<V>>, path: seq<string>, last: nat)
    requires AreDicts(layers) && path != []
    requires forall i, j :: 0 <= i < j < |layers| ==> Compatible(layers[i].values, layers[j].values)
    requires last < |layers| && LeafAt(layers[last].values, path).Some?
    requires forall i :: last < i < |layers| ==> LeafAt(layers[i].values, path) == None
    ensures LeafAt(Folded(layers), path) == LeafAt(layers[last].values, path)
  {
    LeafOfLayers(layers, path);
    LastDecidingIs(layers, path);
    UndecidedIsAbsent(layers[last].values, path);
    hide Decides, LeafAt, Compatible, Folded;
    var at := LastDeciding(layers, path).value;
    if last < at {
      CompatibleDecides(layers[last].values, layers[at].values, path);
    }
  }

  // ----- Sources

  function LastPresent<V>(layers: seq<Layer<V>>, path: seq<string>): Option<nat> {
    if layers == [] then None
    else if Find(layers[|layers| - 1].values, path).Some? then Some(|layers| - 1)
    else LastPresent(layers[..|layers| - 1], path)
  }

  function LastEnv<V>(env: seq<EnvValue<V>>, path: seq<string>): Option<nat> {
    if env == [] then None
    else if env[|env| - 1].path == path then Some(|env| - 1)
    else LastEnv(env[..|env| - 1], path)
  }

  lemma {:induction false} LastPresentIs<V>(layers: seq<Layer<V>>, path: seq<string>)
    ensures
      match LastPresent(layers, path)
      case None => forall i :: 0 <= i < |layers| ==> Find(layers[i].values, path) == None
      case Some(at) =>
        && at < |layers| && Find(layers[at].values, path).Some?
        && (forall i :: at < i < |layers| ==> Find(layers[i].values, path) == None)
  {
    hide Find;
    if layers != [] && Find(layers[|layers| - 1].values, path) == None {
      LastPresentIs(layers[..|layers| - 1], path);
    }
  }

  lemma {:induction false} LastEnvIs<V>(env: seq<EnvValue<V>>, path: seq<string>)
    ensures
      match LastEnv(env, path)
      case None => forall i :: 0 <= i < |env| ==> env[i].path != path
      case Some(at) => at < |env| && env[at].path == path && forall i :: at < i < |env| ==> env[i].path != path
  {
    if env != [] && env[|env| - 1].path != path {
      LastEnvIs(env[..|env| - 1], path);
    }
  }

  /** The source recorded for an option: its last environment variable, else the last layer with
      something at its path. */
  function SourceOf<V>(layers: seq<Layer<V>>, env: seq<EnvValue<V>>, path: seq<string>): Option<Source> {
    LastEnvIs(env, path);
    LastPresentIs(layers, path);
    match LastEnv(env, path)
    case Some(at) => Some(EnvVar(env[at].name))
    case None =>
      match LastPresent(layers, path)
      case Some(at) => Some(SourceName(layers[at]))
      case None => None
  }

  // ----- The environment

  lemma {:induction false} AssignDecides<V>(t: Tree<V>, at: seq<string>, value: V, path: seq<string>)
    requires at != [] && t.Branch? && Decides(Assign(t, at, value), path)
    ensures Decides(t, path) || !Apart(at, path)
    decreases |at|
  {
    if path != [] && at[0] == path[0] && Apart(at, path) {
      ApartBelow(at, path);
      var nested := if at[0] in t.fields && t.fields[at[0]].Branch? then t.fields[at[0]] else Branch(map[]);
      AssignDecides(nested, at[1..], value, path[1..]);
      NothingInEmpty<V>(path[1..]);
    }
  }

  /** No option's path leads through another's. */
  ghost predicate PrefixFree(paths: seq<seq<string>>) {
    && (forall i :: 0 <= i < |paths| ==> paths[i] != [])
    && (forall i, j :: 0 <= i < |paths| && 0 <= j < |paths| && paths[i] != paths[j] ==> Apart(paths[i], paths[j]))
  }

  ghost predicate SetOptions<V>(env: seq<EnvValue<V>>, paths: seq<seq<string>>) {
    forall i :: 0 <= i < |env| ==> env[i].path in paths
  }

  lemma {:induction false} LeafOfEnv<V>(env: seq<EnvValue<V>>, paths: seq<seq<string>>, path: seq<string>)
    requires PrefixFree(paths) && SetOptions(env, paths) && path in paths && HavePaths(env)
    ensures
      match LastEnv(env, path)
      case None => !Decides(EnvValues(env), path)
      case Some(at) => at < |env| && LeafAt(EnvValues(env), path) == Some(env[at].value) && Decides(EnvValues(env), path)
  {
    hide Decides, LeafAt, Apart;
    LastEnvIs(env, path);
    if env == [] {
      NothingInEmpty<V>(path);
    } else {
      var rest, last := env[..|env| - 1], env[|env| - 1];
      LeafOfEnv(rest, paths, path);
      if last.path == path {
        AssignSets(EnvValues(rest), path, last.value);
        LeafDecides(EnvValues(env), path);
      } else {
        AssignKeeps(EnvValues(rest), last.path, last.value, path);
        KeepsDeciding(EnvValues(rest), last.path, last.value, path);
      }
    }
  }

  lemma {:induction false} LeafDecides<V>(t: Tree<V>, path: seq<string>)
    ensures LeafAt(t, path).Some? ==> Decides(t, path)
  {
    UndecidedIsAbsent(t, path);
  }

  lemma {:induction false} KeepsDeciding<V>(t: Tree<V>, at: seq<string>, value: V, path: seq<string>)
    requires at != [] && t.Branch? && Apart(at, path) && (Decides(t, path) ==> LeafAt(t, path).Some?)
    ensures Decides(Assign(t, at, value), path) <==> Decides(t, path)
  {
    hide Decides, LeafAt;
    AssignKeeps(t, at, value, path);
    LeafDecides(Assign(t, at, value), path);
    if Decides(Assign(t, at, value), path) {
      AssignDecides(t, at, value, path);
    }
  }

  // ----- Loading

  function Loaded<V>(layers: seq<Layer<V>>, env: seq<EnvValue<V>>): Tree<V>
    requires AreDicts(layers) && HavePaths(env)
  {
    Merge(Folded(layers), EnvValues(env))
  }

  /** Provenance is right: wherever an option has a value, it is the value of the source recorded for it,
      and no source of higher precedence says anything about the option. */
  lemma {:induction false} SourceGivesValue<V>(layers: seq<Layer<V>>, env: seq<EnvValue<V>>, paths: seq<seq<string>>, path: seq<string>)
    requires AreDicts(layers) && PrefixFree(paths) && SetOptions(env, paths) && path in paths && HavePaths(env)
    requires LeafAt(Loaded(layers, env), path).Some?
    ensures
      match LastEnv(env, path)
      case Some(at) =>
        && at < |env| && SourceOf(layers, env, path) == Some(EnvVar(env[at].name))
        && LeafAt(Loaded(layers, env), path) == Some(env[at].value)
      case None =>
        exists i :: 0 <= i < |layers|
          && SourceOf(layers, env, path) == Some(if layers[i].name == "user" then UserConfig else File)
          && LeafAt(Loaded(layers, env), path) == LeafAt(layers[i].values, path)
          && forall j :: i < j < |layers| ==> !Decides(layers[j].values, path)
  {
    LeafOfEnv(env, paths, path);
    LeafOfMerge(Folded(layers), EnvValues(env), path);
    LastEnvIs(env, path);
    if LastEnv(env, path) == None {
      LeafOfLayers(layers, path);
      LastDecidingIs(layers, path);
      LastPresentIs(layers, path);
      var at := LastDeciding(layers, path).value;
      assert Find(layers[at].values, path).Some?;
      var present := LastPresent(layers, path).value;
      UndecidedIsAbsent(layers[present].values, path);
      hide Decides, LeafAt, Find;
      assert present == at;
    }
  }

  /** The layer loop of `load_config_with_sources`. */
  method LoadConfig<V>(paths: seq<seq<string>>, layers: seq<Layer<V>>, env: seq<EnvValue<V>>)
    returns (values: Tree<V>, sources: map<seq<string>, Source>)
    requires AreDicts(layers) && HavePaths(env) && SetOptions(env, paths)
    ensures values == Loaded(layers, env)
    ensures forall path :: path in sources <==> path in paths && SourceOf(layers, env, path).Some?
    ensures forall path :: path in sources ==> sources[path] == SourceOf(layers, env, path).value
  {
    hide Find, LeafAt, Decides, Merge, Assign;
    values, sources := Branch(map[]), map[];
    for i := 0 to |layers|
      invariant values == Folded(layers[..i])
      invariant SourcesAre(sources, paths, layers[..i], [])
    {
      assert layers[..i + 1][..i] == layers[..i] && layers[..i + 1][i] == layers[i];
      values := MergeDicts(values, layers[i].values);
      sources := RecordLayer(paths, layers, i, sources);
    }
    assert layers[..|layers|] == layers;
    var envValues := Branch(map[]);
    for i := 0 to |env|
      invariant envValues == EnvValues(env[..i])
      invariant SourcesAre(sources, paths, layers, env[..i])
    {
      assert env[..i + 1][..i] == env[..i] && env[..i + 1][i] == env[i];
      envValues := Assign(envValues, env[i].path, env[i].value);
      EnvEntryRecords(paths, layers, env, i, sources);
      sources := sources[env[i].path := EnvVar(env[i].name)];
    }
    assert env[..|env|] == env;
    values := MergeDicts(values, envValues);
  }

  ghost predicate SourcesAre<V>(sources: map<seq<string>, Source>, paths: seq<seq<string>>, layers: seq<Layer<V>>, env: seq<EnvValue<V>>) {
    && (forall path :: path in sources <==> path in paths && SourceOf(layers, env, path).Some?)
    && (forall path :: path in sources ==> sources[path] == SourceOf(layers, env, path).value)
  }

  lemma EnvEntryRecords<V>(paths: seq<seq<string>>, layers: seq<Layer<V>>, env: seq<EnvValue<V>>, i: nat, sources: map<seq<string>, Source>)
    requires i < |env| && SetOptions(env, paths) && SourcesAre(sources, paths, layers, env[..i])
    ensures SourcesAre(sources[env[i].path := EnvVar(env[i].name)], paths, layers, env[..i + 1])
  {
    hide Find, LastPresent;
    var more := env[..i + 1];
    assert more[..i] == env[..i] && more[i] == env[i] && more[|more| - 1] == env[i];
    forall path | path in paths
      ensures SourceOf(layers, more, path) == if path == env[i].path then Some(EnvVar(env[i].name)) else SourceOf(layers, env[..i], path)
    {
      LastEnvIs(env[..i], path);
    }
  }

  /** `_record_layer_sources` over the options. */
  method RecordLayer<V>(paths: seq<seq<string>>, layers: seq<Layer<V>>, at: nat, before: map<seq<string>, Source>)
    returns (sources: map<seq<string>, Source>)
    requires at < |layers| && SourcesAre(before, paths, layers[..at], [])
    ensures SourcesAre(sources, paths, layers[..at + 1], [])
  {
    hide Find;
    sources := before;
    assert layers[..at + 1][..at] == layers[..at] && layers[..at + 1][at] == layers[at];
    for i := 0 to |paths|
      invariant
        forall path ::
          path in sources <==>
          path in before || (path in paths[..i] && Find(layers[at].values, path).Some?)
      invariant
        forall path :: path in sources ==>
          sources[path]
          == if path in paths[..i] && Find(layers[at].values, path).Some? then SourceName(layers[at])
             else if path in before then before[path] else File
    {
      if Find(layers[at].values, paths[i]).Some? {
        sources := sources[paths[i] := SourceName(layers[at])];
      }
    }
    LayerRecords(paths, layers, at, before, sources);
  }

  lemma LayerRecords<V>(paths: seq<seq<string>>, layers: seq<Layer<V>>, at: nat, before: map<seq<string>, Source>,
                        sources: map<seq<string>, Source>)
    requires at < |layers| && SourcesAre(before, paths, layers[..at], [])
    requires forall path :: path in sources <==> path in before || (path in paths && Find(layers[at].values, path).Some?)
    requires forall path :: path in sources ==>
      sources[path]
      == if path in paths && Find(layers[at].values, path).Some? then SourceName(layers[at])
         else if path in before then before[path] else File
    ensures SourcesAre(sources, paths, layers[..at + 1], [])
  {
    hide Find;
    var more := layers[..at + 1];
    assert more[..at] == layers[..at] && more[|more| - 1] == layers[at];
    forall path
      ensures SourceOf(more, [], path)
              == if Find(layers[at].values, path).Some? then Some(SourceName(layers[at])) else SourceOf(layers[..at], [], path)
    {
      LastPresentIs(layers[..at], path);
    }
  }
}
