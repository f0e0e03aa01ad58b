/** The catalog of scalar options: the indexes it is looked up by, and the conflicts it refuses. */
module ConfigCatalog {
  import opened Options
  import opened ConfigDocument

  datatype Index = Index(canonical: map<string, Setting>, lookup: map<string, Setting>, files: map<Alias, Setting>,
                         env: map<string, Setting>)

  datatype Conflict = DuplicateKey(key: string) | KeyAlias(key: string) | FileAlias(alias: Alias) | EnvVar(name: string)

  function Joined(parts: seq<string>): string {
    if parts == [] then [] else if |parts| == 1 then parts[0] else parts[0] + "." + Joined(parts[1..])
  }

  /** The keys each index has an option under. */
  function CanonicalKeys(option: Setting): seq<string> {
    [option.canonicalKey]
  }

  function LookupKeys(option: Setting): seq<string> {
    [option.canonicalKey] + seq(|option.aliases|, i requires 0 <= i < |option.aliases| =>
                                  Joined(option.aliases[i].path + [option.aliases[i].key]))
  }

  function FileKeys(option: Setting): seq<Alias> {
    option.aliases
  }

  function EnvKeys(option: Setting): seq<string> {
    option.envVars
  }

  /** No key stands for two options. */
  ghost predicate NoConflict<K(!new)>(options: seq<Setting>, keys: Setting -> seq<K>) {
    forall a, b, k :: a in options && b in options && k in keys(a) && k in keys(b) ==> a == b
  }

  /** The index has each key of each option, and no other. */
  ghost predicate Indexes<K(!new)>(index: map<K, Setting>, options: seq<Setting>, keys: Setting -> seq<K>) {
    && (forall k :: k in index ==> index[k] in options && k in keys(index[k]))
    && (forall o, k :: o in options && k in keys(o) ==> k in index && index[k] == o)
  }

  /** A key of the option already stands for another. */
  predicate Clashes<K>(index: map<K, Setting>, keys: seq<K>, option: Setting) {
    exists i :: 0 <= i < |keys| && keys[i] in index && index[keys[i]] != option
  }

  /** One loop of `__post_init__` over the keys of an option: the first that clashes, or the index with
      them all. */
  method Register<K(==)>(index: map<K, Setting>, keys: seq<K>, option: Setting) returns (r: Result<map<K, Setting>, K>)
    ensures r.Err? <==> Clashes(index, keys, option)
    ensures r.Err? ==> r.error in keys && r.error in index && index[r.error] != option
    ensures r.Ok? ==> forall k :: k in r.value <==> k in index || k in keys
    ensures r.Ok? ==> forall k :: k in r.value ==> r.value[k] == if k in keys then option else index[k]
  {
    var grown := index;
    for i := 0 to |keys|
      invariant forall j :: 0 <= j < i ==> !(keys[j] in index && index[keys[j]] != option)
      invariant forall k :: k in grown <==> k in index || k in keys[..i]
      invariant forall k :: k in grown ==> grown[k] == if k in keys[..i] then option else index[k]
    {
      if keys[i] in grown && grown[keys[i]] != option {
        return Err(keys[i]);
      }
      grown := grown[keys[i] := option];
    }
    return Ok(grown);
  }

  lemma RegisterExtends<K(!new)>(before: map<K, Setting>, after: map<K, Setting>, options: seq<Setting>, option: Setting,
                           keys: Setting -> seq<K>)
    requires Indexes(before, options, keys) && NoConflict(options, keys) && !Clashes(before, keys(option), option)
    requires forall k :: k in after <==> k in before || k in keys(option)
    requires forall k :: k in after ==> after[k] == if k in keys(option) then option else before[k]
    ensures Indexes(after, options + [option], keys) && NoConflict(options + [option], keys)
  {
    forall o, k | o in options && k in keys(o) && k in keys(option) ensures o == option {
      assert k in before && before[k] == o;
      var i :| 0 <= i < |keys(option)| && keys(option)[i] == k;
    }
  }

  ghost predicate IndexesAll(index: Index, options: seq<Setting>) {
    && Indexes(index.canonical, options, CanonicalKeys)
    && Indexes(index.lookup, options, LookupKeys)
    && Indexes(index.files, options, FileKeys)
    && Indexes(index.env, options, EnvKeys)
  }

  ghost predicate NoConflicts(options: seq<Setting>) {
    && NoConflict(options, CanonicalKeys) && NoConflict(options, LookupKeys)
    && NoConflict(options, FileKeys) && NoConflict(options, EnvKeys)
  }

  /** Two different options share what the conflict names. */
  ghost predicate IsShared(options: seq<Setting>, conflict: Conflict) {
    exists a, b :: a in options && b in options && a != b && SharedBy(a, b, conflict)
  }

  predicate SharedBy(a: Setting, b: Setting, conflict: Conflict) {
    match conflict
    case DuplicateKey(key) => key == a.canonicalKey == b.canonicalKey
    case KeyAlias(key) => key in LookupKeys(a) && key in LookupKeys(b)
    case FileAlias(alias) => alias in a.aliases && alias in b.aliases
    case EnvVar(name) => name in a.envVars && name in b.envVars
  }

  lemma ClashIsShared<K(!new)>(index: map<K, Setting>, options: seq<Setting>, at: nat, keys: Setting -> seq<K>, key: K,
                               conflict: Conflict)
    requires at < |options| && Indexes(index, options[..at], keys)
    requires key in keys(options[at]) && key in index && index[key] != options[at]
    requires forall o :: key in keys(o) ==> (key in keys(options[at]) ==> SharedBy(options[at], o, conflict))
    ensures !NoConflict(options, keys) && IsShared(options, conflict)
  {
    hide SharedBy;
    var option, other := options[at], index[key];
    assert other in options[..at] && other in options && option in options && key in keys(other);
  }

  lemma NothingIndexed()
    ensures IndexesAll(Index(map[], map[], map[], map[]), []) && NoConflicts([])
  {
  }

  /** `OptionCatalog.__post_init__`: it refuses the options exactly when two of them share a key of some
      kind, and otherwise finds each option by each of its keys and nothing by any other. */
  method BuildIndex(options: seq<Setting>) returns (r: Result<Index, Conflict>)
    ensures r.Ok? <==> NoConflicts(options)
    ensures r.Ok? ==> IndexesAll(r.value, options)
    ensures r.Err? ==> IsShared(options, r.error)
  {
    hide IsShared, LookupKeys, Indexes, NoConflict, Clashes;
    NothingIndexed();
    var index := Index(map[], map[], map[], map[]);
    for i := 0 to |options|
      invariant IndexesAll(index, options[..i]) && NoConflicts(options[..i])
    {
      var option := options[i];
      assert options[..i + 1] == options[..i] + [option];
      var canonical := Register(index.canonical, CanonicalKeys(option), option);
      if canonical.Err? {
        ClashIsShared(index.canonical, options, i, CanonicalKeys, canonical.error, DuplicateKey(canonical.error));
        return Err(DuplicateKey(canonical.error));
      }
      RegisterExtends(index.canonical, canonical.value, options[..i], option, CanonicalKeys);
      var lookup := Register(index.lookup, LookupKeys(option), option);
      if lookup.Err? {
        ClashIsShared(index.lookup, options, i, LookupKeys, lookup.error, KeyAlias(lookup.error));
        return Err(KeyAlias(lookup.error));
      }
      RegisterExtends(index.lookup, lookup.value, options[..i], option, LookupKeys);
      var files := Register(index.files, FileKeys(option), option);
      if files.Err? {
        ClashIsShared(index.files, options, i, FileKeys, files.error, FileAlias(files.error));
        return Err(FileAlias(files.error));
      }
      RegisterExtends(index.files, files.value, options[..i], option, FileKeys);
      var env := Register(index.env, EnvKeys(option), option);
      if env.Err? {
        ClashIsShared(index.env, options, i, EnvKeys, env.error, EnvVar(env.error));
        return Err(EnvVar(env.error));
      }
      RegisterExtends(index.env, env.value, options[..i], option, EnvKeys);
      index := Index(canonical.value, lookup.value, files.value, env.value);
    }
    assert options[..|options|] == options;
    return Ok(index);
  }

  // ----- What is found, and what is refused

  /** Names are joined by dots. */
  lemma {:induction false} JoinedBack(parts: seq<string>, last: string)
    ensures Joined(parts + [last]) == if parts == [] then last else Joined(parts) + "." + last
  {
    if parts != [] {
      JoinedBack(parts[1..], last);
      assert (parts + [last])[1..] == parts[1..] + [last] && (parts + [last])[0] == parts[0];
    }
  }

  /** The option can be named so: by its key, or by one of its spellings with its tables before it. */
  ghost predicate HasName(option: Setting, name: string) {
    name == option.canonicalKey || exists i :: 0 <= i < |option.aliases| && name == Joined(option.aliases[i].path + [option.aliases[i].key])
  }

  lemma NamesAre(option: Setting, name: string)
    ensures name in LookupKeys(option) <==> HasName(option, name)
  {
    hide Joined;
    var spellings := seq(|option.aliases|, i requires 0 <= i < |option.aliases| => Joined(option.aliases[i].path + [option.aliases[i].key]));
    assert LookupKeys(option) == [option.canonicalKey] + spellings;
    forall i | 0 <= i < |option.aliases| && name == Joined(option.aliases[i].path + [option.aliases[i].key]) ensures name in spellings {
      assert spellings[i] == name;
    }
  }

  /** Two options share nothing they are looked up by. */
  ghost predicate AreApart(a: Setting, b: Setting) {
    && a.canonicalKey != b.canonicalKey
    && (forall name :: HasName(a, name) ==> !HasName(b, name))
    && (forall alias :: alias in a.aliases ==> alias !in b.aliases)
    && (forall name :: name in a.envVars ==> name !in b.envVars)
  }

  lemma UnconflictedAreApart(options: seq<Setting>, a: Setting, b: Setting)
    requires NoConflicts(options) && a in options && b in options && a != b
    ensures AreApart(a, b)
  {
    hide LookupKeys, HasName;
    forall name | HasName(a, name) ensures !HasName(b, name) {
      NamesAre(a, name);
      NamesAre(b, name);
    }
    forall alias | alias in a.aliases ensures alias !in b.aliases {
      assert alias in FileKeys(a);
      assert alias in FileKeys(b) ==> alias in b.aliases;
    }
    forall name | name in a.envVars ensures name !in b.envVars {
      assert name in EnvKeys(a);
      assert name in EnvKeys(b) ==> name in b.envVars;
    }
    assert a.canonicalKey in CanonicalKeys(a) && b.canonicalKey in CanonicalKeys(b);
  }

  /** The options are refused exactly when two different ones share a key, a name, a spelling or a variable. */
  lemma NoConflictsIff(options: seq<Setting>)
    ensures NoConflicts(options) <==> forall a, b :: a in options && b in options && a != b ==> AreApart(a, b)
  {
    hide LookupKeys, HasName;
    forall o, name ensures name in LookupKeys(o) <==> HasName(o, name) {
      NamesAre(o, name);
    }
    assert forall o: Setting, k :: k in CanonicalKeys(o) <==> k == o.canonicalKey;
    if forall a, b :: a in options && b in options && a != b ==> AreApart(a, b) {
      forall a, b, k | a in options && b in options && k in LookupKeys(a) && k in LookupKeys(b) ensures a == b {
        assert a != b ==> AreApart(a, b);
      }
      forall a, b, k | a in options && b in options && k in CanonicalKeys(a) && k in CanonicalKeys(b) ensures a == b {
        assert a != b ==> AreApart(a, b);
      }
      forall a, b, k | a in options && b in options && k in FileKeys(a) && k in FileKeys(b) ensures a == b {
        assert a != b ==> AreApart(a, b);
      }
      forall a, b, k | a in options && b in options && k in EnvKeys(a) && k in EnvKeys(b) ensures a == b {
        assert a != b ==> AreApart(a, b);
      }
    }
    if NoConflicts(options) {
      forall a, b | a in options && b in options && a != b ensures AreApart(a, b) {
        UnconflictedAreApart(options, a, b);
      }
    }
  }

  /** In an index that is built every option is found by its key, its names, its spellings and its variables, and nothing
      by anything else. */
  lemma FoundIff(index: Index, options: seq<Setting>, o: Setting)
    requires IndexesAll(index, options) && NoConflicts(options)
    ensures forall name ::
              (name in index.canonical && index.canonical[name] == o <==> o in options && name == o.canonicalKey)
              && (name in index.lookup && index.lookup[name] == o <==> o in options && HasName(o, name))
              && (name in index.env && index.env[name] == o <==> o in options && name in o.envVars)
    ensures forall alias :: alias in index.files && index.files[alias] == o <==> o in options && alias in o.aliases
  {
    hide LookupKeys, HasName;
    forall name ensures name in LookupKeys(o) <==> HasName(o, name) {
      NamesAre(o, name);
    }
    assert forall k :: k in CanonicalKeys(o) <==> k == o.canonicalKey;
    assert forall k :: k in EnvKeys(o) <==> k in o.envVars;
    assert forall k :: k in FileKeys(o) <==> k in o.aliases;
  }
}
