/** What loading a document gives each option of the flattened sections, and what an edit of the
    document does to that. */
module ConfigLoading {
  import opened Options
  import opened ConfigDocument
  import opened ConfigAgreement
  import C = ConfigCatalog
  import T = ConfigTree

  /** Every alias belongs to one option, options have all their aliases in the catalog, and their field
      paths do not lead through each other. */
  ghost predicate Sound(catalog: Catalog) {
    && (forall a :: a in catalog ==> a in catalog[a].aliases && catalog[a].fieldPath != [])
    && (forall a, b :: a in catalog && b in catalog[a].aliases ==> b in catalog && catalog[b] == catalog[a])
    && (forall a, b :: a in catalog && b in catalog && catalog[a] != catalog[b] ==> T.Apart(catalog[a].fieldPath, catalog[b].fieldPath))
  }

  /** The file aliases of every catalog that is built at all are sound, if the model's fields have paths
      of their own. */
  lemma BuiltIsSound(index: C.Index, options: seq<Setting>)
    requires C.IndexesAll(index, options)
    requires forall o :: o in options ==> o.fieldPath != []
    requires forall o, p :: o in options && p in options && o != p ==> T.Apart(o.fieldPath, p.fieldPath)
    ensures Sound(index.files)
  {
    hide T.Apart;
    var catalog := index.files;
    forall a | a in catalog ensures catalog[a] in options && a in catalog[a].aliases {
      assert a in C.FileKeys(catalog[a]);
    }
    forall a, b | a in catalog && b in catalog[a].aliases ensures b in catalog && catalog[b] == catalog[a] {
      assert b in C.FileKeys(catalog[a]);
    }
  }

  ghost predicate Known(catalog: Catalog, walk: seq<Assigned>) {
    forall i :: 0 <= i < |walk| ==> walk[i].alias in catalog && catalog[walk[i].alias].fieldPath != []
  }

  /** The assignments of a walk made one after the other. */
  function AssignAll(catalog: Catalog, target: T.Tree<Item>, walk: seq<Assigned>): (r: T.Tree<Item>)
    requires target.Branch? && Known(catalog, walk)
    ensures r.Branch?
  {
    if walk == [] then target
    else T.Assign(AssignAll(catalog, target, walk[..|walk| - 1]), catalog[walk[|walk| - 1].alias].fieldPath, walk[|walk| - 1].item)
  }

  lemma {:induction false} WalkIsKnown(catalog: Catalog, at: seq<string>, rows: seq<Row>)
    requires Sound(catalog)
    ensures Known(catalog, Walk(catalog, at, rows))
    decreases rows
  {
    if rows != [] {
      RowIsKnown(catalog, at, rows[0]);
      WalkIsKnown(catalog, at, rows[1..]);
    }
  }

  lemma {:induction false} RowIsKnown(catalog: Catalog, at: seq<string>, row: Row)
    requires Sound(catalog)
    ensures Known(catalog, WalkRow(catalog, at, row))
    decreases row
  {
    if !IsAlias(catalog, at, row.key) && GoesInto(catalog, at, row.key) && !row.item.Plain? {
      WalkIsKnown(catalog, at + [row.key], row.item.rows);
    }
  }

  /** The loop of `_map_catalog_table`, and of the top level for the flattened sections and the aliases
      that stand there. */
  method MapTable(catalog: Catalog, at: seq<string>, rows: seq<Row>, target: T.Tree<Item>) returns (r: T.Tree<Item>)
    requires target.Branch? && Sound(catalog)
    ensures Known(catalog, Walk(catalog, at, rows)) && r == AssignAll(catalog, target, Walk(catalog, at, rows))
    decreases rows
  {
    hide Sound, Known, T.Assign;
    WalkIsKnown(catalog, at, rows);
    r := target;
    assert Walk(catalog, at, rows[..0]) == [];
    StartsWithNothing(catalog, target);
    for i := 0 to |rows|
      invariant r.Branch? && Known(catalog, Walk(catalog, at, rows[..i])) && r == AssignAll(catalog, target, Walk(catalog, at, rows[..i]))
    {
      var row := rows[i];
      assert rows[..i + 1] == rows[..i] + [row];
      RowIsKnown(catalog, at, row);
      if IsAlias(catalog, at, row.key) {
        AliasPath(catalog, Alias(at, row.key));
        AssignsOne(catalog, r, Assigned(Alias(at, row.key), row.item));
        r := T.Assign(r, catalog[Alias(at, row.key)].fieldPath, row.item);
      } else if GoesInto(catalog, at, row.key) && !row.item.Plain? {
        r := MapTable(catalog, at + [row.key], row.item.rows, r);
      } else {
        StartsWithNothing(catalog, r);
      }
      WalkGrows(catalog, at, rows, i, target);
    }
    assert rows[..|rows|] == rows;
  }

  lemma AliasPath(catalog: Catalog, alias: Alias)
    requires Sound(catalog) && alias in catalog
    ensures catalog[alias].fieldPath != []
  {
  }

  lemma {:induction false} StartsWithNothing(catalog: Catalog, target: T.Tree<Item>)
    requires target.Branch?
    ensures Known(catalog, []) && AssignAll(catalog, target, []) == target
  {
  }

  lemma {:induction false} AssignsOne(catalog: Catalog, target: T.Tree<Item>, one: Assigned)
    requires target.Branch? && one.alias in catalog && catalog[one.alias].fieldPath != []
    ensures Known(catalog, [one])
    ensures AssignAll(catalog, target, [one]) == T.Assign(target, catalog[one.alias].fieldPath, one.item)
  {
    assert [one][..0] == [];
  }

  lemma {:induction false} AssignAppends(catalog: Catalog, target: T.Tree<Item>, a: seq<Assigned>, b: seq<Assigned>)
    requires target.Branch? && Known(catalog, a) && Known(catalog, b)
    ensures Known(catalog, a + b) && AssignAll(catalog, target, a + b) == AssignAll(catalog, AssignAll(catalog, target, a), b)
  {
    hide T.Assign;
    if b == [] {
      assert a + b == a;
    } else {
      var n := |b| - 1;
      AssignAppends(catalog, target, a, b[..n]);
      assert (a + b)[..|a| + n] == a + b[..n];
    }
  }

  lemma {:induction false} WalkGrows(catalog: Catalog, at: seq<string>, rows: seq<Row>, i: nat, target: T.Tree<Item>)
    requires i < |rows| && Sound(catalog) && target.Branch?
    ensures Known(catalog, Walk(catalog, at, rows[..i])) && Known(catalog, Walk(catalog, at, rows[..i + 1]))
    ensures Known(catalog, WalkRow(catalog, at, rows[i]))
    ensures
      AssignAll(catalog, target, Walk(catalog, at, rows[..i + 1]))
      == AssignAll(catalog, AssignAll(catalog, target, Walk(catalog, at, rows[..i])), WalkRow(catalog, at, rows[i]))
  {
    hide Sound, Known, WalkRow, AssignAll;
    assert rows[..i + 1] == rows[..i] + [rows[i]] && [rows[i]][1..] == [];
    WalkAppends(catalog, at, rows[..i], [rows[i]]);
    WalkIsKnown(catalog, at, rows[..i]);
    RowIsKnown(catalog, at, rows[i]);
    assert Walk(catalog, at, [rows[i]]) == WalkRow(catalog, at, rows[i]) + Walk(catalog, at, []) == WalkRow(catalog, at, rows[i]);
    AssignAppends(catalog, target, Walk(catalog, at, rows[..i]), WalkRow(catalog, at, rows[i]));
  }

  // ----- The value of an option

  function LastOf(items: seq<Item>): Option<Item> {
    if items == [] then None else Some(items[|items| - 1])
  }

  /** What the loader maps an option to. */
  function Loaded(catalog: Catalog, rows: seq<Row>, option: Setting): Option<Item>
    requires Known(catalog, Walk(catalog, [], rows))
  {
    T.LeafAt(AssignAll(catalog, T.Branch(map[]), Walk(catalog, [], rows)), option.fieldPath)
  }

  /** The option of an alias has the last value assigned through any of its spellings. */
  lemma {:induction false} LeafIsLastGiven(catalog: Catalog, walk: seq<Assigned>, alias: Alias)
    requires Sound(catalog) && Known(catalog, walk) && alias in catalog
    ensures
      T.LeafAt(AssignAll(catalog, T.Branch(map[]), walk), catalog[alias].fieldPath)
      == LastOf(Given(walk, SetOf(catalog[alias].aliases)))
  {
    hide T.Assign, T.LeafAt, T.Apart, Sound, Given, SetOf;
    var option := catalog[alias];
    var own := SetOf(option.aliases);
    AliasPath(catalog, alias);
    if walk == [] {
      GivenNothing(own);
      NothingLoaded(option.fieldPath);
    } else {
      var n := |walk| - 1;
      var last, rest := walk[n], walk[..n];
      LeafIsLastGiven(catalog, rest, alias);
      assert walk == rest + [last];
      GivenAppends(rest, [last], own);
      GivenOfLast(last, own);
      var before := AssignAll(catalog, T.Branch(map[]), rest);
      OwnOrApart(catalog, alias, last.alias);
      if last.alias in own {
        T.AssignSets(before, option.fieldPath, last.item);
      } else {
        T.AssignKeeps(before, catalog[last.alias].fieldPath, last.item, option.fieldPath);
      }
    }
  }

  lemma {:induction false} GivenNothing(aliases: set<Alias>)
    ensures Given([], aliases) == []
  {
  }

  /** An alias is one of the option's own spellings, or belongs to an option whose path is apart. */
  lemma OwnOrApart(catalog: Catalog, alias: Alias, other: Alias)
    requires Sound(catalog) && alias in catalog && other in catalog
    ensures
      if other in SetOf(catalog[alias].aliases) then catalog[other] == catalog[alias]
      else T.Apart(catalog[other].fieldPath, catalog[alias].fieldPath)
  {
    hide T.Apart;
  }

  lemma NothingLoaded(path: seq<string>)
    requires path != []
    ensures T.LeafAt<Item>(T.Branch(map[]), path) == None
  {
  }

  lemma {:induction false} LoadedIsLastGiven(catalog: Catalog, rows: seq<Row>, alias: Alias)
    requires Sound(catalog) && alias in catalog
    ensures Known(catalog, Walk(catalog, [], rows))
    ensures Loaded(catalog, rows, catalog[alias]) == LastOf(Given(Walk(catalog, [], rows), SetOf(catalog[alias].aliases)))
  {
    WalkIsKnown(catalog, [], rows);
    LeafIsLastGiven(catalog, Walk(catalog, [], rows), alias);
  }

  // ----- Editing and loading

  /** Two options of a sound catalog have no spelling in common. */
  lemma OptionsAreDisjoint(catalog: Catalog, a: Alias, b: Alias)
    requires Sound(catalog) && a in catalog && b in catalog && catalog[a] != catalog[b]
    ensures SetOf(catalog[a].aliases) !! SetOf(catalog[b].aliases)
  {
    forall c | c in SetOf(catalog[a].aliases) ensures c !in SetOf(catalog[b].aliases) {
      assert c in catalog && catalog[c] == catalog[a];
    }
  }

  /** Resetting an option of the flattened sections: the loader maps it to nothing exactly when no
      spelling of it is hidden in an inline table, and every other option to what it did. */
  lemma {:induction false} ResetThenLoad(catalog: Catalog, rows: seq<Row>, alias: Alias, other: Alias)
    requires Sound(catalog) && Proper(rows) && alias in catalog && other in catalog && Flat(catalog, catalog[alias].aliases)
    ensures
      var option := catalog[alias];
      var after := Reset(rows, option);
      && Known(catalog, Walk(catalog, [], rows)) && Known(catalog, Walk(catalog, [], after))
      && (Loaded(catalog, after, option) == None <==> forall a :: a in option.aliases ==> !Hidden(rows, a.path, a.key))
      && (catalog[other] != option ==> Loaded(catalog, after, catalog[other]) == Loaded(catalog, rows, catalog[other]))
  {
    hide Known, Flat;
    var option := catalog[alias];
    var after := Reset(rows, option);
    ResetAgrees(catalog, rows, option);
    LoadedIsLastGiven(catalog, rows, other);
    LoadedIsLastGiven(catalog, after, other);
    LoadedIsLastGiven(catalog, after, alias);
    if catalog[other] != option {
      OptionsAreDisjoint(catalog, alias, other);
      GivenOfExcluding(Walk(catalog, [], rows), SetOf(option.aliases), SetOf(catalog[other].aliases));
      GivenOfExcluding(Walk(catalog, [], after), SetOf(option.aliases), SetOf(catalog[other].aliases));
    }
  }

  /** Setting one: it fails exactly when a step to the primary spelling is no table, and the loader maps
      every other option to what it did. */
  lemma {:induction false} SetKeepsOthers(catalog: Catalog, rows: seq<Row>, alias: Alias, value: string, other: Alias)
    requires Sound(catalog) && Proper(rows) && alias in catalog && other in catalog && Flat(catalog, catalog[alias].aliases)
    ensures
      var option := catalog[alias];
      option.aliases != [] && (SetOption(rows, option, value).Some? <==> TablesAlong(rows, option.aliases[0].path))
      && (SetOption(rows, option, value).Some? ==>
            var after := SetOption(rows, option, value).value;
            && Known(catalog, Walk(catalog, [], rows)) && Known(catalog, Walk(catalog, [], after))
            && (catalog[other] != option ==> Loaded(catalog, after, catalog[other]) == Loaded(catalog, rows, catalog[other])))
  {
    hide Known, Flat;
    var option := catalog[alias];
    SetAgrees(catalog, rows, option, value);
    if SetOption(rows, option, value).Some? {
      var after := SetOption(rows, option, value).value;
      LoadedIsLastGiven(catalog, rows, other);
      LoadedIsLastGiven(catalog, after, other);
      if catalog[other] != option {
        OptionsAreDisjoint(catalog, alias, other);
        GivenOfExcluding(Walk(catalog, [], rows), SetOf(option.aliases), SetOf(catalog[other].aliases));
        GivenOfExcluding(Walk(catalog, [], after), SetOf(option.aliases), SetOf(catalog[other].aliases));
      }
    }
  }

  /** What a set that succeeds leaves for the loader, hidden spellings or not: the option has the value
      of its spelling that comes last in the edited file, which is the new value when that is the
      primary one, and otherwise what a spelling hidden in an inline table has held all along. */
  lemma {:induction false} LoadedAfterSet(catalog: Catalog, rows: seq<Row>, alias: Alias, value: string)
    requires Sound(catalog) && Proper(rows) && alias in catalog && Flat(catalog, catalog[alias].aliases)
    requires catalog[alias].aliases != [] && SetOption(rows, catalog[alias], value).Some?
    ensures
      var option := catalog[alias];
      var after := SetOption(rows, option, value).value;
      var last := LastGiver(Walk(catalog, [], after), SetOf(option.aliases));
      && Known(catalog, Walk(catalog, [], after))
      && last.Some? && last.value in option.aliases
      && (last.value != option.aliases[0] ==> Hidden(rows, last.value.path, last.value.key))
      && Loaded(catalog, after, option)
         == if last.value == option.aliases[0] then Some(Plain(value)) else Seen(rows, last.value.path, last.value.key)
  {
    hide *;
    var option := catalog[alias];
    LoadedIsLastGiven(catalog, SetOption(rows, option, value).value, alias);
    LastAfterSet(catalog, rows, option, value);
  }

  lemma {:induction false} LastAfterSet(catalog: Catalog, rows: seq<Row>, option: Setting, value: string)
    requires Proper(rows) && Flat(catalog, option.aliases)
    requires option.aliases != [] && SetOption(rows, option, value).Some?
    ensures
      var walk := Walk(catalog, [], SetOption(rows, option, value).value);
      var last := LastGiver(walk, SetOf(option.aliases));
      && last.Some? && last.value in option.aliases
      && (last.value != option.aliases[0] ==> Hidden(rows, last.value.path, last.value.key))
      && LastOf(Given(walk, SetOf(option.aliases)))
         == if last.value == option.aliases[0] then Some(Plain(value)) else Seen(rows, last.value.path, last.value.key)
  {
    hide Flat, Walk, Seen, Editable, LastGiver, Given, SetOption, Proper, Excluding;
    var walk := Walk(catalog, [], SetOption(rows, option, value).value);
    SetAgrees(catalog, rows, option, value);
    LastGiverGives(walk, SetOf(option.aliases));
    GivenIncludes(walk, SetOf(option.aliases), option.aliases[0]);
    var last := LastGiver(walk, SetOf(option.aliases)).value;
    if last != option.aliases[0] {
      SetLeaves(catalog, rows, option, value, last);
    }
  }

  /** Every spelling stands at the top of the file or in the primary one's own table. */
  predicate StandTogether(aliases: seq<Alias>) {
    aliases != [] && forall a :: a in aliases ==> a.path == [] || a.path == aliases[0].path
  }

  /** Where they do, a set that succeeds leaves no hidden one: it loads the new value. */
  lemma {:induction false} SetLoadsNewValue(catalog: Catalog, rows: seq<Row>, alias: Alias, value: string)
    requires Sound(catalog) && Proper(rows) && alias in catalog && Flat(catalog, catalog[alias].aliases)
    requires StandTogether(catalog[alias].aliases) && SetOption(rows, catalog[alias], value).Some?
    ensures
      var after := SetOption(rows, catalog[alias], value).value;
      Known(catalog, Walk(catalog, [], after)) && Loaded(catalog, after, catalog[alias]) == Some(Plain(value))
  {
    hide Known, Flat, Walk, Hidden;
    var option := catalog[alias];
    SetKeepsOthers(catalog, rows, alias, value, alias);
    LoadedAfterSet(catalog, rows, alias, value);
    forall a | a in option.aliases ensures !Hidden(rows, a.path, a.key) {
      TablesHideNothing(rows, a.path, a.key);
    }
  }

  // ----- The spellings of the options in the flattened sections

  const MAX_DEPTH: seq<Alias> := [Alias(["defaults"], "max_depth"), Alias([], "max_depth")]

  /** `_timeout_field`: the short name and the field's name in the table, and the field's name at the top. */
  function TimeoutAliases(name: string, fieldName: string): seq<Alias> {
    [Alias(["timeouts"], name)] + (if fieldName == name then [] else [Alias(["timeouts"], fieldName)]) + [Alias([], fieldName)]
  }

  /** The lists of spellings `MeridianConfig` gives to the options of its flattened sections. */
  predicate IsFlattened(aliases: seq<Alias>) {
    || aliases == MAX_DEPTH
    || (|aliases| == 1 && aliases[0].path == ["spawn"])
    || (aliases != [] && aliases == TimeoutAliases(aliases[0].key, aliases[|aliases| - 1].key)
        && aliases[|aliases| - 1].key !in FLATTENED)
  }

  lemma FlattenedAre(aliases: seq<Alias>, a: Alias)
    requires IsFlattened(aliases) && a in aliases
    ensures StandTogether(aliases) && aliases[0].path in [["defaults"], ["timeouts"], ["spawn"]]
    ensures a.path == [] ==> a.key !in FLATTENED
  {
  }

  /** The loader reaches them all. */
  lemma FlattenedAreFlat(catalog: Catalog, alias: Alias)
    requires Sound(catalog) && alias in catalog && IsFlattened(catalog[alias].aliases)
    ensures Flat(catalog, catalog[alias].aliases) && StandTogether(catalog[alias].aliases)
  {
    hide IsFlattened, StandTogether;
    var aliases := catalog[alias].aliases;
    FlattenedAre(aliases, alias);
    forall i | 0 <= i < |aliases| ensures Reachable(catalog, aliases[i]) {
      FlattenedAre(aliases, aliases[i]);
      assert aliases[i] in catalog;
      if aliases[i].path != [] {
        assert aliases[i].path == aliases[0].path by {
          TogetherMeans(aliases, aliases[i]);
        }
        assert aliases[i].path[1..] == [];
      }
    }
  }

  lemma TogetherMeans(aliases: seq<Alias>, a: Alias)
    requires StandTogether(aliases) && a in aliases && a.path != []
    ensures a.path == aliases[0].path
  {
  }

  /** Setting an option of the flattened sections: it fails exactly when a step to the primary spelling is
      no table; otherwise the loader maps the option to the new value and every other option to what it
      did. */
  lemma {:induction false} SetThenLoad(catalog: Catalog, rows: seq<Row>, alias: Alias, value: string, other: Alias)
    requires Sound(catalog) && Proper(rows) && alias in catalog && other in catalog && IsFlattened(catalog[alias].aliases)
    ensures
      var option := catalog[alias];
      option.aliases != [] && (SetOption(rows, option, value).Some? <==> TablesAlong(rows, option.aliases[0].path))
      && (SetOption(rows, option, value).Some? ==>
            var after := SetOption(rows, option, value).value;
            && Known(catalog, Walk(catalog, [], rows)) && Known(catalog, Walk(catalog, [], after))
            && Loaded(catalog, after, option) == Some(Plain(value))
            && (catalog[other] != option ==> Loaded(catalog, after, catalog[other]) == Loaded(catalog, rows, catalog[other])))
  {
    hide *;
    FlattenedAreFlat(catalog, alias);
    SetKeepsOthers(catalog, rows, alias, value, other);
    if SetOption(rows, catalog[alias], value).Some? {
      SetLoadsNewValue(catalog, rows, alias, value);
    }
  }

  /** A reset can leave an option set: `defaults = { max_depth = 3 }` is no table to the editor, and is one
      to the loader. */
  lemma {:induction false} ResetMissesInlineTables(catalog: Catalog, alias: Alias, value: string)
    requires Sound(catalog) && alias in catalog && catalog[alias].aliases == MAX_DEPTH
    ensures
      var rows := [Row("defaults", Inline([Row("max_depth", Plain(value))]))];
      && Proper(rows) && Reset(rows, catalog[alias]) == rows && Hidden(rows, ["defaults"], "max_depth")
      && Known(catalog, Walk(catalog, [], rows)) && Loaded(catalog, rows, catalog[alias]) == Some(Plain(value))
  {
    hide Walk, Known, Loaded, Flat, Sound, Seen, Editable, Proper, RemoveAll, Given, SetOf;
    var rows := [Row("defaults", Inline([Row("max_depth", Plain(value))]))];
    InlineIsSkipped(rows, value);
    FlattenedAreFlat(catalog, alias);
    InlineIsGiven(catalog, catalog[alias].aliases, rows, value);
    LoadedIsLastGiven(catalog, rows, alias);
  }

  lemma {:induction false} InlineIsGiven(catalog: Catalog, aliases: seq<Alias>, rows: seq<Row>, value: string)
    requires Flat(catalog, aliases) && aliases == MAX_DEPTH && Proper(rows)
    requires Seen(rows, ["defaults"], "max_depth") == Some(Plain(value)) && Seen(rows, [], "max_depth") == None
    ensures Given(Walk(catalog, [], rows), SetOf(aliases)) == [Plain(value)]
  {
    hide Walk, Flat, Seen, Proper, Given, Reachable;
    MaxDepthIsReached(catalog, aliases);
    AssignedIsSeen(catalog, rows, MAX_DEPTH[0]);
    AssignedIsSeen(catalog, rows, MAX_DEPTH[1]);
    GivenOne(Walk(catalog, [], rows), SetOf(aliases), MAX_DEPTH[0], Plain(value));
  }

  lemma MaxDepthIsReached(catalog: Catalog, aliases: seq<Alias>)
    requires Flat(catalog, aliases) && aliases == MAX_DEPTH
    ensures Reachable(catalog, MAX_DEPTH[0]) && Reachable(catalog, MAX_DEPTH[1])
  {
    assert Reachable(catalog, aliases[0]) && Reachable(catalog, aliases[1]);
  }

  lemma {:induction false} InlineIsSkipped(rows: seq<Row>, value: string)
    requires rows == [Row("defaults", Inline([Row("max_depth", Plain(value))]))]
    ensures Proper(rows) && RemoveAll(rows, MAX_DEPTH) == rows
    ensures Seen(rows, ["defaults"], "max_depth") == Some(Plain(value)) && !Editable(rows, ["defaults"], "max_depth")
    ensures Seen(rows, [], "max_depth") == None
  {
    assert ["defaults"][1..] == [] && rows[1..] == [];
    assert Get(rows, "max_depth") == Get(rows[1..], "max_depth") == None;
    assert MAX_DEPTH[1..] == [MAX_DEPTH[1]] && MAX_DEPTH[1..][1..] == [];
    assert RemoveAll(rows, MAX_DEPTH) == RemoveAll(rows, MAX_DEPTH[1..]) == RemoveAll(rows, []) == rows;
  }
}
