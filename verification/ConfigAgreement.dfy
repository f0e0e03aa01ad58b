/** The editor and the loader agree: what an edit does to one option in the flattened sections, and
    that it does nothing to any other. */
module ConfigAgreement {
  import opened Options
  import opened ConfigDocument
  import Sequences

  // ----- Parts of a walk

  /** The assignments that are not to any of some aliases, in order. */
  function Excluding(walk: seq<Assigned>, aliases: set<Alias>): seq<Assigned> {
    if walk == [] then []
    else (if walk[0].alias in aliases then [] else [walk[0]]) + Excluding(walk[1..], aliases)
  }

  /** What is assigned to some aliases, in order. */
  function Given(walk: seq<Assigned>, aliases: set<Alias>): seq<Item> {
    if walk == [] then []
    else (if walk[0].alias in aliases then [walk[0].item] else []) + Given(walk[1..], aliases)
  }

  lemma {:induction false} ExcludingAppends(a: seq<Assigned>, b: seq<Assigned>, aliases: set<Alias>)
    ensures Excluding(a + b, aliases) == Excluding(a, aliases) + Excluding(b, aliases)
  {
    if a == [] {
      assert a + b == b;
    } else {
      ExcludingAppends(a[1..], b, aliases);
      assert (a + b)[1..] == a[1..] + b && (a + b)[0] == a[0];
      Sequences.Reassociate(if a[0].alias in aliases then [] else [a[0]], Excluding(a[1..], aliases), Excluding(b, aliases));
    }
  }

  lemma {:induction false} GivenAppends(a: seq<Assigned>, b: seq<Assigned>, aliases: set<Alias>)
    ensures Given(a + b, aliases) == Given(a, aliases) + Given(b, aliases)
  {
    if a == [] {
      assert a + b == b;
    } else {
      GivenAppends(a[1..], b, aliases);
      assert (a + b)[1..] == a[1..] + b && (a + b)[0] == a[0];
      Sequences.Reassociate(if a[0].alias in aliases then [a[0].item] else [], Given(a[1..], aliases), Given(b, aliases));
    }
  }

  /** Excluding more aliases first, or aliases that are not asked for, changes nothing. */
  lemma {:induction false} ExcludingTwice(walk: seq<Assigned>, few: set<Alias>, many: set<Alias>)
    requires few <= many
    ensures Excluding(Excluding(walk, few), many) == Excluding(walk, many)
  {
    if walk != [] {
      ExcludingTwice(walk[1..], few, many);
      var rest := Excluding(walk[1..], few);
      if walk[0].alias !in few {
        assert Excluding(walk, few)[1..] == rest;
      } else {
        assert Excluding(walk, few) == rest;
      }
    }
  }

  lemma {:induction false} GivenOfExcluding(walk: seq<Assigned>, excluded: set<Alias>, aliases: set<Alias>)
    requires excluded !! aliases
    ensures Given(Excluding(walk, excluded), aliases) == Given(walk, aliases)
  {
    if walk != [] {
      GivenOfExcluding(walk[1..], excluded, aliases);
      if walk[0].alias !in excluded {
        assert Excluding(walk, excluded)[1..] == Excluding(walk[1..], excluded);
      } else {
        assert Excluding(walk, excluded) == Excluding(walk[1..], excluded);
      }
    }
  }

  lemma {:induction false} GivenNone(walk: seq<Assigned>, aliases: set<Alias>)
    ensures Given(walk, aliases) == [] <==> forall a :: a in aliases ==> Given(walk, {a}) == []
  {
    if walk != [] {
      GivenNone(walk[1..], aliases);
      var first := walk[0].alias;
      assert Given(walk, {first}) != [];
      forall a | a != first ensures Given(walk, {a}) == Given(walk[1..], {a}) {
      }
      if first !in aliases {
        assert Given(walk, aliases) == Given(walk[1..], aliases);
      }
    }
  }

  /** One value for all the aliases: one alias has it and the others have none. */
  lemma {:induction false} GivenOne(walk: seq<Assigned>, aliases: set<Alias>, one: Alias, item: Item)
    requires one in aliases && Given(walk, {one}) == [item]
    ensures Given(walk, aliases) == [item] <==> forall a :: a in aliases && a != one ==> Given(walk, {a}) == []
  {
    var first := walk[0].alias;
    forall a | a != first ensures Given(walk, {a}) == Given(walk[1..], {a}) {
    }
    assert Given(walk, {first}) != [];
    if first == one {
      assert Given(walk[1..], {one}) == Given(walk, {one})[1..] == [];
      GivenNone(walk[1..], aliases);
      assert Given(walk[1..], aliases) == Given(walk, aliases)[1..];
    } else {
      GivenOne(walk[1..], aliases, one, item);
      if first in aliases {
        GivenIncludes(walk[1..], aliases, one);
        assert |Given(walk, aliases)| >= 2;
      } else {
        assert Given(walk, aliases) == Given(walk[1..], aliases);
      }
    }
  }

  lemma {:induction false} GivenIncludes(walk: seq<Assigned>, aliases: set<Alias>, one: Alias)
    requires one in aliases
    ensures |Given(walk, {one})| <= |Given(walk, aliases)|
  {
    if walk != [] {
      GivenIncludes(walk[1..], aliases, one);
    }
  }

  // ----- The walk along an edit

  lemma {:induction false} WalkAppends(catalog: Catalog, at: seq<string>, a: seq<Row>, b: seq<Row>)
    ensures Walk(catalog, at, a + b) == Walk(catalog, at, a) + Walk(catalog, at, b)
    decreases |a|
  {
    if a == [] {
      assert a + b == b;
    } else {
      WalkAppends(catalog, at, a[1..], b);
      assert (a + b)[1..] == a[1..] + b;
    }
  }

  /** The loader goes along the path. */
  predicate Leads(catalog: Catalog, at: seq<string>, path: seq<string>)
    decreases |path|
  {
    path == [] || (GoesInto(catalog, at, path[0]) && !IsAlias(catalog, at, path[0]) && Leads(catalog, at + [path[0]], path[1..]))
  }

  lemma AliasBelow(at: seq<string>, path: seq<string>)
    requires path != []
    ensures at + [path[0]] + path[1..] == at + path
  {
  }

  function ExcludedRow(catalog: Catalog, at: seq<string>, key: string, item: Option<Item>, aliases: set<Alias>): seq<Assigned> {
    if item == None then [] else Excluding(WalkRow(catalog, at, Row(key, item.value)), aliases)
  }

  lemma {:induction false} EditKeepsWalk(catalog: Catalog, at: seq<string>, rows: seq<Row>, key: string, item: Option<Item>, aliases: set<Alias>)
    requires Get(rows, key).Some?
    requires ExcludedRow(catalog, at, key, Get(rows, key), aliases) == ExcludedRow(catalog, at, key, item, aliases)
    ensures Excluding(Walk(catalog, at, Edit(rows, key, item)), aliases) == Excluding(Walk(catalog, at, rows), aliases)
    decreases |rows|
  {
    hide WalkRow;
    var rest := rows[1..];
    ExcludingAppends(WalkRow(catalog, at, rows[0]), Walk(catalog, at, rest), aliases);
    if rows[0].key == key {
      assert rows[0] == Row(key, rows[0].item);
      if item == None {
        assert Edit(rows, key, item) == rest;
      } else {
        assert Edit(rows, key, item)[1..] == rest;
        ExcludingAppends(WalkRow(catalog, at, Row(key, item.value)), Walk(catalog, at, rest), aliases);
      }
    } else {
      EditKeepsWalk(catalog, at, rest, key, item, aliases);
      assert Edit(rows, key, item)[1..] == Edit(rest, key, item);
      ExcludingAppends(WalkRow(catalog, at, rows[0]), Walk(catalog, at, Edit(rest, key, item)), aliases);
    }
  }

  lemma {:induction false} RemoveKeepsWalk(catalog: Catalog, at: seq<string>, rows: seq<Row>, path: seq<string>, key: string)
    requires Leads(catalog, at, path) && IsAlias(catalog, at + path, key)
    ensures
      Excluding(Walk(catalog, at, Remove(rows, path, key)), {Alias(at + path, key)})
      == Excluding(Walk(catalog, at, rows), {Alias(at + path, key)})
    decreases |path|
  {
    hide IsAlias, GoesInto;
    var aliases := {Alias(at + path, key)};
    if Editable(rows, path, key) {
      if path == [] {
        assert at + path == at;
        AliasRow(catalog, at, key, Get(rows, key).value);
        EditKeepsWalk(catalog, at, rows, key, None, aliases);
      } else {
        AliasBelow(at, path);
        var before := Get(rows, path[0]).value.rows;
        var inner := Remove(before, path[1..], key);
        RemoveKeepsWalk(catalog, at + [path[0]], before, path[1..], key);
        TableRow(catalog, at, path[0], before);
        TableRow(catalog, at, path[0], inner);
        EditKeepsWalk(catalog, at, rows, path[0], if inner == [] then None else Some(Table(inner)), aliases);
      }
    }
  }

  lemma {:induction false} AliasRow(catalog: Catalog, at: seq<string>, key: string, item: Item)
    requires IsAlias(catalog, at, key)
    ensures Excluding(WalkRow(catalog, at, Row(key, item)), {Alias(at, key)}) == []
  {
  }

  lemma {:induction false} TableRow(catalog: Catalog, at: seq<string>, key: string, rows: seq<Row>)
    requires GoesInto(catalog, at, key) && !IsAlias(catalog, at, key)
    ensures WalkRow(catalog, at, Row(key, Table(rows))) == Walk(catalog, at + [key], rows)
  {
  }

  lemma {:induction false} SetKeepsWalk(catalog: Catalog, at: seq<string>, rows: seq<Row>, path: seq<string>, key: string, value: string)
    requires Leads(catalog, at, path) && IsAlias(catalog, at + path, key) && Set(rows, path, key, value).Some?
    ensures
      Excluding(Walk(catalog, at, Set(rows, path, key, value).value), {Alias(at + path, key)})
      == Excluding(Walk(catalog, at, rows), {Alias(at + path, key)})
    decreases |path|
  {
    hide IsAlias, GoesInto;
    var aliases := {Alias(at + path, key)};
    if path == [] {
      assert at + path == at;
      AliasRow(catalog, at, key, Plain(value));
      if Get(rows, key).Some? {
        AliasRow(catalog, at, key, Get(rows, key).value);
        EditKeepsWalk(catalog, at, rows, key, Some(Plain(value)), aliases);
      } else {
        AppendKeepsWalk(catalog, at, rows, Row(key, Plain(value)), aliases);
      }
    } else {
      AliasBelow(at, path);
      var child := Get(rows, path[0]);
      var before := if child == None then [] else child.value.rows;
      SetKeepsWalk(catalog, at + [path[0]], before, path[1..], key, value);
      var inner := Set(before, path[1..], key, value).value;
      TableRow(catalog, at, path[0], before);
      TableRow(catalog, at, path[0], inner);
      if child == None {
        AppendKeepsWalk(catalog, at, rows, Row(path[0], Table(inner)), aliases);
      } else {
        EditKeepsWalk(catalog, at, rows, path[0], Some(Table(inner)), aliases);
      }
    }
  }

  lemma {:induction false} AppendKeepsWalk(catalog: Catalog, at: seq<string>, rows: seq<Row>, row: Row, aliases: set<Alias>)
    requires Excluding(WalkRow(catalog, at, row), aliases) == []
    ensures Excluding(Walk(catalog, at, rows + [row]), aliases) == Excluding(Walk(catalog, at, rows), aliases)
  {
    hide WalkRow;
    WalkAppends(catalog, at, rows, [row]);
    assert [row][1..] == [];
    assert Walk(catalog, at, [row]) == WalkRow(catalog, at, row) + Walk(catalog, at, []) == WalkRow(catalog, at, row);
    ExcludingAppends(Walk(catalog, at, rows), Walk(catalog, at, [row]), aliases);
  }

  // ----- What is assigned is what the loader sees

  /** The aliases met in a row are its own or below it. */
  lemma {:induction false} RowAliases(catalog: Catalog, at: seq<string>, row: Row, i: nat)
    requires i < |WalkRow(catalog, at, row)|
    ensures
      var alias := WalkRow(catalog, at, row)[i].alias;
      alias == Alias(at, row.key) || at + [row.key] <= alias.path
    decreases row
  {
    if !IsAlias(catalog, at, row.key) {
      WalkAliases(catalog, at + [row.key], row.item.rows, i);
    }
  }

  lemma {:induction false} WalkAliases(catalog: Catalog, at: seq<string>, rows: seq<Row>, i: nat)
    requires i < |Walk(catalog, at, rows)|
    ensures at <= Walk(catalog, at, rows)[i].alias.path
    decreases rows
  {
    var first := WalkRow(catalog, at, rows[0]);
    if i < |first| {
      RowAliases(catalog, at, rows[0], i);
    } else {
      WalkAliases(catalog, at, rows[1..], i - |first|);
    }
  }

  lemma {:induction false} GivenAbsent(walk: seq<Assigned>, alias: Alias)
    requires forall i :: 0 <= i < |walk| ==> walk[i].alias != alias
    ensures Given(walk, {alias}) == []
  {
    if walk != [] {
      GivenAbsent(walk[1..], alias);
    }
  }

  /** A row of another key assigns nothing to an alias at or below a key. */
  lemma {:induction false} OtherRow(catalog: Catalog, at: seq<string>, row: Row, key: string, alias: Alias)
    requires row.key != key && (alias == Alias(at, key) || at + [key] <= alias.path)
    ensures Given(WalkRow(catalog, at, row), {alias}) == []
  {
    var walk := WalkRow(catalog, at, row);
    forall i | 0 <= i < |walk| ensures walk[i].alias != alias {
      RowAliases(catalog, at, row, i);
      if at + [row.key] <= walk[i].alias.path && at + [key] <= alias.path {
        assert walk[i].alias.path[|at|] == row.key && alias.path[|at|] == key;
      }
    }
    GivenAbsent(walk, alias);
  }

  /** A walk assigns to such an alias what the row of the key does. */
  lemma {:induction false} GivenByRow(catalog: Catalog, at: seq<string>, rows: seq<Row>, key: string, alias: Alias)
    requires Proper(rows) && (alias == Alias(at, key) || at + [key] <= alias.path)
    ensures
      Given(Walk(catalog, at, rows), {alias})
      == if Get(rows, key).Some? then Given(WalkRow(catalog, at, Row(key, Get(rows, key).value)), {alias}) else []
    decreases |rows|
  {
    hide WalkRow;
    if rows != [] {
      ProperRest(rows);
      GivenByRow(catalog, at, rows[1..], key, alias);
      GivenAppends(WalkRow(catalog, at, rows[0]), Walk(catalog, at, rows[1..]), {alias});
      if rows[0].key != key {
        OtherRow(catalog, at, rows[0], key, alias);
      } else {
        assert rows[0] == Row(key, rows[0].item);
      }
    }
  }

  lemma {:induction false} SeenIsGiven(catalog: Catalog, at: seq<string>, rows: seq<Row>, path: seq<string>, key: string)
    requires Proper(rows) && Leads(catalog, at, path) && IsAlias(catalog, at + path, key)
    ensures
      Given(Walk(catalog, at, rows), {Alias(at + path, key)})
      == match Seen(rows, path, key)
         case None => []
         case Some(item) => [item]
    decreases |path|
  {
    var alias := Alias(at + path, key);
    if path == [] {
      assert at + path == at;
      GivenByRow(catalog, at, rows, key, alias);
    } else {
      AliasBelow(at, path);
      GivenByRow(catalog, at, rows, path[0], alias);
      if Get(rows, path[0]).Some? && !Get(rows, path[0]).value.Plain? {
        GetIsProper(rows, path[0]);
        SeenIsGiven(catalog, at + [path[0]], Get(rows, path[0]).value.rows, path[1..], key);
      }
    }
  }

  // ----- Removing one alias leaves the others

  /** Neither is the other, or a table on the way to it. */
  predicate Unrelated(a: Alias, b: Alias) {
    a != b && !(a.path + [a.key] <= b.path) && !(b.path + [b.key] <= a.path)
  }

  lemma UnrelatedBelow(a: Alias, b: Alias)
    requires Unrelated(a, b) && a.path != [] && b.path != [] && a.path[0] == b.path[0]
    ensures Unrelated(Alias(a.path[1..], a.key), Alias(b.path[1..], b.key))
  {
    var p, q := a.path, b.path;
    assert p == [p[0]] + p[1..] && q == [q[0]] + q[1..];
    assert p + [a.key] == [p[0]] + (p[1..] + [a.key]) && q + [b.key] == [q[0]] + (q[1..] + [b.key]);
    assert p[1..] + [a.key] <= q[1..] ==> p + [a.key] <= q;
    assert q[1..] + [b.key] <= p[1..] ==> q + [b.key] <= p;
  }

  lemma {:induction false} RemoveLeaves(rows: seq<Row>, gone: Alias, kept: Alias)
    requires Proper(rows) && Unrelated(gone, kept)
    ensures
      var after := Remove(rows, gone.path, gone.key);
      && Editable(after, kept.path, kept.key) == Editable(rows, kept.path, kept.key)
      && Seen(after, kept.path, kept.key) == Seen(rows, kept.path, kept.key)
      && TablesAlong(after, kept.path) == TablesAlong(rows, kept.path)
    decreases |gone.path|
  {
    if Editable(rows, gone.path, gone.key) {
      var first := if kept.path == [] then kept.key else kept.path[0];
      if gone.path == [] {
        EditGets(rows, gone.key, None, first);
        assert gone.path + [gone.key] == [gone.key];
        assert kept.path != [] ==> ([gone.key] <= kept.path <==> kept.path[0] == gone.key);
      } else {
        GetIsProper(rows, gone.path[0]);
        var before := Get(rows, gone.path[0]).value.rows;
        var inner := Remove(before, gone.path[1..], gone.key);
        var item := if inner == [] then None else Some(Table(inner));
        EditGets(rows, gone.path[0], item, first);
        assert kept.path == [] ==> kept.path + [kept.key] == [kept.key];
        assert [kept.key] <= gone.path <==> kept.key == gone.path[0];
        if first == gone.path[0] {
          if kept.path != [] {
            UnrelatedBelow(gone, kept);
            RemoveLeaves(before, Alias(gone.path[1..], gone.key), Alias(kept.path[1..], kept.key));
            NothingInNoRows(kept.path[1..], kept.key);
          }
        }
      }
    }
  }

  lemma {:induction false} NothingInNoRows(path: seq<string>, key: string)
    ensures !Editable([], path, key) && Seen([], path, key) == None && TablesAlong([], path)
  {
  }

  /** The loader reaches the alias from the top. */
  predicate Reachable(catalog: Catalog, alias: Alias) {
    Leads(catalog, [], alias.path) && IsAlias(catalog, alias.path, alias.key)
  }

  lemma {:induction false} LeadsPastNoAlias(catalog: Catalog, at: seq<string>, path: seq<string>, i: nat)
    requires Leads(catalog, at, path) && i < |path|
    ensures !IsAlias(catalog, at + path[..i], path[i])
    decreases |path|
  {
    if i == 0 {
      assert at + path[..0] == at;
    } else {
      LeadsPastNoAlias(catalog, at + [path[0]], path[1..], i - 1);
      assert at + [path[0]] + path[1..][..i - 1] == at + path[..i];
    }
  }

  lemma ReachableAreUnrelated(catalog: Catalog, a: Alias, b: Alias)
    requires Reachable(catalog, a) && Reachable(catalog, b) && a != b
    ensures Unrelated(a, b)
  {
    NotOnTheWay(catalog, a, b);
    NotOnTheWay(catalog, b, a);
  }

  lemma NotOnTheWay(catalog: Catalog, a: Alias, b: Alias)
    requires Reachable(catalog, a) && Reachable(catalog, b)
    ensures !(a.path + [a.key] <= b.path)
  {
    hide IsAlias, Leads;
    if a.path + [a.key] <= b.path {
      StepOf(a.path, a.key, b.path);
      LeadsPastNoAlias(catalog, [], b.path, |a.path|);
    }
  }

  lemma StepOf(path: seq<string>, key: string, longer: seq<string>)
    requires path + [key] <= longer
    ensures [] + longer[..|path|] == path && longer[|path|] == key
  {
    assert longer[|path|] == (path + [key])[|path|];
  }

  // ----- Options

  /** An option of the flattened sections: all its spellings are reached by the loader's walk. */
  ghost predicate Flat(catalog: Catalog, aliases: seq<Alias>) {
    forall i :: 0 <= i < |aliases| ==> Reachable(catalog, aliases[i])
  }

  function SetOf(aliases: seq<Alias>): set<Alias> {
    set a | a in aliases
  }

  /** One alias after all of some are removed. */
  lemma {:induction false} RemoveAllLeaves(catalog: Catalog, rows: seq<Row>, aliases: seq<Alias>, kept: Alias)
    requires Proper(rows) && Flat(catalog, aliases) && Reachable(catalog, kept)
    ensures
      var after := RemoveAll(rows, aliases);
      && Proper(after)
      && (kept in aliases ==> Seen(after, kept.path, kept.key) == if Editable(rows, kept.path, kept.key) then None else Seen(rows, kept.path, kept.key))
      && (kept !in aliases ==> Seen(after, kept.path, kept.key) == Seen(rows, kept.path, kept.key))
      && (kept !in aliases ==> Editable(after, kept.path, kept.key) == Editable(rows, kept.path, kept.key))
      && (kept !in aliases ==> TablesAlong(after, kept.path) == TablesAlong(rows, kept.path))
    decreases |aliases|
  {
    hide Reachable, Unrelated;
    if aliases != [] {
      var gone := aliases[0];
      var next := Remove(rows, gone.path, gone.key);
      RemoveHides(rows, gone.path, gone.key);
      RemoveAllLeaves(catalog, next, aliases[1..], kept);
      if gone != kept {
        ReachableAreUnrelated(catalog, gone, kept);
        RemoveLeaves(rows, gone, kept);
      } else {
        EditableIsSeen(rows, kept.path, kept.key);
        EditableIsSeen(next, kept.path, kept.key);
      }
    }
  }

  lemma {:induction false} EditableIsSeen(rows: seq<Row>, path: seq<string>, key: string)
    ensures Editable(rows, path, key) ==> Seen(rows, path, key).Some?
    decreases |path|
  {
    if path != [] && Editable(rows, path, key) {
      EditableIsSeen(Get(rows, path[0]).value.rows, path[1..], key);
    }
  }

  lemma {:induction false} RemoveAllKeepsWalk(catalog: Catalog, rows: seq<Row>, aliases: seq<Alias>, all: set<Alias>)
    requires Flat(catalog, aliases) && (forall a :: a in aliases ==> a in all)
    ensures Excluding(Walk(catalog, [], RemoveAll(rows, aliases)), all) == Excluding(Walk(catalog, [], rows), all)
    decreases |aliases|
  {
    hide Leads, IsAlias;
    if aliases != [] {
      var gone := aliases[0];
      assert Reachable(catalog, gone) && [] + gone.path == gone.path;
      var next := Remove(rows, gone.path, gone.key);
      RemoveKeepsWalk(catalog, [], rows, gone.path, gone.key);
      ExcludingTwice(Walk(catalog, [], rows), {gone}, all);
      ExcludingTwice(Walk(catalog, [], next), {gone}, all);
      RemoveAllKeepsWalk(catalog, next, aliases[1..], all);
    }
  }

  /** What the loader assigns to one alias. */
  lemma {:induction false} AssignedIsSeen(catalog: Catalog, rows: seq<Row>, alias: Alias)
    requires Proper(rows) && Reachable(catalog, alias)
    ensures
      Given(Walk(catalog, [], rows), {alias})
      == match Seen(rows, alias.path, alias.key)
         case None => []
         case Some(item) => [item]
  {
    hide Leads, IsAlias;
    assert [] + alias.path == alias.path;
    SeenIsGiven(catalog, [], rows, alias.path, alias.key);
  }

  /** After a reset the loader assigns nothing to the option exactly when no spelling of it is hidden in
      an inline table, and it assigns to every other spelling what it did, in the same order. */
  lemma {:induction false} ResetAgrees(catalog: Catalog, rows: seq<Row>, setting: Setting)
    requires Proper(rows) && Flat(catalog, setting.aliases)
    ensures
      var before, after := Walk(catalog, [], rows), Walk(catalog, [], Reset(rows, setting));
      var own := SetOf(setting.aliases);
      && Excluding(after, own) == Excluding(before, own)
      && (Given(after, own) == [] <==> forall a :: a in setting.aliases ==> !Hidden(rows, a.path, a.key))
  {
    hide Reachable;
    var own, reset := SetOf(setting.aliases), Reset(rows, setting);
    RemoveAllKeepsWalk(catalog, rows, setting.aliases, own);
    GivenNone(Walk(catalog, [], reset), own);
    forall a | a in own
      ensures Given(Walk(catalog, [], reset), {a}) == [] <==> !Hidden(rows, a.path, a.key)
    {
      assert Reachable(catalog, a);
      RemoveAllLeaves(catalog, rows, setting.aliases, a);
      AssignedIsSeen(catalog, reset, a);
    }
  }

  lemma {:induction false} OthersAre(aliases: seq<Alias>, primary: Alias, a: Alias)
    ensures a in Others(aliases, primary) <==> a in aliases && a != primary
  {
    if aliases != [] {
      OthersAre(aliases[1..], primary, a);
    }
  }

  lemma {:induction false} OthersAreFlat(catalog: Catalog, aliases: seq<Alias>, primary: Alias)
    requires Flat(catalog, aliases)
    ensures Flat(catalog, Others(aliases, primary))
  {
    hide Reachable;
    var others := Others(aliases, primary);
    forall i | 0 <= i < |others| ensures Reachable(catalog, others[i]) {
      OthersAre(aliases, primary, others[i]);
    }
  }

  /** Setting fails exactly when a step to the primary spelling is no table. Otherwise the loader assigns
      the new value through the primary spelling, through it alone exactly when no other spelling is
      hidden in an inline table, and to every other option what it did. */
  lemma {:induction false} SetAgrees(catalog: Catalog, rows: seq<Row>, setting: Setting, value: string)
    requires Proper(rows) && Flat(catalog, setting.aliases) && setting.aliases != []
    ensures
      var primary, edited := setting.aliases[0], SetOption(rows, setting, value);
      && (edited.Some? <==> TablesAlong(rows, primary.path))
      && (edited.Some? ==>
            var before, after := Walk(catalog, [], rows), Walk(catalog, [], edited.value);
            var own := SetOf(setting.aliases);
            && Proper(edited.value)
            && Excluding(after, own) == Excluding(before, own)
            && Given(after, {primary}) == [Plain(value)]
            && (Given(after, own) == [Plain(value)]
                <==> forall a :: a in setting.aliases && a != primary ==> !Hidden(rows, a.path, a.key)))
  {
    hide Reachable;
    var primary, own := setting.aliases[0], SetOf(setting.aliases);
    var others := Others(setting.aliases, primary);
    var cleared := RemoveAll(rows, others);
    OthersAreFlat(catalog, setting.aliases, primary);
    assert Reachable(catalog, primary);
    OthersAre(setting.aliases, primary, primary);
    RemoveAllLeaves(catalog, rows, others, primary);
    SetShows(cleared, primary.path, primary.key, value);
    var edited := SetOption(rows, setting, value);
    if edited.Some? {
      SetWalks(catalog, rows, setting, value);
      AssignedIsSeen(catalog, edited.value, primary);
      GivenOne(Walk(catalog, [], edited.value), own, primary, Plain(value));
      forall a | a in own && a != primary
        ensures Given(Walk(catalog, [], edited.value), {a}) == [] <==> !Hidden(rows, a.path, a.key)
      {
        SetLeaves(catalog, rows, setting, value, a);
      }
    }
  }

  lemma {:induction false} SetWalks(catalog: Catalog, rows: seq<Row>, setting: Setting, value: string)
    requires Flat(catalog, setting.aliases) && setting.aliases != [] && SetOption(rows, setting, value).Some?
    ensures
      var own, primary := SetOf(setting.aliases), setting.aliases[0];
      var cleared, edited := RemoveAll(rows, Others(setting.aliases, primary)), SetOption(rows, setting, value).value;
      && Excluding(Walk(catalog, [], edited), own) == Excluding(Walk(catalog, [], rows), own)
      && Excluding(Walk(catalog, [], edited), {primary}) == Excluding(Walk(catalog, [], cleared), {primary})
  {
    hide Leads, IsAlias;
    var own, primary := SetOf(setting.aliases), setting.aliases[0];
    var others := Others(setting.aliases, primary);
    var cleared, edited := RemoveAll(rows, others), SetOption(rows, setting, value).value;
    OthersAreFlat(catalog, setting.aliases, primary);
    forall a | a in others ensures a in own {
      OthersAre(setting.aliases, primary, a);
    }
    RemoveAllKeepsWalk(catalog, rows, others, own);
    assert Reachable(catalog, primary) && [] + primary.path == primary.path;
    SetKeepsWalk(catalog, [], cleared, primary.path, primary.key, value);
    ExcludingTwice(Walk(catalog, [], cleared), {primary}, own);
    ExcludingTwice(Walk(catalog, [], edited), {primary}, own);
  }

  /** Another spelling after the option is set: the loader sees it exactly if it was hidden, and then as
      it was. */
  lemma {:induction false} SetLeaves(catalog: Catalog, rows: seq<Row>, setting: Setting, value: string, a: Alias)
    requires Proper(rows) && Flat(catalog, setting.aliases) && setting.aliases != [] && SetOption(rows, setting, value).Some?
    requires a in setting.aliases && a != setting.aliases[0]
    ensures
      Given(Walk(catalog, [], SetOption(rows, setting, value).value), {a})
      == if Hidden(rows, a.path, a.key) then [Seen(rows, a.path, a.key).value] else []
  {
    hide Reachable;
    var primary := setting.aliases[0];
    var others := Others(setting.aliases, primary);
    var cleared, edited := RemoveAll(rows, others), SetOption(rows, setting, value).value;
    OthersAreFlat(catalog, setting.aliases, primary);
    OthersAre(setting.aliases, primary, a);
    assert Reachable(catalog, a);
    RemoveAllLeaves(catalog, rows, others, a);
    AssignedIsSeen(catalog, cleared, a);
    SetWalks(catalog, rows, setting, value);
    GivenOfExcluding(Walk(catalog, [], edited), {primary}, {a});
    GivenOfExcluding(Walk(catalog, [], cleared), {primary}, {a});
  }

  // ----- Which spelling comes last

  /** The last of some aliases that a walk assigns to. */
  function LastGiver(walk: seq<Assigned>, aliases: set<Alias>): Option<Alias> {
    if walk == [] then None
    else if walk[|walk| - 1].alias in aliases then Some(walk[|walk| - 1].alias)
    else LastGiver(walk[..|walk| - 1], aliases)
  }

  lemma {:induction false} LastGiverGives(walk: seq<Assigned>, aliases: set<Alias>)
    ensures
      match LastGiver(walk, aliases)
      case None => Given(walk, aliases) == []
      case Some(a) =>
        && a in aliases && Given(walk, aliases) != [] && Given(walk, {a}) != []
        && Given(walk, aliases)[|Given(walk, aliases)| - 1] == Given(walk, {a})[|Given(walk, {a})| - 1]
  {
    if walk != [] {
      var n := |walk| - 1;
      var last := walk[n];
      assert walk == walk[..n] + [last];
      GivenAppends(walk[..n], [last], aliases);
      GivenOfLast(last, aliases);
      if last.alias in aliases {
        GivenAppends(walk[..n], [last], {last.alias});
        GivenOfLast(last, {last.alias});
      } else {
        LastGiverGives(walk[..n], aliases);
        var giver := LastGiver(walk[..n], aliases);
        if giver.Some? {
          GivenAppends(walk[..n], [last], {giver.value});
          GivenOfLast(last, {giver.value});
        }
      }
    }
  }

  lemma {:induction false} GivenOfLast(last: Assigned, aliases: set<Alias>)
    ensures Given([last], aliases) == if last.alias in aliases then [last.item] else []
  {
    assert [last][1..] == [];
  }

  /** A spelling in a table that the editor can reach is not hidden. */
  lemma {:induction false} TablesHideNothing(rows: seq<Row>, path: seq<string>, key: string)
    requires TablesAlong(rows, path)
    ensures !Hidden(rows, path, key)
    decreases |path|
  {
    if path != [] && Get(rows, path[0]).Some? {
      TablesHideNothing(Get(rows, path[0]).value.rows, path[1..], key);
    }
  }
}
