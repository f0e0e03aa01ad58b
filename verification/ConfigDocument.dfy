/** A TOML document as an ordered tree of tables: what the loader takes from its flattened sections,
    and the edits that set and reset one option. */
module ConfigDocument {
  import opened Options

  /** The editor sees only `Table`s as tables; the loader sees inline tables as tables too. */
  datatype Item = Plain(value: string) | Table(rows: seq<Row>) | Inline(rows: seq<Row>)

  datatype Row = Row(key: string, item: Item)

  datatype Alias = Alias(path: seq<string>, key: string)

  datatype ValueKind = BoolKind | IntKind | FloatKind | StrKind | StrListKind | VerbosityKind

  /** A scalar option: its name, where the loader puts it and as what, the spellings it has in a file, the
      first being primary, the environment variables that set it, and whether commands show it. */
  datatype Setting = Setting(canonicalKey: string, fieldPath: seq<string>, kind: ValueKind, aliases: seq<Alias>,
                             envVars: seq<string>, visible: bool)

  const FLATTENED: set<string> := {"defaults", "spawn", "timeouts"}

  /** `_by_file_alias` */
  type Catalog = map<Alias, Setting>

  // ----- Loading

  /** The loader meets an alias: the raw value goes to the option. */
  datatype Assigned = Assigned(alias: Alias, item: Item)

  /** At the top the flattened sections are tables to go into and never aliases. */
  predicate IsAlias(catalog: Catalog, path: seq<string>, key: string) {
    Alias(path, key) in catalog && !(path == [] && key in FLATTENED)
  }

  predicate GoesInto(catalog: Catalog, path: seq<string>, key: string) {
    if path == [] then key in FLATTENED else Alias(path, key) !in catalog
  }

  function RowsOf(item: Item): seq<Row> {
    if item.Plain? then [] else item.rows
  }

  /** `_map_catalog_table` and the top-level loop around it: the assignments in the order of the file. */
  function Walk(catalog: Catalog, path: seq<string>, rows: seq<Row>): seq<Assigned>
    decreases rows
  {
    if rows == [] then [] else WalkRow(catalog, path, rows[0]) + Walk(catalog, path, rows[1..])
  }

  function WalkRow(catalog: Catalog, path: seq<string>, row: Row): seq<Assigned>
    decreases row
  {
    if IsAlias(catalog, path, row.key) then [Assigned(Alias(path, row.key), row.item)]
    else if GoesInto(catalog, path, row.key) && !row.item.Plain? then Walk(catalog, path + [row.key], row.item.rows)
    else []
  }

  // ----- Editing

  function Get(rows: seq<Row>, key: string): Option<Item> {
    if rows == [] then None else if rows[0].key == key then Some(rows[0].item) else Get(rows[1..], key)
  }

  /** The row of a key replaced in its place, or deleted. */
  function Edit(rows: seq<Row>, key: string, item: Option<Item>): seq<Row> {
    if rows == [] then []
    else if rows[0].key == key then (if item.Some? then [Row(key, item.value)] else []) + rows[1..]
    else [rows[0]] + Edit(rows[1..], key, item)
  }

  function Put(rows: seq<Row>, key: string, item: Item): seq<Row> {
    if Get(rows, key).Some? then Edit(rows, key, Some(item)) else rows + [Row(key, item)]
  }

  /** The editor finds the key: every step of the path is a table. */
  predicate Editable(rows: seq<Row>, path: seq<string>, key: string)
    decreases |path|
  {
    if path == [] then Get(rows, key).Some?
    else Get(rows, path[0]).Some? && Get(rows, path[0]).value.Table? && Editable(Get(rows, path[0]).value.rows, path[1..], key)
  }

  /** `_remove_alias`: delete the key, then every table on the way that this leaves empty. */
  function Remove(rows: seq<Row>, path: seq<string>, key: string): seq<Row>
    decreases |path|
  {
    if !Editable(rows, path, key) then rows
    else if path == [] then Edit(rows, key, None)
    else
      var inner := Remove(Get(rows, path[0]).value.rows, path[1..], key);
      Edit(rows, path[0], if inner == [] then None else Some(Table(inner)))
  }

  /** `_ensure_table` and the assignment into it; an existing step that is no table is an error. */
  function Set(rows: seq<Row>, path: seq<string>, key: string, value: string): Option<seq<Row>>
    decreases |path|
  {
    if path == [] then Some(Put(rows, key, Plain(value)))
    else
      match Get(rows, path[0])
      case None =>
        var inner := Set([], path[1..], key, value);
        if inner == None then None else Some(rows + [Row(path[0], Table(inner.value))])
      case Some(Table(inner)) =>
        var edited := Set(inner, path[1..], key, value);
        if edited == None then None else Some(Edit(rows, path[0], Some(Table(edited.value))))
      case Some(_) => None
  }

  function RemoveAll(rows: seq<Row>, aliases: seq<Alias>): seq<Row>
    decreases |aliases|
  {
    if aliases == [] then rows else RemoveAll(Remove(rows, aliases[0].path, aliases[0].key), aliases[1..])
  }

  /** The aliases but the primary one. */
  function Others(aliases: seq<Alias>, primary: Alias): seq<Alias> {
    if aliases == [] then []
    else (if aliases[0] == primary then [] else [aliases[0]]) + Others(aliases[1..], primary)
  }

  /** `reset_scalar_option` */
  function Reset(rows: seq<Row>, setting: Setting): seq<Row> {
    RemoveAll(rows, setting.aliases)
  }

  /** `set_scalar_option` */
  function SetOption(rows: seq<Row>, setting: Setting, value: string): Option<seq<Row>>
    requires setting.aliases != []
  {
    var primary := setting.aliases[0];
    Set(RemoveAll(rows, Others(setting.aliases, primary)), primary.path, primary.key, value)
  }

  // ----- What the loader sees at an alias

  ghost predicate Proper(rows: seq<Row>)
    decreases rows
  {
    && (forall i, j :: 0 <= i < j < |rows| ==> rows[i].key != rows[j].key)
    && (forall i :: 0 <= i < |rows| && !rows[i].item.Plain? ==> Proper(rows[i].item.rows))
  }

  function Seen(rows: seq<Row>, path: seq<string>, key: string): Option<Item>
    decreases |path|
  {
    if path == [] then Get(rows, key)
    else if Get(rows, path[0]).Some? && !Get(rows, path[0]).value.Plain? then Seen(Get(rows, path[0]).value.rows, path[1..], key)
    else None
  }

  /** The loader sees the key and the editor does not: some table on the way is inline. */
  predicate Hidden(rows: seq<Row>, path: seq<string>, key: string) {
    Seen(rows, path, key).Some? && !Editable(rows, path, key)
  }

  lemma {:induction false} GetIsThere(rows: seq<Row>, key: string) returns (i: nat)
    requires Get(rows, key).Some?
    ensures i < |rows| && rows[i].key == key && Get(rows, key) == Some(rows[i].item)
    ensures forall k :: 0 <= k < i ==> rows[k].key != key
  {
    if rows[0].key == key {
      i := 0;
    } else {
      i := GetIsThere(rows[1..], key);
      i := i + 1;
    }
  }

  lemma {:induction false} GetAbsent(rows: seq<Row>, key: string)
    ensures Get(rows, key) == None <==> forall i :: 0 <= i < |rows| ==> rows[i].key != key
  {
    if rows != [] {
      GetAbsent(rows[1..], key);
      assert rows[1..] == rows[1..];
      if Get(rows, key) == None {
        forall i | 0 <= i < |rows| ensures rows[i].key != key {
          assert i == 0 || rows[i] == rows[1..][i - 1];
        }
      }
    }
  }

  lemma {:induction false} ProperRest(rows: seq<Row>)
    requires Proper(rows) && rows != []
    ensures Proper(rows[1..]) && (!rows[0].item.Plain? ==> Proper(rows[0].item.rows)) && Get(rows[1..], rows[0].key) == None
  {
    GetAbsent(rows[1..], rows[0].key);
  }

  lemma {:induction false} GetIsProper(rows: seq<Row>, key: string)
    requires Proper(rows) && Get(rows, key).Some?
    ensures !Get(rows, key).value.Plain? ==> Proper(Get(rows, key).value.rows)
  {
    var i := GetIsThere(rows, key);
  }

  lemma {:induction false} EditGets(rows: seq<Row>, key: string, item: Option<Item>, other: string)
    requires Proper(rows) && Get(rows, key).Some?
    ensures Get(Edit(rows, key, item), other) == if other == key then item else Get(rows, other)
  {
    ProperRest(rows);
    if rows[0].key == key {
      if item == None {
        assert Edit(rows, key, item) == rows[1..];
      } else {
        assert Edit(rows, key, item)[1..] == rows[1..];
      }
    } else {
      EditGets(rows[1..], key, item, other);
      assert Edit(rows, key, item)[1..] == Edit(rows[1..], key, item);
    }
  }

  lemma {:induction false} EditIsProper(rows: seq<Row>, key: string, item: Option<Item>)
    requires Proper(rows) && Get(rows, key).Some? && (item.Some? && !item.value.Plain? ==> Proper(item.value.rows))
    ensures Proper(Edit(rows, key, item))
  {
    ProperRest(rows);
    var rest := rows[1..];
    if rows[0].key == key {
      if item.Some? {
        ProperCons(Row(key, item.value), rest);
      } else {
        assert Edit(rows, key, item) == rest;
      }
    } else {
      EditIsProper(rest, key, item);
      EditGets(rest, key, item, rows[0].key);
      ProperCons(rows[0], Edit(rest, key, item));
    }
  }

  lemma {:induction false} ProperCons(row: Row, rows: seq<Row>)
    requires Proper(rows) && Get(rows, row.key) == None && (!row.item.Plain? ==> Proper(row.item.rows))
    ensures Proper([row] + rows)
  {
    GetAbsent(rows, row.key);
    var all := [row] + rows;
    assert forall i :: 0 < i < |all| ==> all[i] == rows[i - 1];
  }

  lemma {:induction false} GetAppended(rows: seq<Row>, row: Row, key: string)
    ensures Get(rows + [row], key) == if Get(rows, key).Some? then Get(rows, key) else if row.key == key then Some(row.item) else None
  {
    if rows == [] {
      assert ([row])[1..] == [] && rows + [row] == [row];
    } else {
      GetAppended(rows[1..], row, key);
      assert (rows + [row])[1..] == rows[1..] + [row];
    }
  }

  lemma {:induction false} AppendedIsProper(rows: seq<Row>, row: Row)
    requires Proper(rows) && Get(rows, row.key) == None && (!row.item.Plain? ==> Proper(row.item.rows))
    ensures Proper(rows + [row])
  {
    GetAbsent(rows, row.key);
  }

  lemma {:induction false} PutGets(rows: seq<Row>, key: string, item: Item)
    requires Proper(rows) && (!item.Plain? ==> Proper(item.rows))
    ensures Proper(Put(rows, key, item)) && Get(Put(rows, key, item), key) == Some(item)
  {
    if Get(rows, key).Some? {
      EditGets(rows, key, Some(item), key);
      EditIsProper(rows, key, Some(item));
    } else {
      GetAppended(rows, Row(key, item), key);
      AppendedIsProper(rows, Row(key, item));
    }
  }

  /** After a removal the loader no longer sees the key, unless it is hidden from the editor. */
  lemma {:induction false} RemoveHides(rows: seq<Row>, path: seq<string>, key: string)
    requires Proper(rows)
    ensures Proper(Remove(rows, path, key))
    ensures Seen(Remove(rows, path, key), path, key) == if Editable(rows, path, key) then None else Seen(rows, path, key)
    decreases |path|
  {
    if Editable(rows, path, key) {
      if path == [] {
        EditGets(rows, key, None, key);
        EditIsProper(rows, key, None);
      } else {
        GetIsProper(rows, path[0]);
        var before := Get(rows, path[0]).value.rows;
        RemoveHides(before, path[1..], key);
        var inner := Remove(before, path[1..], key);
        var item := if inner == [] then None else Some(Table(inner));
        EditGets(rows, path[0], item, path[0]);
        EditIsProper(rows, path[0], item);
      }
    }
  }

  /** Setting fails exactly when a step of the path exists and is no table; else the loader sees the value. */
  lemma {:induction false} SetShows(rows: seq<Row>, path: seq<string>, key: string, value: string)
    requires Proper(rows)
    ensures Set(rows, path, key, value).Some? <==> TablesAlong(rows, path)
    ensures
      Set(rows, path, key, value).Some? ==>
        Proper(Set(rows, path, key, value).value) && Seen(Set(rows, path, key, value).value, path, key) == Some(Plain(value))
    decreases |path|
  {
    if path == [] {
      PutGets(rows, key, Plain(value));
    } else {
      var child := Get(rows, path[0]);
      if child == None {
        SetShows([], path[1..], key, value);
        var inner := Set([], path[1..], key, value).value;
        GetAppended(rows, Row(path[0], Table(inner)), path[0]);
        AppendedIsProper(rows, Row(path[0], Table(inner)));
      } else if child.value.Table? {
        GetIsProper(rows, path[0]);
        SetShows(child.value.rows, path[1..], key, value);
        var edited := Set(child.value.rows, path[1..], key, value);
        if edited.Some? {
          EditGets(rows, path[0], Some(Table(edited.value)), path[0]);
          EditIsProper(rows, path[0], Some(Table(edited.value)));
        }
      }
    }
  }

  /** Every step of the path that exists is a table of the editor's. */
  predicate TablesAlong(rows: seq<Row>, path: seq<string>)
    decreases |path|
  {
    path == [] || match Get(rows, path[0])
                  case None => true
                  case Some(item) => item.Table? && TablesAlong(item.rows, path[1..])
  }
}
