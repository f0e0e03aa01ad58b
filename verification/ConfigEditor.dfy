/** The editor of a project's configuration file: the document it updates in place. */
module ConfigEditor {
  import opened Options
  import opened ConfigDocument

  /** The rows of the table that a path leads to, the tables on the way being the editor's. */
  function RowsAt(rows: seq<Row>, path: seq<string>): seq<Row>
    requires AreTables(rows, path)
    decreases |path|
  {
    if path == [] then rows else RowsAt(Get(rows, path[0]).value.rows, path[1..])
  }

  predicate AreTables(rows: seq<Row>, path: seq<string>)
    decreases |path|
  {
    path == [] || (Get(rows, path[0]).Some? && Get(rows, path[0]).value.Table? && AreTables(Get(rows, path[0]).value.rows, path[1..]))
  }

  lemma {:induction false} EditableIs(rows: seq<Row>, path: seq<string>, key: string)
    ensures Editable(rows, path, key) <==> AreTables(rows, path) && Get(RowsAt(rows, path), key).Some?
    decreases |path|
  {
    if path != [] && Get(rows, path[0]).Some? && Get(rows, path[0]).value.Table? {
      EditableIs(Get(rows, path[0]).value.rows, path[1..], key);
    }
  }

  /** One step further down. */
  lemma {:induction false} StepDown(rows: seq<Row>, path: seq<string>, i: nat)
    requires i < |path| && AreTables(rows, path[..i])
    ensures
      var here := Get(RowsAt(rows, path[..i]), path[i]);
      && (AreTables(rows, path[..i + 1]) <==> here.Some? && here.value.Table?)
      && (AreTables(rows, path[..i + 1]) ==> RowsAt(rows, path[..i + 1]) == here.value.rows)
    decreases i
  {
    if i == 0 {
      assert path[..1][1..] == [] && path[..0] == [];
    } else {
      assert path[..i + 1][1..] == path[1..][..i] && path[..i][1..] == path[1..][..i - 1];
      StepDown(Get(rows, path[0]).value.rows, path[1..], i - 1);
    }
  }

  lemma {:induction false} ShorterAreTables(rows: seq<Row>, path: seq<string>, i: nat)
    requires i <= |path| && !AreTables(rows, path[..i])
    ensures !AreTables(rows, path)
    decreases i
  {
    if i > 0 {
      assert path[..i][1..] == path[1..][..i - 1];
      if Get(rows, path[0]).Some? && Get(rows, path[0]).value.Table? {
        ShorterAreTables(Get(rows, path[0]).value.rows, path[1..], i - 1);
      }
    }
  }

  /** Removing from a level is editing it with what removing from the level below leaves. */
  lemma {:induction false} StepUp(rows: seq<Row>, path: seq<string>, i: nat, key: string)
    requires i < |path| && AreTables(rows, path[..i]) && AreTables(rows, path[..i + 1])
    requires Editable(RowsAt(rows, path[..i + 1]), path[i + 1..], key)
    ensures Editable(RowsAt(rows, path[..i]), path[i..], key)
    ensures
      var below := Remove(RowsAt(rows, path[..i + 1]), path[i + 1..], key);
      Remove(RowsAt(rows, path[..i]), path[i..], key)
      == Edit(RowsAt(rows, path[..i]), path[i], if below == [] then None else Some(Table(below)))
  {
    StepDown(rows, path, i);
    assert path[i..][0] == path[i] && path[i..][1..] == path[i + 1..];
  }

  class Document {
    var rows: seq<Row>

    constructor (rows: seq<Row>)
      ensures this.rows == rows
    {
      this.rows := rows;
    }

    /** `_remove_alias` with `_prune_empty_tables`: down to the table, then up again through the
        ancestors, dropping the ones left empty. */
    method RemoveAlias(path: seq<string>, key: string) returns (removed: bool)
      modifies this
      ensures rows == Remove(old(rows), path, key) && removed == Editable(old(rows), path, key)
    {
      EditableIs(rows, path, key);
      var container := rows;
      var ancestors: seq<seq<Row>> := [];
      for i := 0 to |path|
        invariant |ancestors| == i && rows == old(rows) && AreTables(rows, path[..i]) && container == RowsAt(rows, path[..i])
        invariant forall k :: 0 <= k < i ==> AreTables(rows, path[..k]) && ancestors[k] == RowsAt(rows, path[..k])
      {
        StepDown(rows, path, i);
        var child := Get(container, path[i]);
        if child == None || !child.value.Table? {
          ShorterAreTables(rows, path, i + 1);
          return false;
        }
        ancestors := ancestors + [container];
        container := child.value.rows;
      }
      assert path[..|path|] == path && path[|path|..] == [];
      if Get(container, key) == None {
        return false;
      }
      container := Edit(container, key, None);
      var i := |path|;
      while i > 0
        invariant 0 <= i <= |path| && rows == old(rows) && AreTables(rows, path[..i])
        invariant Editable(RowsAt(rows, path[..i]), path[i..], key)
        invariant container == Remove(RowsAt(rows, path[..i]), path[i..], key)
      {
        i := i - 1;
        StepUp(rows, path, i, key);
        container := Edit(ancestors[i], path[i], if container == [] then None else Some(Table(container)));
      }
      assert path[0..] == path && path[..0] == [];
      rows := container;
      return true;
    }

    /** `reset_scalar_option`; it reports whether the editor saw any spelling of the option. */
    method ResetScalarOption(setting: Setting) returns (removed: bool)
      modifies this
      ensures rows == Reset(old(rows), setting)
      ensures removed <==> exists a :: a in setting.aliases && Editable(old(rows), a.path, a.key)
    {
      removed := false;
      for i := 0 to |setting.aliases|
        invariant RemoveAll(rows, setting.aliases[i..]) == Reset(old(rows), setting)
        invariant removed <==> exists k :: 0 <= k < i && Editable(old(rows), setting.aliases[k].path, setting.aliases[k].key)
        invariant !removed ==> rows == old(rows)
      {
        assert setting.aliases[i..][1..] == setting.aliases[i + 1..];
        var gone := RemoveAlias(setting.aliases[i].path, setting.aliases[i].key);
        removed := gone || removed;
      }
    }

    /** `set_scalar_option`; an option without a spelling, or with a step that is no table, is refused and
        nothing is written. */
    method SetScalarOption(setting: Setting, value: string) returns (ok: bool)
      modifies this
      ensures
        if setting.aliases == [] || SetOption(old(rows), setting, value) == None then !ok && rows == old(rows)
        else ok && rows == SetOption(old(rows), setting, value).value
    {
      if setting.aliases == [] {
        return false;
      }
      var before := rows;
      var primary := setting.aliases[0];
      for i := 0 to |setting.aliases|
        invariant RemoveAll(rows, Others(setting.aliases[i..], primary)) == RemoveAll(before, Others(setting.aliases, primary))
      {
        var alias := setting.aliases[i];
        assert setting.aliases[i..][1..] == setting.aliases[i + 1..];
        assert Others(setting.aliases[i..], primary)
            == (if alias == primary then [] else [alias]) + Others(setting.aliases[i + 1..], primary);
        if alias != primary {
          assert Others(setting.aliases[i..], primary)[1..] == Others(setting.aliases[i + 1..], primary);
          var _ := RemoveAlias(alias.path, alias.key);
        } else {
          assert Others(setting.aliases[i..], primary) == Others(setting.aliases[i + 1..], primary);
        }
      }
      var edited := Set(rows, primary.path, primary.key, value);
      rows := if edited.Some? then edited.value else before;
      ok := edited.Some?;
    }
  }
}
