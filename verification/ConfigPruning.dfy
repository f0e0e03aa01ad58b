/** What removing a spelling leaves of the file: every step of its path that held nothing else goes with it, no step is
    left empty, and everything off the path stays. */
module ConfigPruning {
  import opened Options
  import opened ConfigDocument

  /** The places part: neither leads to the other. */
  ghost predicate Parts(path: seq<string>, key: string, other: seq<string>, otherKey: string)
    decreases |path|
  {
    var first := if path == [] then key else path[0];
    var otherFirst := if other == [] then otherKey else other[0];
    first != otherFirst || (path != [] && other != [] && Parts(path[1..], key, other[1..], otherKey))
  }

  /** What the table holds that the step `j` of the path leads to. */
  function Inside(rows: seq<Row>, path: seq<string>, j: nat): seq<Row>
    requires j < |path|
  {
    match Seen(rows, path[..j], path[j])
    case None => []
    case Some(item) => RowsOf(item)
  }

  lemma {:induction false} EditSize(rows: seq<Row>, key: string, item: Option<Item>)
    requires Get(rows, key).Some?
    ensures |Edit(rows, key, item)| == if item.Some? then |rows| else |rows| - 1
  {
    if rows[0].key != key {
      EditSize(rows[1..], key, item);
    }
  }

  lemma {:induction false} InsideFirst(rows: seq<Row>, path: seq<string>)
    requires path != [] && Get(rows, path[0]).Some?
    ensures Inside(rows, path, 0) == RowsOf(Get(rows, path[0]).value)
  {
    assert path[..0] == [];
  }

  lemma {:induction false} InsideNext(rows: seq<Row>, path: seq<string>, j: nat)
    requires 0 < j < |path| && Get(rows, path[0]).Some? && Get(rows, path[0]).value.Table?
    ensures Inside(rows, path, j) == Inside(Get(rows, path[0]).value.rows, path[1..], j - 1)
    ensures Seen(rows, path[..j], path[j]) == Seen(Get(rows, path[0]).value.rows, path[1..][..j - 1], path[1..][j - 1])
  {
    assert path[..j][1..] == path[1..][..j - 1];
  }

  /** From step `i` down, every table holds just the next step of the path. */
  ghost predicate HoldsOnly(rows: seq<Row>, path: seq<string>, i: nat) {
    forall j :: i <= j < |path| ==> |Inside(rows, path, j)| == 1
  }

  lemma {:induction false} HoldsOnlyBelow(rows: seq<Row>, path: seq<string>, i: nat)
    requires 0 < i <= |path| && Get(rows, path[0]).Some? && Get(rows, path[0]).value.Table?
    ensures HoldsOnly(rows, path, i) <==> HoldsOnly(Get(rows, path[0]).value.rows, path[1..], i - 1)
  {
    hide Inside;
    var below := Get(rows, path[0]).value.rows;
    forall j | i <= j < |path| ensures Inside(rows, path, j) == Inside(below, path[1..], j - 1) {
      InsideNext(rows, path, j);
    }
    if HoldsOnly(rows, path, i) {
      forall k | i - 1 <= k < |path[1..]| ensures |Inside(below, path[1..], k)| == 1 {
        var j := k + 1;
        assert |Inside(rows, path, j)| == 1;
      }
    }
  }

  lemma {:induction false} HoldsOnlyFirst(rows: seq<Row>, path: seq<string>)
    requires path != [] && Get(rows, path[0]).Some? && Get(rows, path[0]).value.Table?
    ensures HoldsOnly(rows, path, 0) <==> |Get(rows, path[0]).value.rows| == 1 && HoldsOnly(Get(rows, path[0]).value.rows, path[1..], 0)
  {
    hide Inside;
    InsideFirst(rows, path);
    HoldsOnlyBelow(rows, path, 1);
    assert HoldsOnly(rows, path, 1) && |Inside(rows, path, 0)| == 1 ==> HoldsOnly(rows, path, 0);
  }

  /** The file is left without a row exactly when it held nothing but the way to the spelling. */
  lemma {:induction false} NothingLeft(rows: seq<Row>, path: seq<string>, key: string)
    requires Editable(rows, path, key)
    ensures Remove(rows, path, key) == [] <==> |rows| == 1 && HoldsOnly(rows, path, 0)
    decreases |path|
  {
    if path == [] {
      EditSize(rows, key, None);
    } else {
      var below := Get(rows, path[0]).value.rows;
      NothingLeft(below, path[1..], key);
      var inner := Remove(below, path[1..], key);
      EditSize(rows, path[0], if inner == [] then None else Some(Table(inner)));
      HoldsOnlyFirst(rows, path);
    }
  }

  /** A step of the path is gone exactly when it held nothing but the way to the spelling; one that is left is a table
      with something in it. */
  lemma {:induction false} RemovePrunes(rows: seq<Row>, path: seq<string>, key: string, i: nat)
    requires Proper(rows) && Editable(rows, path, key) && i < |path|
    ensures
      match Seen(Remove(rows, path, key), path[..i], path[i])
      case None => HoldsOnly(rows, path, i)
      case Some(item) => item.Table? && item.rows != [] && !HoldsOnly(rows, path, i)
    decreases |path|
  {
    hide HoldsOnly;
    var below := Get(rows, path[0]).value.rows;
    var inner := Remove(below, path[1..], key);
    var item := if inner == [] then None else Some(Table(inner));
    var after := Remove(rows, path, key);
    EditGets(rows, path[0], item, path[0]);
    HoldsOnlyFirst(rows, path);
    NothingLeft(below, path[1..], key);
    if i == 0 {
      assert path[..0] == [];
    } else {
      HoldsOnlyBelow(rows, path, i);
      GetIsProper(rows, path[0]);
      RemovePrunes(below, path[1..], key, i - 1);
      if inner == [] {
        assert Seen(after, path[..i], path[i]) == None;
        NothingSeen(path[1..][..i - 1], path[1..][i - 1]);
      } else {
        InsideNext(after, path, i);
      }
    }
  }

  lemma {:induction false} NothingSeen(path: seq<string>, key: string)
    ensures Seen([], path, key) == None
  {
  }

  /** Whatever stands at a place that parts from the spelling's stays. */
  lemma {:induction false} RemoveKeepsOthers(rows: seq<Row>, path: seq<string>, key: string, other: seq<string>, otherKey: string)
    requires Proper(rows) && Parts(path, key, other, otherKey)
    ensures Seen(Remove(rows, path, key), other, otherKey) == Seen(rows, other, otherKey)
    decreases |path|
  {
    if Editable(rows, path, key) {
      if path == [] {
        EditGets(rows, key, None, if other == [] then otherKey else other[0]);
      } else {
        var below := Get(rows, path[0]).value.rows;
        var inner := Remove(below, path[1..], key);
        var item := if inner == [] then None else Some(Table(inner));
        EditGets(rows, path[0], item, if other == [] then otherKey else other[0]);
        if other != [] && other[0] == path[0] {
          GetIsProper(rows, path[0]);
          RemoveKeepsOthers(below, path[1..], key, other[1..], otherKey);
          if inner == [] {
            NothingSeen(other[1..], otherKey);
          }
        }
      }
    }
  }

  /** Setting a spelling leaves every place that parts from it as it was, too. */
  lemma {:induction false} SetKeepsOthers(rows: seq<Row>, path: seq<string>, key: string, value: string, other: seq<string>,
                                          otherKey: string)
    requires Proper(rows) && Parts(path, key, other, otherKey) && Set(rows, path, key, value).Some?
    ensures Seen(Set(rows, path, key, value).value, other, otherKey) == Seen(rows, other, otherKey)
    decreases |path|
  {
    var otherFirst := if other == [] then otherKey else other[0];
    if path == [] {
      PutKeeps(rows, key, Plain(value), otherFirst);
    } else {
      var child := Get(rows, path[0]);
      var below := if child == None then [] else RowsOf(child.value);
      var inner := Set(below, path[1..], key, value).value;
      if child == None {
        GetAppended(rows, Row(path[0], Table(inner)), otherFirst);
      } else {
        GetIsProper(rows, path[0]);
        EditGets(rows, path[0], Some(Table(inner)), otherFirst);
      }
      if other != [] && other[0] == path[0] {
        SetKeepsOthers(below, path[1..], key, value, other[1..], otherKey);
        NothingSeen(other[1..], otherKey);
      }
    }
  }

  lemma {:induction false} PutKeeps(rows: seq<Row>, key: string, item: Item, other: string)
    requires Proper(rows) && key != other
    ensures Get(Put(rows, key, item), other) == Get(rows, other)
  {
    if Get(rows, key).Some? {
      EditGets(rows, key, Some(item), other);
    } else {
      GetAppended(rows, Row(key, item), other);
    }
  }
}
