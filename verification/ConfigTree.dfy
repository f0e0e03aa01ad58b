/** Nested dictionaries of configuration values: merging two of them, and assigning at a path. */
module ConfigTree {
  import opened Options

  datatype Tree<V> = Leaf(value: V) | Branch(fields: map<string, Tree<V>>)

  // ----- Merging

  /** What a key holds after a merge. */
  function MergedAt<V>(base: Tree<V>, overrides: Tree<V>, key: string): Tree<V>
    requires base.Branch? && overrides.Branch? && (key in base.fields || key in overrides.fields)
    decreases overrides, 0
  {
    if key !in overrides.fields then base.fields[key]
    else if key in base.fields && base.fields[key].Branch? && overrides.fields[key].Branch? then
      Merge(base.fields[key], overrides.fields[key])
    else overrides.fields[key]
  }

  /** `merge_nested_dict_values` */
  function Merge<V>(base: Tree<V>, overrides: Tree<V>): (merged: Tree<V>)
    requires base.Branch? && overrides.Branch?
    ensures merged.Branch? && merged.fields.Keys == base.fields.Keys + overrides.fields.Keys
    decreases overrides, 1
  {
    Branch(map key | key in base.fields.Keys + overrides.fields.Keys :: MergedAt(base, overrides, key))
  }

  /** Merged but for the keys still to do. */
  ghost predicate Partly<V>(base: Tree<V>, overrides: Tree<V>, todo: set<string>, merged: Tree<V>)
    requires base.Branch? && overrides.Branch?
  {
    && merged.Branch? && todo <= overrides.fields.Keys
    && merged.fields.Keys == base.fields.Keys + (overrides.fields.Keys - todo)
    && (forall key :: key in merged.fields ==>
          merged.fields[key] == if key in todo then base.fields[key] else MergedAt(base, overrides, key))
  }

  lemma {:induction false} MergeOne<V>(base: Tree<V>, overrides: Tree<V>, todo: set<string>, merged: Tree<V>, key: string)
    requires base.Branch? && overrides.Branch? && Partly(base, overrides, todo, merged) && key in todo
    ensures Partly(base, overrides, todo - {key}, Branch(merged.fields[key := MergedAt(base, overrides, key)]))
    ensures key in merged.fields <==> key in base.fields
    ensures key in merged.fields ==> merged.fields[key] == base.fields[key]
  {
    hide MergedAt;
  }

  lemma {:induction false} MergedAll<V>(base: Tree<V>, overrides: Tree<V>, merged: Tree<V>)
    requires base.Branch? && overrides.Branch? && Partly(base, overrides, {}, merged)
    ensures merged == Merge(base, overrides)
  {
    hide MergedAt;
    assert merged.fields == Merge(base, overrides).fields;
  }

  lemma NoneMerged<V>(base: Tree<V>, overrides: Tree<V>)
    requires base.Branch? && overrides.Branch?
    ensures Partly(base, overrides, overrides.fields.Keys, base)
  {
    assert base.fields.Keys + (overrides.fields.Keys - overrides.fields.Keys) == base.fields.Keys;
  }

  /** The loop of `merge_nested_dict_values`, over the keys in any order. */
  method MergeDicts<V>(base: Tree<V>, overrides: Tree<V>) returns (merged: Tree<V>)
    requires base.Branch? && overrides.Branch?
    ensures merged == Merge(base, overrides)
    decreases overrides
  {
    merged := base;
    var todo := overrides.fields.Keys;
    NoneMerged(base, overrides);
    while todo != {}
      invariant Partly(base, overrides, todo, merged)
      decreases |todo|
    {
      var key :| key in todo;
      MergeOne(base, overrides, todo, merged, key);
      var value := overrides.fields[key];
      if key in merged.fields && merged.fields[key].Branch? && value.Branch? {
        value := MergeDicts(merged.fields[key], value);
      }
      merged := Branch(merged.fields[key := value]);
      todo := todo - {key};
    }
    MergedAll(base, overrides, merged);
  }

  lemma {:induction false} MergeWithNothing<V>(t: Tree<V>)
    requires t.Branch?
    ensures Merge(t, Branch(map[])) == t && Merge(Branch(map[]), t) == t
  {
    assert Merge(t, Branch(map[])).fields == t.fields;
    assert Merge(Branch(map[]), t).fields == t.fields;
  }

  // ----- Looking up

  function Find<V>(t: Tree<V>, path: seq<string>): Option<Tree<V>>
    decreases |path|
  {
    if path == [] then Some(t)
    else if t.Branch? && path[0] in t.fields then Find(t.fields[path[0]], path[1..])
    else None
  }

  function LeafAt<V>(t: Tree<V>, path: seq<string>): Option<V> {
    var found := Find(t, path);
    if found.Some? && found.value.Leaf? then Some(found.value.value) else None
  }

  /** The dictionary says something about the path: it holds something there, or a plain value on the way. */
  predicate Decides<V>(t: Tree<V>, path: seq<string>)
    decreases |path|
  {
    t.Leaf? || path == [] || (path[0] in t.fields && Decides(t.fields[path[0]], path[1..]))
  }

  /** On any two dictionaries, the leaf at a path is the overriding one's where that decides the path
      and the base's everywhere else. */
  lemma {:induction false} LeafOfMerge<V>(base: Tree<V>, overrides: Tree<V>, path: seq<string>)
    requires base.Branch? && overrides.Branch?
    ensures LeafAt(Merge(base, overrides), path) == if Decides(overrides, path) then LeafAt(overrides, path) else LeafAt(base, path)
    decreases |path|
  {
    if path != [] && path[0] in overrides.fields {
      var key := path[0];
      if key in base.fields && base.fields[key].Branch? && overrides.fields[key].Branch? {
        LeafOfMerge(base.fields[key], overrides.fields[key], path[1..]);
      } else {
        UndecidedIsAbsent(overrides, path);
        if key in base.fields {
          LeafIsFlat(base.fields[key], path[1..]);
        }
      }
    }
  }

  lemma {:induction false} UndecidedIsAbsent<V>(t: Tree<V>, path: seq<string>)
    ensures Find(t, path).Some? ==> Decides(t, path)
    decreases |path|
  {
    if path != [] && t.Branch? && path[0] in t.fields {
      UndecidedIsAbsent(t.fields[path[0]], path[1..]);
    }
  }

  lemma {:induction false} LeafIsFlat<V>(t: Tree<V>, path: seq<string>)
    ensures t.Leaf? && path != [] ==> Find(t, path) == None
    ensures path == [] ==> Decides(t, path)
  {
  }

  /** Two dictionaries have tables and plain values in the same places. */
  predicate Compatible<V>(a: Tree<V>, b: Tree<V>) {
    match a
    case Leaf(_) => b.Leaf?
    case Branch(fields) =>
      b.Branch? && forall key :: key in fields && key in b.fields ==> Compatible(fields[key], b.fields[key])
  }

  /** Then a path at which the base has a leaf is decided by a leaf. */
  lemma {:induction false} CompatibleDecides<V>(base: Tree<V>, overrides: Tree<V>, path: seq<string>)
    requires Compatible(base, overrides) && LeafAt(base, path).Some?
    ensures Decides(overrides, path) <==> LeafAt(overrides, path).Some?
    decreases |path|
  {
    if path != [] && overrides.Branch? && path[0] in overrides.fields {
      CompatibleDecides(base.fields[path[0]], overrides.fields[path[0]], path[1..]);
    }
  }

  // ----- Associativity

  /** No table of the first meets, past a plain value of the second, a table of the third that would
      not replace it whole. */
  ghost predicate Associates<V>(a: Tree<V>, b: Tree<V>, c: Tree<V>)
    requires a.Branch? && b.Branch? && c.Branch?
    decreases c
  {
    forall key :: key in a.fields && key in b.fields && key in c.fields && a.fields[key].Branch? && c.fields[key].Branch? ==>
      if b.fields[key].Branch? then Associates(a.fields[key], b.fields[key], c.fields[key])
      else Merge(a.fields[key], c.fields[key]) == c.fields[key]
  }

  lemma {:induction false} MergeAssociatesIff<V>(a: Tree<V>, b: Tree<V>, c: Tree<V>)
    requires a.Branch? && b.Branch? && c.Branch?
    ensures Merge(Merge(a, b), c) == Merge(a, Merge(b, c)) <==> Associates(a, b, c)
    decreases c
  {
    var left, right := Merge(Merge(a, b), c), Merge(a, Merge(b, c));
    assert left.fields.Keys == right.fields.Keys;
    forall key | key in left.fields ensures left.fields[key] == right.fields[key] <==> AssociatesAt(a, b, c, key) {
      KeyAssociates(a, b, c, key);
    }
    if Associates(a, b, c) {
      assert forall key :: key in left.fields ==> AssociatesAt(a, b, c, key);
      assert left.fields == right.fields;
    } else {
      var key :| key in a.fields && key in b.fields && key in c.fields && !AssociatesAt(a, b, c, key);
      assert left.fields[key] != right.fields[key];
    }
  }

  ghost predicate AssociatesAt<V>(a: Tree<V>, b: Tree<V>, c: Tree<V>, key: string)
    requires a.Branch? && b.Branch? && c.Branch?
  {
    key in a.fields && key in b.fields && key in c.fields && a.fields[key].Branch? && c.fields[key].Branch? ==>
      if b.fields[key].Branch? then Associates(a.fields[key], b.fields[key], c.fields[key])
      else Merge(a.fields[key], c.fields[key]) == c.fields[key]
  }

  lemma {:induction false} KeyAssociates<V>(a: Tree<V>, b: Tree<V>, c: Tree<V>, key: string)
    requires a.Branch? && b.Branch? && c.Branch? && (key in a.fields || key in b.fields || key in c.fields)
    ensures
      MergedAt(Merge(a, b), c, key) == MergedAt(a, Merge(b, c), key) <==> AssociatesAt(a, b, c, key)
    decreases c, 0
  {
    if key in a.fields && key in b.fields && key in c.fields && a.fields[key].Branch? && b.fields[key].Branch? && c.fields[key].Branch? {
      MergeAssociatesIff(a.fields[key], b.fields[key], c.fields[key]);
    }
  }

  lemma {:induction false} CompatibleAssociate<V>(a: Tree<V>, b: Tree<V>, c: Tree<V>)
    requires a.Branch? && b.Branch? && c.Branch? && Compatible(a, b) && Compatible(b, c)
    ensures Merge(Merge(a, b), c) == Merge(a, Merge(b, c))
  {
    CompatibleHelps(a, b, c);
    MergeAssociatesIff(a, b, c);
  }

  lemma {:induction false} CompatibleHelps<V>(a: Tree<V>, b: Tree<V>, c: Tree<V>)
    requires a.Branch? && b.Branch? && c.Branch? && Compatible(a, b) && Compatible(b, c)
    ensures Associates(a, b, c)
    decreases c
  {
    forall key | key in a.fields && key in b.fields && key in c.fields && a.fields[key].Branch? && c.fields[key].Branch?
      ensures b.fields[key].Branch? && Associates(a.fields[key], b.fields[key], c.fields[key])
    {
      CompatibleHelps(a.fields[key], b.fields[key], c.fields[key]);
    }
  }

  /** A table, a plain value and a table at one key do not associate. */
  lemma MergeDoesNotAlwaysAssociate<V>(v: V)
    ensures
      var a, b, c := Branch(map["x" := Branch(map["y" := Leaf(v)])]), Branch(map["x" := Leaf(v)]), Branch(map["x" := Branch(map[])]);
      Merge(Merge(a, b), c) != Merge(a, Merge(b, c))
  {
    var a, b, c := Branch(map["x" := Branch(map["y" := Leaf(v)])]), Branch(map["x" := Leaf(v)]), Branch(map["x" := Branch(map[])]);
    assert "y" in Merge(a.fields["x"], c.fields["x"]).fields;
    assert !AssociatesAt(a, b, c, "x");
    MergeAssociatesIff(a, b, c);
  }

  // ----- Assigning

  /** `_assign_nested_value`; a plain value on the way gives way to a table. */
  function Assign<V>(t: Tree<V>, path: seq<string>, value: V): (r: Tree<V>)
    requires path != [] && t.Branch?
    ensures r.Branch?
    decreases |path|
  {
    if |path| == 1 then Branch(t.fields[path[0] := Leaf(value)])
    else
      var nested := if path[0] in t.fields && t.fields[path[0]].Branch? then t.fields[path[0]] else Branch(map[]);
      Branch(t.fields[path[0] := Assign(nested, path[1..], value)])
  }

  lemma {:induction false} AssignSets<V>(t: Tree<V>, path: seq<string>, value: V)
    requires path != [] && t.Branch?
    ensures LeafAt(Assign(t, path, value), path) == Some(value)
    decreases |path|
  {
    if |path| > 1 {
      var nested := if path[0] in t.fields && t.fields[path[0]].Branch? then t.fields[path[0]] else Branch(map[]);
      AssignSets(nested, path[1..], value);
    } else {
      assert Find(Leaf(value), path[1..]) == Some(Leaf(value));
    }
  }

  predicate Apart(p: seq<string>, q: seq<string>) {
    !(p <= q) && !(q <= p)
  }

  lemma {:induction false} AssignKeeps<V>(t: Tree<V>, path: seq<string>, value: V, other: seq<string>)
    requires path != [] && t.Branch? && Apart(path, other)
    ensures LeafAt(Assign(t, path, value), other) == LeafAt(t, other)
    decreases |path|
  {
    if path[0] == other[0] {
      ApartBelow(path, other);
      var nested := if path[0] in t.fields && t.fields[path[0]].Branch? then t.fields[path[0]] else Branch(map[]);
      AssignKeeps(nested, path[1..], value, other[1..]);
      if path[0] in t.fields {
        LeafIsFlat(t.fields[path[0]], other[1..]);
      }
    }
  }

  lemma ApartBelow(p: seq<string>, q: seq<string>)
    requires Apart(p, q) && p[0] == q[0]
    ensures |p| > 1 && |q| > 1 && Apart(p[1..], q[1..])
  {
    assert p == [p[0]] + p[1..] && q == [q[0]] + q[1..];
  }
}
