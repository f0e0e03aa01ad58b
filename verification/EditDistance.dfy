/** The adjacent-transposition-aware edit distance of the CLI, and the
    "did you mean" choice that rests on it.

    The independent meaning is a script: a sequence of edits whose source sides
    concatenate to one token and whose target sides concatenate to the other.
    A pair of swapped neighbours is one edit, and no edit touches the output of
    another, so this is the optimal-string-alignment distance. */
module EditDistance {
  import opened Options
  import opened Ordering

  // ----- Scripts: what an edit distance means

  datatype Edit =
    | Keep(c: char)
    | Replace(a: char, b: char)
    | Delete(a: char)
    | Insert(b: char)
    | Swap(a: char, b: char)
  {
    function Source(): string {
      match this
      case Keep(c) => [c]
      case Replace(a, _) => [a]
      case Delete(a) => [a]
      case Insert(_) => []
      case Swap(a, b) => [a, b]
    }

    function Target(): string {
      match this
      case Keep(c) => [c]
      case Replace(_, b) => [b]
      case Delete(_) => []
      case Insert(b) => [b]
      case Swap(a, b) => [b, a]
    }

    function Cost(): nat {
      if Keep? then 0 else 1
    }

    function Inverse(): Edit {
      match this
      case Keep(c) => Keep(c)
      case Replace(a, b) => Replace(b, a)
      case Delete(a) => Insert(a)
      case Insert(b) => Delete(b)
      case Swap(a, b) => Swap(b, a)
    }
  }

  function ScriptSource(script: seq<Edit>): string {
    if script == [] then [] else ScriptSource(script[..|script| - 1]) + script[|script| - 1].Source()
  }

  function ScriptTarget(script: seq<Edit>): string {
    if script == [] then [] else ScriptTarget(script[..|script| - 1]) + script[|script| - 1].Target()
  }

  function ScriptCost(script: seq<Edit>): nat {
    if script == [] then 0 else ScriptCost(script[..|script| - 1]) + script[|script| - 1].Cost()
  }

  ghost predicate Transforms(script: seq<Edit>, x: string, y: string) {
    ScriptSource(script) == x && ScriptTarget(script) == y
  }

  /** `d` is the least cost of a script from `x` to `y`. */
  ghost predicate IsLeastCost(x: string, y: string, d: nat) {
    && (exists script :: Transforms(script, x, y) && ScriptCost(script) == d)
    && (forall script :: Transforms(script, x, y) ==> d <= ScriptCost(script))
  }

  // ----- The recurrence the table follows

  function Min(a: int, b: int): int {
    if b < a then b else a
  }

  predicate EndsSwapped(x: string, y: string) {
    && |x| > 1 && |y| > 1
    && x[|x| - 1] == y[|y| - 2]
    && x[|x| - 2] == y[|y| - 1]
  }

  function Distance(x: string, y: string): nat
    decreases |x| + |y|
  {
    if x == [] then |y|
    else if y == [] then |x|
    else
      var x', y' := x[..|x| - 1], y[..|y| - 1];
      var plain := Min(Min(Distance(x', y) + 1, Distance(x, y') + 1),
                       Distance(x', y') + if x[|x| - 1] != y[|y| - 1] then 1 else 0);
      if EndsSwapped(x, y)
      then Min(plain, Distance(x[..|x| - 2], y[..|y| - 2]) + 1)
      else plain
  }

  /** No script is cheaper than the recurrence. */
  lemma {:induction false} DistanceIsLowerBound(script: seq<Edit>)
    ensures Distance(ScriptSource(script), ScriptTarget(script)) <= ScriptCost(script)
  {
    if script != [] {
      var rest, e := script[..|script| - 1], script[|script| - 1];
      DistanceIsLowerBound(rest);
      AppendEdit(ScriptSource(rest), ScriptTarget(rest), e);
    }
  }

  /** One more edit raises the distance by at most the edit's cost. */
  lemma {:induction false} AppendEdit(x: string, y: string, e: Edit)
    ensures Distance(x + e.Source(), y + e.Target()) <= Distance(x, y) + e.Cost()
  {
    var x', y' := x + e.Source(), y + e.Target();
    match e
    case Keep(_) | Replace(_, _) =>
      assert x'[..|x'| - 1] == x && y'[..|y'| - 1] == y;
    case Delete(_) =>
      assert x'[..|x'| - 1] == x && y' == y;
      EmptySides(x', []);
    case Insert(_) =>
      assert x' == x && y'[..|y'| - 1] == y;
    case Swap(_, _) =>
      assert x'[..|x'| - 2] == x && y'[..|y'| - 2] == y;
      assert EndsSwapped(x', y');
  }

  /** Appending one edit to a script extends both sides and the cost. */
  lemma {:induction false} AppendedScript(rest: seq<Edit>, e: Edit)
    ensures ScriptSource(rest + [e]) == ScriptSource(rest) + e.Source()
    ensures ScriptTarget(rest + [e]) == ScriptTarget(rest) + e.Target()
    ensures ScriptCost(rest + [e]) == ScriptCost(rest) + e.Cost()
  {
    assert (rest + [e])[..|rest|] == rest;
  }

  lemma {:induction false} EmptySides(x: string, y: string)
    ensures y == [] ==> Distance(x, y) == |x|
    ensures x == [] ==> Distance(x, y) == |y|
  {
  }

  /** A deletion or an insertion that accounts for the distance. */
  lemma LastSideEdit(x: string, y: string, deletes: bool) returns (x': string, y': string, e: Edit)
    requires if deletes then x != [] && Distance(x, y) == Distance(x[..|x| - 1], y) + 1
             else y != [] && Distance(x, y) == Distance(x, y[..|y| - 1]) + 1
    ensures x == x' + e.Source() && y == y' + e.Target()
    ensures |x'| + |y'| < |x| + |y|
    ensures Distance(x, y) == Distance(x', y') + e.Cost()
  {
    hide Distance;
    if deletes {
      Unsnoc(x);
      x', y', e := x[..|x| - 1], y, Delete(x[|x| - 1]);
    } else {
      Unsnoc(y);
      x', y', e := x, y[..|y| - 1], Insert(y[|y| - 1]);
    }
  }

  /** The branch the recurrence took, as the last edit of a script. */
  lemma LastEdit(x: string, y: string) returns (x': string, y': string, e: Edit)
    requires x != [] || y != []
    ensures x == x' + e.Source() && y == y' + e.Target()
    ensures |x'| + |y'| < |x| + |y|
    ensures Distance(x, y) == Distance(x', y') + e.Cost()
  {
    hide Distance;
    EmptySides(x, y);
    if y == [] {
      EmptySides(x[..|x| - 1], y);
      x', y', e := LastSideEdit(x, y, true);
    } else if x == [] {
      EmptySides(x, y[..|y| - 1]);
      x', y', e := LastSideEdit(x, y, false);
    } else if Distance(x, y) == Distance(x[..|x| - 1], y) + 1 {
      x', y', e := LastSideEdit(x, y, true);
    } else if Distance(x, y) == Distance(x, y[..|y| - 1]) + 1 {
      x', y', e := LastSideEdit(x, y, false);
    } else {
      x', y', e := LastDiagonalEdit(x, y);
    }
  }

  lemma LastDiagonalEdit(x: string, y: string) returns (x': string, y': string, e: Edit)
    requires x != [] && y != []
    requires Distance(x, y) != Distance(x[..|x| - 1], y) + 1
    requires Distance(x, y) != Distance(x, y[..|y| - 1]) + 1
    ensures x == x' + e.Source() && y == y' + e.Target()
    ensures |x'| + |y'| < |x| + |y|
    ensures Distance(x, y) == Distance(x', y') + e.Cost()
  {
    var a, b := x[|x| - 1], y[|y| - 1];
    Unsnoc(x);
    Unsnoc(y);
    if DiagonalBranch(x, y) {
      x', y' := x[..|x| - 1], y[..|y| - 1];
      e := if a != b then Replace(a, b) else Keep(a);
    } else {
      SwapBranch(x, y);
      x', y', e := x[..|x| - 2], y[..|y| - 2], Swap(x[|x| - 2], a);
    }
  }

  lemma Unsnoc(x: string)
    requires x != []
    ensures x == x[..|x| - 1] + [x[|x| - 1]]
    ensures |x| > 1 ==> x == x[..|x| - 2] + [x[|x| - 2], x[|x| - 1]]
  {}

  ghost predicate DiagonalBranch(x: string, y: string)
    requires x != [] && y != []
  {
    Distance(x, y) ==
    Distance(x[..|x| - 1], y[..|y| - 1]) + if x[|x| - 1] != y[|y| - 1] then 1 else 0
  }

  lemma {:induction false} SwapBranch(x: string, y: string)
    requires x != [] && y != [] && !DiagonalBranch(x, y)
    requires Distance(x, y) != Distance(x[..|x| - 1], y) + 1
    requires Distance(x, y) != Distance(x, y[..|y| - 1]) + 1
    ensures EndsSwapped(x, y)
    ensures Distance(x, y) == Distance(x[..|x| - 2], y[..|y| - 2]) + 1
  {}

  /** The recurrence is achieved by a script. */
  lemma {:induction false} DistanceIsAchieved(x: string, y: string) returns (script: seq<Edit>)
    ensures Transforms(script, x, y) && ScriptCost(script) == Distance(x, y)
    decreases |x| + |y|
  {
    if x == [] && y == [] {
      script := [];
    } else {
      var x', y', e := LastEdit(x, y);
      var rest := DistanceIsAchieved(x', y');
      AppendedScript(rest, e);
      script := rest + [e];
    }
  }

  /** The table's recurrence is the least cost over all scripts. */
  lemma {:induction false} DistanceIsLeastCost(x: string, y: string)
    ensures IsLeastCost(x, y, Distance(x, y))
  {
    var best := DistanceIsAchieved(x, y);
    forall script | Transforms(script, x, y)
      ensures Distance(x, y) <= ScriptCost(script)
    {
      DistanceIsLowerBound(script);
    }
  }

  // ----- The table

  /** What the cell `[i, j]` of the table holds: the distance of two prefixes. */
  ghost function Cell(left: string, right: string, i: nat, j: nat): nat
    requires i <= |left| && j <= |right|
  {
    Distance(left[..i], right[..j])
  }

  lemma CellEdges(left: string, right: string)
    ensures forall i :: 0 <= i <= |left| ==> Cell(left, right, i, 0) == i
    ensures forall j :: 0 <= j <= |right| ==> Cell(left, right, 0, j) == j
  {
    forall i | 0 <= i <= |left| ensures Cell(left, right, i, 0) == i {
      EmptySides(left[..i], []);
    }
  }

  lemma CellRecurrence(left: string, right: string, i: nat, j: nat)
    requires 1 <= i <= |left| && 1 <= j <= |right|
    ensures Cell(left, right, i, j) ==
      var plain := Min(Min(Cell(left, right, i - 1, j) + 1, Cell(left, right, i, j - 1) + 1),
                       Cell(left, right, i - 1, j - 1) + if left[i - 1] != right[j - 1] then 1 else 0);
      if i > 1 && j > 1 && left[i - 1] == right[j - 2] && left[i - 2] == right[j - 1]
      then Min(plain, Cell(left, right, i - 2, j - 2) + 1)
      else plain
  {
    var x, y := left[..i], right[..j];
    assert x[..i - 1] == left[..i - 1] && y[..j - 1] == right[..j - 1];
    if i > 1 && j > 1 {
      assert x[..i - 2] == left[..i - 2] && y[..j - 2] == right[..j - 2];
    }
  }

  /** The rows above `i`, and the cells before `j` in row `i`, hold what they stand for,
      as does the left edge. */
  ghost predicate FilledTo(distances: array2<nat>, left: string, right: string, i: nat, j: nat)
    reads distances
  {
    && distances.Length0 == |left| + 1 && distances.Length1 == |right| + 1
    && i <= |left| + 1 && j <= |right| + 1
    && (forall p :: 0 <= p <= |left| ==> distances[p, 0] == Cell(left, right, p, 0))
    && (forall p, q :: 0 <= p < i && 0 <= q <= |right| ==> distances[p, q] == Cell(left, right, p, q))
    && (i <= |left| ==> forall q :: 0 <= q < j ==> distances[i, q] == Cell(left, right, i, q))
  }

  /** `_edit_distance`: fill the table row by row. The result is the least cost
      over all edit scripts between the two tokens. */
  method ComputeEditDistance(left: string, right: string) returns (d: nat)
    ensures IsLeastCost(left, right, d)
    ensures d == Distance(left, right)
  {
    var distances := new nat[|left| + 1, |right| + 1]((_, _) => 0);
    CellEdges(left, right);
    for i := 0 to |left| + 1
      invariant forall p :: 0 <= p < i ==> distances[p, 0] == Cell(left, right, p, 0)
    {
      distances[i, 0] := i;
    }
    for j := 0 to |right| + 1
      invariant forall p :: 0 <= p <= |left| ==> distances[p, 0] == Cell(left, right, p, 0)
      invariant forall q :: 0 <= q < j ==> distances[0, q] == Cell(left, right, 0, q)
    {
      distances[0, j] := j;
    }
    for i := 1 to |left| + 1
      invariant FilledTo(distances, left, right, i, 0)
    {
      for j := 1 to |right| + 1
        invariant FilledTo(distances, left, right, i, j)
      {
        FillCell(distances, left, right, i, j);
      }
    }
    d := distances[|left|, |right|];
    assert left[..|left|] == left && right[..|right|] == right;
    assert d == Cell(left, right, |left|, |right|);
    DistanceIsLeastCost(left, right);
  }

  /** The body of the table's inner loop. */
  method FillCell(distances: array2<nat>, left: string, right: string, i: nat, j: nat)
    requires 1 <= i <= |left| && 1 <= j <= |right|
    requires FilledTo(distances, left, right, i, j)
    modifies distances
    ensures FilledTo(distances, left, right, i, j + 1)
  {
    CellRecurrence(left, right, i, j);
    distances[i, j] := Min(Min(distances[i - 1, j] + 1, distances[i, j - 1] + 1),
                           distances[i - 1, j - 1] + if left[i - 1] != right[j - 1] then 1 else 0);
    if i > 1 && j > 1 && left[i - 1] == right[j - 2] && left[i - 2] == right[j - 1] {
      distances[i, j] := Min(distances[i, j], distances[i - 2, j - 2] + 1);
    }
  }

  // ----- What the distance promises

  function InverseScript(script: seq<Edit>): seq<Edit> {
    if script == [] then [] else InverseScript(script[..|script| - 1]) + [script[|script| - 1].Inverse()]
  }

  lemma InverseSwapsSides(edit: Edit)
    ensures edit.Inverse().Source() == edit.Target() && edit.Inverse().Target() == edit.Source()
    ensures edit.Inverse().Cost() == edit.Cost()
  {
  }

  lemma {:induction false} InverseScriptSwapsSides(script: seq<Edit>)
    ensures ScriptSource(InverseScript(script)) == ScriptTarget(script)
    ensures ScriptTarget(InverseScript(script)) == ScriptSource(script)
    ensures ScriptCost(InverseScript(script)) == ScriptCost(script)
  {
    hide Edit.Inverse, Edit.Source, Edit.Target, Edit.Cost;
    if script != [] {
      InverseScriptSwapsSides(script[..|script| - 1]);
      InverseSwapsSides(script[|script| - 1]);
      AppendedScript(InverseScript(script[..|script| - 1]), script[|script| - 1].Inverse());
    }
  }

  lemma {:induction false} DistanceIsSymmetric(x: string, y: string)
    ensures Distance(x, y) == Distance(y, x)
  {
    var there := DistanceIsAchieved(x, y);
    var back := DistanceIsAchieved(y, x);
    InverseScriptSwapsSides(there);
    InverseScriptSwapsSides(back);
    DistanceIsLowerBound(InverseScript(there));
    DistanceIsLowerBound(InverseScript(back));
  }

  lemma {:induction false} ScriptSides(script: seq<Edit>)
    ensures ScriptCost(script) == 0 ==> ScriptSource(script) == ScriptTarget(script)
    ensures |ScriptSource(script)| - |ScriptTarget(script)| <= ScriptCost(script)
    ensures |ScriptTarget(script)| - |ScriptSource(script)| <= ScriptCost(script)
  {
    if script != [] {
      ScriptSides(script[..|script| - 1]);
    }
  }

  lemma {:induction false} DistanceToItself(x: string)
    ensures Distance(x, x) == 0
  {
    if x != [] {
      DistanceToItself(x[..|x| - 1]);
    }
  }

  lemma {:induction false} DistanceIsZeroIffEqual(x: string, y: string)
    ensures Distance(x, y) == 0 <==> x == y
  {
    var script := DistanceIsAchieved(x, y);
    ScriptSides(script);
    DistanceToItself(x);
  }

  lemma {:induction false} DistanceAtMostLonger(x: string, y: string)
    ensures Distance(x, y) <= if |x| < |y| then |y| else |x|
  {
    if x != [] && y != [] {
      DistanceAtMostLonger(x[..|x| - 1], y[..|y| - 1]);
    }
  }

  /** The distance lies between the difference of the lengths and the longer length. */
  lemma {:induction false} DistanceBounds(x: string, y: string)
    ensures |x| - |y| <= Distance(x, y) && |y| - |x| <= Distance(x, y)
    ensures Distance(x, y) <= if |x| < |y| then |y| else |x|
  {
    var script := DistanceIsAchieved(x, y);
    ScriptSides(script);
    DistanceAtMostLonger(x, y);
  }

  /** Dropping the last character of one side lowers the distance by at most one. */
  lemma {:induction false} DropLast(x: string, y: string)
    requires x != []
    ensures Distance(x[..|x| - 1], y) <= Distance(x, y) + 1
    decreases |x| + |y|
  {
    var x0 := x[..|x| - 1];
    if y == [] {
      EmptySides(x0, []);
    } else {
      var x', y', e := LastEdit(x, y);
      Unsnoc(x);
      if e.Insert? {
        assert x' == x && y' + e.Target() == y && x0 + e.Source() == x0;
        DropLast(x, y');
        AppendEdit(x0, y', e);
      } else {
        DropLastConsumed(x', y', e);
        assert x' + e.Source()[..|e.Source()| - 1] == x0;
      }
    }
  }

  lemma {:induction false} DropLastConsumed(x: string, y: string, e: Edit)
    requires !e.Insert?
    ensures Distance(x + e.Source()[..|e.Source()| - 1], y + e.Target()) <= Distance(x, y) + e.Cost() + 1
  {
    ghost var kept, added := e.Source()[..|e.Source()| - 1], e.Target();
    match e
    case Delete(_) =>
      assert x + kept == x && y + added == y;
    case Swap(a, b) =>
      DropLastOfSwap(x, y, a, b);
      assert kept == [a];
    case Keep(c) =>
      AppendInsert(x, y, c);
      assert x + kept == x;
    case Replace(_, b) =>
      AppendInsert(x, y, b);
      assert x + kept == x;
  }

  lemma {:induction false} AppendInsert(x: string, y: string, b: char)
    ensures Distance(x, y + [b]) <= Distance(x, y) + 1
  {
    AppendEdit(x, y, Insert(b));
    assert x + Insert(b).Source() == x;
  }

  lemma {:induction false} DropLastOfSwap(x: string, y: string, a: char, b: char)
    ensures Distance(x + [a], y + [b, a]) <= Distance(x, y) + 1
  {
    AppendInsert(x, y, b);
    AppendEdit(x, y + [b], Keep(a));
    assert y + [b] + [a] == y + [b, a];
  }

  /** Horizontal and vertical neighbours in the table differ by at most one. */
  lemma {:induction false} NeighboursDifferByAtMostOne(x: string, y: string, c: char)
    ensures -1 <= Distance(x + [c], y) - Distance(x, y) <= 1
    ensures -1 <= Distance(x, y + [c]) - Distance(x, y) <= 1
  {
    DistanceIsSymmetric(x, y);
    DistanceIsSymmetric(x, y + [c]);
    NeighbourBelow(x, y, c);
    NeighbourBelow(y, x, c);
  }

  lemma {:induction false} NeighbourBelow(x: string, y: string, c: char)
    ensures -1 <= Distance(x + [c], y) - Distance(x, y) <= 1
  {
    AppendEdit(x, y, Delete(c));
    assert y + Delete(c).Target() == y;
    assert (x + [c])[..|x|] == x;
    DropLast(x + [c], y);
  }

  lemma {:induction false} CommonLastSwap(x: string, y: string, c: char, x': string, y': string, a: char, b: char)
    requires x + [c] == x' + [a, b] && y + [c] == y' + [b, a]
    ensures Distance(x, y) <= Distance(x', y')
  {
    LastsOf(x, c, x', a, b);
    LastsOf(y, c, y', b, a);
    AppendEdit(x', y', Keep(c));
  }

  lemma LastsOf(x: string, c: char, x': string, a: char, b: char)
    requires x + [c] == x' + [a, b]
    ensures b == c && x == x' + [a]
  {
    assert (x + [c])[|x|] == c && (x' + [a, b])[..|x|] == x' + [a];
  }

  /** A common last character cancels. */
  lemma {:induction false} CommonLastCancels(x: string, y: string, c: char)
    ensures Distance(x + [c], y + [c]) == Distance(x, y)
  {
    AppendEdit(x, y, Keep(c));
    var xc, yc := x + [c], y + [c];
    var x', y', e := LastEdit(xc, yc);
    match e
    case Delete(_) =>
      assert x' == x && y' == yc;
      NeighboursDifferByAtMostOne(x, y, c);
    case Insert(_) =>
      assert x' == xc && y' == y;
      NeighboursDifferByAtMostOne(x, y, c);
    case Keep(_) =>
      assert x' == x && y' == y;
    case Replace(_, _) =>
    case Swap(a, b) =>
      CommonLastSwap(x, y, c, x', y', a, b);
  }

  // ----- Did you mean

  predicate IsCommandWord(word: string) {
    && word != []
    && 'a' <= word[0] <= 'z'
    && forall c :: c in word ==> 'a' <= c <= 'z' || c == '-'
  }

  /** The key `min` compares: first the distance to the prompt, then the command. */
  ghost predicate NoFarther(prompt: string, a: string, b: string) {
    || Distance(prompt, a) < Distance(prompt, b)
    || (Distance(prompt, a) == Distance(prompt, b) && AtMost(a, b))
  }

  ghost predicate IsClosest(prompt: string, commands: set<string>, c: string) {
    c in commands && forall d :: d in commands ==> NoFarther(prompt, c, d)
  }

  lemma {:induction false} ClosestExists(prompt: string, commands: set<string>) returns (c: string)
    requires commands != {}
    ensures IsClosest(prompt, commands, c)
    decreases |commands|
  {
    c :| c in commands;
    if commands == {c} {
      AtMostIsTotal(c, c);
    } else {
      assert commands == (commands - {c}) + {c};
      var best := ClosestExists(prompt, commands - {c});
      AtMostIsTotal(c, best);
      AtMostIsTotal(c, c);
      if NoFarther(prompt, c, best) {
        forall d | d in commands ensures NoFarther(prompt, c, d) {
          if d != c && AtMost(c, best) && AtMost(best, d) {
            AtMostIsTransitive(c, best, d);
          }
        }
      } else {
        c := best;
      }
    }
  }

  lemma ClosestIsUnique(prompt: string, commands: set<string>, c: string, d: string)
    requires IsClosest(prompt, commands, c) && IsClosest(prompt, commands, d)
    ensures c == d
  {
    AtMostIsAntisymmetric(c, d);
  }

  /** What the positional prompt check ends in: it returns, `min` fails because there
      are no subcommands, or it reports an unknown subcommand. */
  datatype PromptCheck = Accepted | NoSubcommands | Unknown(suggestion: Option<string>)

  ghost function CheckPositionalPrompt(prompt: Option<string>, subcommands: set<string>): PromptCheck {
    if prompt.None? || prompt.value in subcommands || !IsCommandWord(prompt.value) then Accepted
    else if subcommands == {} then NoSubcommands
    else
      ClosestIsThere(prompt.value, subcommands);
      var closest :| IsClosest(prompt.value, subcommands, closest);
      Unknown(if Distance(prompt.value, closest) <= 2 then Some(closest) else None)
  }

  lemma ClosestIsThere(prompt: string, commands: set<string>)
    requires commands != {}
    ensures exists c :: IsClosest(prompt, commands, c)
  {
    var c := ClosestExists(prompt, commands);
  }

  /** A rejected prompt draws a suggestion exactly when some subcommand is within two
      edits, and the suggestion is the nearest one, the least in string order on a tie. */
  lemma {:induction false} SuggestionIsNearestWithinTwo(prompt: string, subcommands: set<string>)
    requires CheckPositionalPrompt(Some(prompt), subcommands).Unknown?
    ensures
      var suggestion := CheckPositionalPrompt(Some(prompt), subcommands).suggestion;
      && (suggestion.Some? <==> exists c :: c in subcommands && Distance(prompt, c) <= 2)
      && (suggestion.Some? ==>
            && IsClosest(prompt, subcommands, suggestion.value)
            && 1 <= Distance(prompt, suggestion.value) <= 2)
  {
    var closest := ClosestExists(prompt, subcommands);
    forall c | IsClosest(prompt, subcommands, c) ensures c == closest {
      ClosestIsUnique(prompt, subcommands, c, closest);
    }
    DistanceIsZeroIffEqual(prompt, closest);
    assert forall c :: c in subcommands ==> NoFarther(prompt, closest, c);
  }

  /** When a prompt is rejected: it is no subcommand, starts with a small letter, and is made of small letters and
      hyphens alone. Anything else is a prompt, the empty one too. */
  lemma RejectedIff(prompt: Option<string>, subcommands: set<string>)
    ensures
      CheckPositionalPrompt(prompt, subcommands) == Accepted <==>
        match prompt
        case None => true
        case Some(word) =>
          || word in subcommands || word == []
          || !(97 <= word[0] as int <= 122)
          || exists i :: 0 <= i < |word| && !(97 <= word[i] as int <= 122) && word[i] as int != 45
    ensures CheckPositionalPrompt(prompt, subcommands) == NoSubcommands ==> subcommands == {}
  {
    if prompt.Some? && (exists i :: 0 <= i < |prompt.value| && !(97 <= prompt.value[i] as int <= 122) && prompt.value[i] as int != 45) {
      var i :| 0 <= i < |prompt.value| && !(97 <= prompt.value[i] as int <= 122) && prompt.value[i] as int != 45;
      assert prompt.value[i] in prompt.value;
    }
  }
}
