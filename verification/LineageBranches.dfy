/** What the guides of the drawn lines show: which lines have a later sibling. */
module LineageBranches {
  import opened Options
  import opened LineageTree
  import opened LineageOrder

  /** The nearest earlier visit one level up. */
  ghost predicate IsAbove(spots: seq<Spot>, j: nat, i: nat) {
    j < i < |spots| && |spots[j].trail| + 1 == |spots[i].trail| && forall k :: j < k < i ==> |spots[k].trail| >= |spots[i].trail|
  }

  ghost predicate HasLater(spots: seq<Spot>, i: nat) {
    exists j: nat :: AreSiblings(spots, i, j)
  }

  /** The flags of a visit are those of the visit above it and one that says whether it is the last. */
  ghost predicate FlagsRight(spots: seq<Spot>, i: nat)
    requires i < |spots|
  {
    var lasts := spots[i].lasts;
    && lasts != [] && (lasts[|lasts| - 1] <==> !HasLater(spots, i))
    && (forall j: nat :: IsAbove(spots, j, i) ==> lasts[..|lasts| - 1] == spots[j].lasts)
  }

  /** Visits at some depth or below; those at the depth continue some flags. */
  ghost predicate Marked(spots: seq<Spot>, depth: nat, base: seq<bool>) {
    forall i :: 0 <= i < |spots| ==>
      && |spots[i].trail| >= depth && FlagsRight(spots, i) && spots[i].lasts != []
      && (|spots[i].trail| == depth ==> spots[i].lasts[..|spots[i].lasts| - 1] == base)
  }

  /** The visits of one child: itself, which is last or not, and what is below it. */
  ghost predicate MarkedBelow(spots: seq<Spot>, depth: nat, lasts: seq<bool>) {
    && spots != [] && |spots[0].trail| == depth && spots[0].lasts == lasts
    && (forall i :: 0 < i < |spots| ==> |spots[i].trail| > depth && FlagsRight(spots, i))
  }

  lemma HeadAbove(head: Spot, below: seq<Spot>)
    requires Marked(below, |head.trail| + 1, head.lasts)
    ensures MarkedBelow([head] + below, |head.trail|, head.lasts)
  {
    hide FlagsRight;
    var spots := [head] + below;
    forall i | 0 < i < |spots| ensures |spots[i].trail| > |head.trail| && FlagsRight(spots, i) {
      assert spots[i] == below[i - 1] && FlagsRight(below, i - 1);
      BehindHead(head, below, i - 1);
    }
  }

  lemma BehindHead(head: Spot, below: seq<Spot>, i: nat)
    requires i < |below| && FlagsRight(below, i) && |below[i].trail| > |head.trail|
    requires |below[i].trail| == |head.trail| + 1 ==> below[i].lasts[..|below[i].lasts| - 1] == head.lasts
    ensures FlagsRight([head] + below, i + 1)
  {
    hide FlagsRight, HasLater;
    var spots := [head] + below;
    LaterBehind([head], below, i);
    FlagsMean(below, i);
    forall j: nat | IsAbove(spots, j, i + 1)
      ensures spots[i + 1].lasts[..|spots[i + 1].lasts| - 1] == spots[j].lasts
    {
      AboveBehind([head], below, j, i);
    }
    FlagsAre(spots, i + 1);
  }

  lemma FlagsMean(spots: seq<Spot>, i: nat)
    requires i < |spots| && FlagsRight(spots, i)
    ensures spots[i].lasts != [] && (spots[i].lasts[|spots[i].lasts| - 1] <==> !HasLater(spots, i))
    ensures forall j: nat :: IsAbove(spots, j, i) ==> spots[i].lasts[..|spots[i].lasts| - 1] == spots[j].lasts
  {
  }

  lemma FlagsAre(spots: seq<Spot>, i: nat)
    requires i < |spots| && spots[i].lasts != [] && (spots[i].lasts[|spots[i].lasts| - 1] <==> !HasLater(spots, i))
    requires forall j: nat :: IsAbove(spots, j, i) ==> spots[i].lasts[..|spots[i].lasts| - 1] == spots[j].lasts
    ensures FlagsRight(spots, i)
  {
  }

  /** Nothing before a stretch of visits changes which of them have later siblings. */
  lemma LaterBehind(a: seq<Spot>, b: seq<Spot>, i: nat)
    requires i < |b|
    ensures HasLater(a + b, |a| + i) <==> HasLater(b, i)
  {
    var c, n := a + b, |a| + i;
    if j: nat :| AreSiblings(c, n, j) {
      Shifted(a, b, n, j);
      assert AreSiblings(b, i, j - |a|);
    }
    if j: nat :| AreSiblings(b, i, j) {
      assert forall k :: n < k < |a| + j ==> c[k] == b[k - |a|];
      assert AreSiblings(c, n, |a| + j);
    }
  }

  lemma AboveBehind(a: seq<Spot>, b: seq<Spot>, j: nat, i: nat)
    requires i < |b| && IsAbove(a + b, j, |a| + i)
    ensures j >= |a| ==> IsAbove(b, j - |a|, i)
    ensures j < |a| ==> |a[j].trail| + 1 == |b[i].trail| && forall k :: 0 <= k < i ==> |b[k].trail| >= |b[i].trail|
  {
    if j >= |a| {
      forall k | j - |a| < k < i ensures |b[k].trail| >= |b[i].trail| {
        assert (a + b)[|a| + k] == b[k];
      }
    } else {
      forall k | 0 <= k < i ensures |b[k].trail| >= |b[i].trail| {
        assert (a + b)[|a| + k] == b[k];
      }
    }
  }

  lemma NotBeyond(a: seq<Spot>, b: seq<Spot>, i: nat, j: nat)
    requires i < |a| && (b != [] ==> |b[0].trail| < |a[i].trail|) && AreSiblings(a + b, i, j)
    ensures j < |a|
  {
    if b != [] {
      assert (a + b)[|a|] == b[0];
    }
  }

  /** What follows at a smaller depth changes nothing for deeper visits. */
  lemma LaterBefore(a: seq<Spot>, b: seq<Spot>, i: nat)
    requires i < |a| && (b != [] ==> |b[0].trail| < |a[i].trail|)
    ensures HasLater(a + b, i) <==> HasLater(a, i)
  {
    if j: nat :| AreSiblings(a + b, i, j) {
      NotBeyond(a, b, i, j);
      Shifted(a, b, i, j);
    }
    if j: nat :| AreSiblings(a, i, j) {
      assert forall k :: i < k <= j ==> (a + b)[k] == a[k];
      assert AreSiblings(a + b, i, j);
    }
  }

  lemma BlocksMarked(first: seq<Spot>, rest: seq<Spot>, depth: nat, base: seq<bool>)
    requires MarkedBelow(first, depth, base + [rest == []]) && Marked(rest, depth, base)
    requires rest != [] ==> |rest[0].trail| == depth
    ensures Marked(first + rest, depth, base)
  {
    hide FlagsRight, HasLater, IsAbove;
    var spots := first + rest;
    assert (base + [rest == []])[..|base|] == base;
    forall i | 0 <= i < |spots|
      ensures |spots[i].trail| >= depth && FlagsRight(spots, i) && spots[i].lasts != []
      ensures |spots[i].trail| == depth ==> spots[i].lasts[..|spots[i].lasts| - 1] == base
    {
      if i == 0 {
        HeadOfBlocks(first, rest, depth, base);
      } else if i < |first| {
        assert spots[i] == first[i] && FlagsRight(first, i);
        FlagsMean(first, i);
        InsideFirst(first, rest, i);
      } else {
        assert spots[i] == rest[i - |first|] && FlagsRight(rest, i - |first|);
        InsideRest(first, rest, i - |first|, depth);
      }
    }
  }

  lemma HeadOfBlocks(first: seq<Spot>, rest: seq<Spot>, depth: nat, base: seq<bool>)
    requires MarkedBelow(first, depth, base + [rest == []]) && (rest != [] ==> |rest[0].trail| == depth)
    ensures FlagsRight(first + rest, 0)
  {
    var spots := first + rest;
    if rest != [] {
      assert spots[|first|] == rest[0];
      assert forall k :: 0 < k < |first| ==> spots[k] == first[k];
      assert AreSiblings(spots, 0, |first|);
    } else {
      assert spots == first;
    }
  }

  lemma InsideFirst(first: seq<Spot>, rest: seq<Spot>, i: nat)
    requires 0 < i < |first| && FlagsRight(first, i) && (rest != [] ==> |rest[0].trail| < |first[i].trail|)
    ensures FlagsRight(first + rest, i)
  {
    hide FlagsRight, HasLater;
    var spots := first + rest;
    FlagsMean(first, i);
    LaterBefore(first, rest, i);
    forall j: nat | IsAbove(spots, j, i) ensures spots[i].lasts[..|spots[i].lasts| - 1] == spots[j].lasts {
      assert forall k :: j <= k <= i ==> spots[k] == first[k];
      assert IsAbove(first, j, i);
    }
    FlagsAre(spots, i);
  }

  lemma InsideRest(first: seq<Spot>, rest: seq<Spot>, i: nat, depth: nat)
    requires i < |rest| && FlagsRight(rest, i) && |rest[0].trail| == depth && |rest[i].trail| >= depth
    requires forall k :: 0 <= k < |first| ==> |first[k].trail| >= depth
    ensures FlagsRight(first + rest, |first| + i)
  {
    hide FlagsRight, HasLater;
    var spots := first + rest;
    FlagsMean(rest, i);
    LaterBehind(first, rest, i);
    forall j: nat | IsAbove(spots, j, |first| + i)
      ensures spots[|first| + i].lasts[..|spots[|first| + i].lasts| - 1] == spots[j].lasts
    {
      AboveBehind(first, rest, j, i);
      assert j >= |first| ==> spots[j] == rest[j - |first|];
      NotInFirst(first, rest, j, i, depth);
    }
    FlagsAre(spots, |first| + i);
  }

  lemma NotInFirst(first: seq<Spot>, rest: seq<Spot>, j: nat, i: nat, depth: nat)
    requires i < |rest| && |rest[0].trail| == depth && |rest[i].trail| >= depth
    requires forall k :: 0 <= k < |first| ==> |first[k].trail| >= depth
    requires IsAbove(first + rest, j, |first| + i)
    ensures j >= |first|
  {
    assert (first + rest)[|first|] == rest[0] && (first + rest)[|first| + i] == rest[i];
  }

  lemma {:induction false} SpotsMarked(edges: seq<Edge>, trail: seq<string>, kind: string, lasts: seq<bool>)
    requires trail != []
    ensures MarkedBelow(Spots(edges, trail, kind, lasts), |trail|, lasts)
    decreases Room(edges, trail), 1, 0
  {
    hide FlagsRight;
    KidSpotsMarked(edges, trail, lasts, 0);
    HeadAbove(Spot(trail, kind, lasts), KidSpots(edges, trail, lasts, 0));
  }

  lemma {:induction false} KidSpotsMarked(edges: seq<Edge>, trail: seq<string>, lasts: seq<bool>, from: nat)
    requires trail != [] && from <= |KidsAt(edges, trail)|
    ensures Marked(KidSpots(edges, trail, lasts, from), |trail| + 1, lasts)
    ensures KidSpots(edges, trail, lasts, from) == [] <==> from == |KidsAt(edges, trail)|
    ensures KidSpots(edges, trail, lasts, from) != [] ==> |KidSpots(edges, trail, lasts, from)[0].trail| == |trail| + 1
    decreases Room(edges, trail), 0, |KidsAt(edges, trail)| - from
  {
    hide FlagsRight;
    var kids := KidsAt(edges, trail);
    if from < |kids| {
      RoomFalls(edges, trail, kids[from]);
      SpotsMarked(edges, trail + [kids[from].chat], kids[from].kind, lasts + [from == |kids| - 1]);
      KidSpotsMarked(edges, trail, lasts, from + 1);
      BlocksMarked(Spots(edges, trail + [kids[from].chat], kids[from].kind, lasts + [from == |kids| - 1]),
                   KidSpots(edges, trail, lasts, from + 1), |trail| + 1, lasts);
    }
  }

  /** All the visits of the walk; a root has no flags. */
  ghost predicate ForestMarked(spots: seq<Spot>) {
    forall i :: 0 <= i < |spots| ==>
      |spots[i].trail| >= 1 && (if |spots[i].trail| == 1 then spots[i].lasts == [] else FlagsRight(spots, i))
  }

  lemma {:induction false} ForestIsMarked(edges: seq<Edge>, roots: seq<string>)
    ensures ForestMarked(Forest(edges, roots))
    ensures Forest(edges, roots) != [] ==> |Forest(edges, roots)[0].trail| == 1
  {
    hide FlagsRight;
    if roots != [] {
      var first, rest := Spots(edges, [roots[0]], "", []), Forest(edges, roots[1..]);
      SpotsMarked(edges, [roots[0]], "", []);
      ForestIsMarked(edges, roots[1..]);
      var spots := first + rest;
      forall i | 0 <= i < |spots|
        ensures |spots[i].trail| >= 1 && (if |spots[i].trail| == 1 then spots[i].lasts == [] else FlagsRight(spots, i))
      {
        if 0 < i < |first| {
          assert spots[i] == first[i];
          InsideFirst(first, rest, i);
        } else if i >= |first| {
          assert spots[i] == rest[i - |first|];
          if |spots[i].trail| > 1 {
            InsideRest(first, rest, i - |first|, 1);
          }
        }
      }
    }
  }

  // ----- The drawn lines

  /** A line has a later sibling. */
  ghost predicate Continues<R>(nodes: seq<Node<R>>, i: nat) {
    exists j: nat :: SameParent(nodes, i, j)
  }

  /** A line ends in the branch that shows whether a sibling follows, and begins with the guides of the line
      above it, whose own branch becomes a guide: open as long as siblings of it follow. */
  lemma PrefixIsDrawn<R>(origin: string, edges: seq<Edge>, rows: map<string, R>, j: nat, i: nat)
    requires NearestAbove(LineageNodes(origin, edges, rows), j, i)
    ensures
      var nodes := LineageNodes(origin, edges, rows);
      var above := nodes[j].prefix;
      nodes[i].prefix
      == (if above == "" then "" else above[..|above| - 3] + (if Continues(nodes, j) then "│  " else "   "))
         + (if Continues(nodes, i) then "├─ " else "└─ ")
  {
    hide Forest, Roots, HasLater, LineageNodes, Continues, Preorder, ForestMarked, Prefix, Guide;
    var nodes, spots := LineageNodes(origin, edges, rows), Forest(edges, Roots(origin, edges));
    ForestIsMarked(edges, Roots(origin, edges));
    ForestDepths(origin, edges, rows);
    ForestIsPreorder(edges, Roots(origin, edges));
    DeepHasParent(spots, i);
    AboveIsNearest(spots, nodes, j, i);
    ContinuesIs(spots, nodes, i);
    ContinuesIs(spots, nodes, j);
    FlagsFrom(spots, j, i);
    PrefixFrom(spots[j].lasts, spots[i].lasts);
  }

  lemma FlagsFrom(spots: seq<Spot>, j: nat, i: nat)
    requires ForestMarked(spots) && IsAbove(spots, j, i)
    ensures spots[i].lasts == spots[j].lasts + [!HasLater(spots, i)]
    ensures |spots[j].trail| == 1 <==> spots[j].lasts == []
    ensures spots[j].lasts != [] ==> (spots[j].lasts[|spots[j].lasts| - 1] <==> !HasLater(spots, j))
  {
    hide HasLater;
    assert FlagsRight(spots, i);
    var lasts := spots[i].lasts;
    assert lasts == lasts[..|lasts| - 1] + [lasts[|lasts| - 1]];
  }

  lemma PrefixFrom(above: seq<bool>, lasts: seq<bool>)
    requires lasts != [] && lasts[..|lasts| - 1] == above
    ensures
      Prefix(lasts)
      == (if above == [] then "" else Prefix(above)[..|Prefix(above)| - 3] + (if above[|above| - 1] then "   " else "│  "))
         + (if lasts[|lasts| - 1] then "└─ " else "├─ ")
    ensures Prefix(above) == "" <==> above == []
  {
    PrefixLength(above);
    if above != [] {
      BranchWidth(above);
      GuideGrows(above);
    }
  }

  lemma BranchWidth(lasts: seq<bool>)
    requires lasts != []
    ensures Prefix(lasts)[..|Prefix(lasts)| - 3] == Guide(lasts[..|lasts| - 1])
  {
    GuideGrows(lasts[..|lasts| - 1]);
  }

  lemma {:induction false} ForestDepths<R>(origin: string, edges: seq<Edge>, rows: map<string, R>)
    ensures
      var nodes, spots := LineageNodes(origin, edges, rows), Forest(edges, Roots(origin, edges));
      && |nodes| == |spots|
      && forall k :: 0 <= k < |nodes| ==> nodes[k].prefix == Prefix(spots[k].lasts) && |nodes[k].prefix| == 3 * (|spots[k].trail| - 1)
  {
    hide Forest, Roots;
    var roots := Roots(origin, edges);
    var nodes, spots := LineageNodes(origin, edges, rows), Forest(edges, roots);
    ForestHasTrails(edges, roots);
    ForestIsWellMade(edges, roots);
    forall k | 0 <= k < |nodes| ensures |nodes[k].prefix| == 3 * (|spots[k].trail| - 1) {
      assert WellMade(edges, spots[k]);
      PrefixLength(spots[k].lasts);
    }
  }

  lemma ContinuesIs<R>(spots: seq<Spot>, nodes: seq<Node<R>>, i: nat)
    requires i < |nodes| == |spots|
    requires forall k :: 0 <= k < |nodes| ==> |nodes[k].prefix| == 3 * (|spots[k].trail| - 1)
    ensures Continues(nodes, i) <==> HasLater(spots, i)
  {
    if j: nat :| SameParent(nodes, i, j) {
      assert forall k :: i <= k <= j ==> Depth(nodes[k]) == |spots[k].trail| - 1;
      assert AreSiblings(spots, i, j);
    }
    if j: nat :| AreSiblings(spots, i, j) {
      assert forall k :: i <= k <= j ==> Depth(nodes[k]) == |spots[k].trail| - 1;
      assert SameParent(nodes, i, j);
    }
  }

  lemma AboveIsNearest<R>(spots: seq<Spot>, nodes: seq<Node<R>>, j: nat, i: nat)
    requires |nodes| == |spots| && NearestAbove(nodes, j, i) && ParentBefore(spots, i)
    requires forall k :: 0 <= k < |nodes| ==> spots[k].trail != [] && |nodes[k].prefix| == 3 * (|spots[k].trail| - 1)
    ensures IsAbove(spots, j, i)
  {
    var p: nat :| IsParent(spots, p, i);
    assert |spots[p].trail| + 1 == |spots[i].trail|;
    assert |nodes[p].prefix| + 3 == |nodes[i].prefix|;
  }

  lemma DeepHasParent(spots: seq<Spot>, i: nat)
    requires Preorder(spots, 1) && i < |spots| && |spots[i].trail| > 1
    ensures ParentBefore(spots, i)
  {
  }
}
