/** The order of the drawn lines: siblings by the number of their chat, and the branches that show it. */
module LineageOrder {
  import opened Options
  import opened Ordering
  import opened LineageTree
  import Slugs

  // ----- The order of chats

  lemma {:induction false} ValueOfDecimal(n: nat)
    ensures Slugs.IsNumeral(Slugs.Decimal(n)) && ValueOf(Slugs.Decimal(n)) == n
  {
    Slugs.DecimalIsNumeral(n);
    if n >= 10 {
      ValueOfDecimal(n / 10);
      assert Slugs.Decimal(n)[..|Slugs.Decimal(n)| - 1] == Slugs.Decimal(n / 10);
    } else {
      assert Slugs.Decimal(n)[..0] == [];
    }
  }

  /** Chat ids `c1`, `c2`, ... stand in the order of their numbers, so `c2` comes before `c10`. */
  lemma {:induction false} ChatsByNumber(m: nat, n: nat)
    ensures NumberOf("c" + Slugs.Decimal(m)) == m
    ensures Precedes("c" + Slugs.Decimal(m), "c" + Slugs.Decimal(n)) <==> m <= n
  {
    NumberOfChat(m);
    NumberOfChat(n);
    if m == n {
      AtMostIsTotal("c" + Slugs.Decimal(m), "c" + Slugs.Decimal(n));
    }
  }

  lemma {:induction false} NumberOfChat(n: nat)
    ensures NumberOf("c" + Slugs.Decimal(n)) == n
  {
    ValueOfDecimal(n);
    var chat := "c" + Slugs.Decimal(n);
    assert chat[1..] == Slugs.Decimal(n) && Slugs.Decimal(n)[0] != 'c';
    assert WithoutLeadingC(chat) == WithoutLeadingC(chat[1..]) == Slugs.Decimal(n);
  }

  /** Other chats count as number 0, and equal numbers are ordered by the text. */
  lemma {:induction false} OtherChats(a: string, b: string)
    ensures !AllDigits(WithoutLeadingC(a)) ==> NumberOf(a) == 0
    ensures NumberOf(a) == NumberOf(b) ==> (Precedes(a, b) <==> AtMost(a, b))
    ensures a != [] && a[0] != 'c' ==> WithoutLeadingC(a) == a
  {
  }

  // ----- A parent's children

  /** The kinds of the edges from a parent to one child, in their order. */
  function KindsBetween(edges: seq<Edge>, parent: string, child: string): seq<string> {
    if edges == [] then []
    else (if edges[0].parent == parent && edges[0].child == child then [edges[0].kind] else [])
         + KindsBetween(edges[1..], parent, child)
  }

  function KindsOf(kids: seq<Kid>, child: string): seq<string> {
    if kids == [] then []
    else (if kids[0].chat == child then [kids[0].kind] else []) + KindsOf(kids[1..], child)
  }

  ghost predicate KidsAscend(kids: seq<Kid>) {
    forall i, j :: 0 <= i < j < |kids| ==> Precedes(kids[i].chat, kids[j].chat)
  }

  lemma AscendingTail(kids: seq<Kid>)
    requires KidsAscend(kids) && kids != []
    ensures KidsAscend(kids[1..])
  {
    hide Precedes;
  }

  lemma {:induction false} InsertKidHolds(kid: Kid, sorted: seq<Kid>, child: string)
    requires KidsAscend(sorted)
    ensures KidsAscend(InsertKid(kid, sorted))
    ensures KindsOf(InsertKid(kid, sorted), child) == KindsOf([kid], child) + KindsOf(sorted, child)
    ensures forall k :: k in InsertKid(kid, sorted) <==> k == kid || k in sorted
  {
    hide Precedes;
    var r := InsertKid(kid, sorted);
    assert [kid][1..] == [];
    if sorted == [] || Precedes(kid.chat, sorted[0].chat) {
      assert r == [kid] + sorted && r[1..] == sorted;
      forall i, j | 0 <= i < j < |r| ensures Precedes(r[i].chat, r[j].chat) {
        if i == 0 && j > 1 {
          PrecedesIsAnOrder(kid.chat, sorted[0].chat, sorted[j - 1].chat);
        }
      }
    } else {
      AscendingTail(sorted);
      InsertKidHolds(kid, sorted[1..], child);
      PrecedesIsAnOrder(kid.chat, sorted[0].chat, kid.chat);
      PrecedesItself(kid.chat, sorted[0].chat);
      var rest := InsertKid(kid, sorted[1..]);
      assert r[1..] == rest;
      forall i, j | 0 <= i < j < |r| ensures Precedes(r[i].chat, r[j].chat) {
        if i == 0 {
          assert rest[j - 1] in rest;
        } else {
          assert r[i] == rest[i - 1] && r[j] == rest[j - 1];
        }
      }
    }
  }

  lemma PrecedesItself(a: string, b: string)
    ensures !Precedes(a, b) ==> a != b
  {
    AtMostIsTotal(a, b);
  }

  /** A parent's children ascend, and each is there once for every edge to it, in the order of the edges. */
  lemma {:induction false} KidsAre(edges: seq<Edge>, parent: string, child: string)
    ensures KidsAscend(Kids(edges, parent))
    ensures KindsOf(Kids(edges, parent), child) == KindsBetween(edges, parent, child)
  {
    if edges != [] {
      KidsAre(edges[1..], parent, child);
      if edges[0].parent == parent {
        InsertKidHolds(Kid(edges[0].child, edges[0].kind), Kids(edges[1..], parent), child);
      }
    }
  }

  lemma {:induction false} NotInAscends(kids: seq<Kid>, path: set<string>)
    requires KidsAscend(kids)
    ensures KidsAscend(NotIn(kids, path))
    ensures forall k :: k in NotIn(kids, path) <==> k in kids && k.chat !in path
  {
    hide Precedes;
    if kids != [] {
      AscendingTail(kids);
      NotInAscends(kids[1..], path);
      var rest, r := NotIn(kids[1..], path), NotIn(kids, path);
      if kids[0].chat !in path {
        forall i, j | 0 <= i < j < |r| ensures Precedes(r[i].chat, r[j].chat) {
          assert r[j] == rest[j - 1] && rest[j - 1] in rest;
          assert i == 0 || r[i] == rest[i - 1];
        }
      } else {
        assert r == rest;
      }
    }
  }

  lemma KidsAtAscend(edges: seq<Edge>, trail: seq<string>)
    requires trail != []
    ensures KidsAscend(KidsAt(edges, trail))
  {
    KidsAre(edges, Last(trail), "");
    NotInAscends(Kids(edges, Last(trail)), Above(trail));
  }

  // ----- Siblings among the visits

  /** Two visits at one depth with no shallower one between. */
  ghost predicate AreSiblings(spots: seq<Spot>, i: nat, j: nat) {
    i < j < |spots| && |spots[i].trail| == |spots[j].trail| && forall k :: i < k < j ==> |spots[k].trail| >= |spots[i].trail|
  }

  /** What holds of the visits below a trail of some depth: siblings ascend, and the branch of a visit says
      whether it is the last of them. */
  ghost predicate InOrder(spots: seq<Spot>, depth: nat) {
    && (forall i :: 0 <= i < |spots| ==> |spots[i].trail| >= depth && spots[i].trail != [])
    && (forall i: nat, j: nat :: AreSiblings(spots, i, j) ==> Precedes(Last(spots[i].trail), Last(spots[j].trail)))
  }

  /** The visits of the children from one on: each block starts with its child, in order. */
  ghost predicate StartsWithOneOf(spots: seq<Spot>, depth: nat, kids: seq<Kid>) {
    && (spots != [] ==> |spots[0].trail| == depth)
    && forall i :: 0 <= i < |spots| && |spots[i].trail| == depth && depth > 0 ==> exists k: Kid :: k in kids && k.chat == Last(spots[i].trail)
  }

  lemma {:induction false} SpotsInOrder(edges: seq<Edge>, trail: seq<string>, kind: string, lasts: seq<bool>)
    requires trail != []
    ensures InOrder(Spots(edges, trail, kind, lasts), |trail|)
    ensures forall i :: 0 < i < |Spots(edges, trail, kind, lasts)| ==> |Spots(edges, trail, kind, lasts)[i].trail| > |trail|
    decreases Room(edges, trail), 1, 0
  {
    hide Precedes;
    KidSpotsInOrder(edges, trail, lasts, 0);
    var below, spots := KidSpots(edges, trail, lasts, 0), Spots(edges, trail, kind, lasts);
    assert forall i :: 0 < i < |spots| ==> spots[i] == below[i - 1];
    forall i: nat, j: nat | AreSiblings(spots, i, j) ensures Precedes(Last(spots[i].trail), Last(spots[j].trail)) {
      Shifted([spots[0]], below, i, j);
    }
  }

  /** Siblings behind some visits are siblings without them. */
  lemma Shifted(a: seq<Spot>, b: seq<Spot>, i: nat, j: nat)
    requires AreSiblings(a + b, i, j)
    ensures i >= |a| ==> AreSiblings(b, i - |a|, j - |a|)
    ensures j < |a| ==> AreSiblings(a, i, j)
  {
    if i >= |a| {
      forall k | i - |a| < k < j - |a| ensures |b[k].trail| >= |b[i - |a|].trail| {
        assert (a + b)[|a| + k] == b[k];
      }
    }
    if j < |a| {
      forall k | i < k < j ensures |a[k].trail| >= |a[i].trail| {
        assert (a + b)[k] == a[k];
      }
    }
  }

  lemma {:induction false} KidSpotsInOrder(edges: seq<Edge>, trail: seq<string>, lasts: seq<bool>, from: nat)
    requires trail != [] && from <= |KidsAt(edges, trail)|
    ensures InOrder(KidSpots(edges, trail, lasts, from), |trail| + 1)
    ensures StartsWithOneOf(KidSpots(edges, trail, lasts, from), |trail| + 1, KidsAt(edges, trail)[from..])
    decreases Room(edges, trail), 0, |KidsAt(edges, trail)| - from
  {
    hide Precedes;
    var kids := KidsAt(edges, trail);
    if from < |kids| {
      RoomFalls(edges, trail, kids[from]);
      var child := trail + [kids[from].chat];
      var first := Spots(edges, child, kids[from].kind, lasts + [from == |kids| - 1]);
      var rest := KidSpots(edges, trail, lasts, from + 1);
      SpotsInOrder(edges, child, kids[from].kind, lasts + [from == |kids| - 1]);
      KidSpotsInOrder(edges, trail, lasts, from + 1);
      KidsAtAscend(edges, trail);
      BlocksInOrder(first, rest, |trail| + 1, kids, from);
    }
  }

  lemma BlocksInOrder(first: seq<Spot>, rest: seq<Spot>, depth: nat, kids: seq<Kid>, from: nat)
    requires from < |kids| && KidsAscend(kids) && depth > 0
    requires InOrder(first, depth) && InOrder(rest, depth) && StartsWithOneOf(rest, depth, kids[from + 1..])
    requires first != [] && |first[0].trail| == depth && Last(first[0].trail) == kids[from].chat
    requires forall i :: 0 < i < |first| ==> |first[i].trail| > depth
    ensures InOrder(first + rest, depth) && StartsWithOneOf(first + rest, depth, kids[from..])
  {
    hide Precedes;
    var spots := first + rest;
    forall i | 0 <= i < |spots| ensures |spots[i].trail| >= depth && spots[i].trail != [] {
      assert spots[i] == if i < |first| then first[i] else rest[i - |first|];
    }
    forall i: nat, j: nat | AreSiblings(spots, i, j) ensures Precedes(Last(spots[i].trail), Last(spots[j].trail)) {
      Shifted(first, rest, i, j);
      if i < |first| && |first| <= j {
        assert spots[|first|] == rest[0];
        assert i == 0;
        var k: Kid :| k in kids[from + 1..] && k.chat == Last(rest[j - |first|].trail);
        LaterKid(kids, from, k);
      }
    }
    forall i | 0 <= i < |spots| && |spots[i].trail| == depth ensures exists k: Kid :: k in kids[from..] && k.chat == Last(spots[i].trail) {
      if i < |first| {
        assert kids[from..][0] == kids[from];
      } else {
        var k: Kid :| k in kids[from + 1..] && k.chat == Last(rest[i - |first|].trail);
        LaterKid(kids, from, k);
      }
    }
  }

  lemma LaterKid(kids: seq<Kid>, from: nat, k: Kid)
    requires from < |kids| && KidsAscend(kids) && k in kids[from + 1..]
    ensures k in kids[from..] && Precedes(kids[from].chat, k.chat)
  {
    hide Precedes;
    var i :| 0 <= i < |kids[from + 1..]| && kids[from + 1..][i] == k;
    assert kids[from + 1 + i] == k && kids[from..][i + 1] == k;
  }

  lemma {:induction false} ForestInOrder(edges: seq<Edge>, roots: seq<string>)
    requires Ascending(roots)
    ensures InOrder(Forest(edges, roots), 1)
    ensures StartsWithOneOf(Forest(edges, roots), 1, AsKids(roots))
  {
    hide Precedes;
    if roots != [] {
      SpotsInOrder(edges, [roots[0]], "", []);
      ForestInOrder(edges, roots[1..]);
      assert AsKids(roots)[1..] == AsKids(roots[1..]) && AsKids(roots)[0..] == AsKids(roots);
      assert Last([roots[0]]) == roots[0];
      BlocksInOrder(Spots(edges, [roots[0]], "", []), Forest(edges, roots[1..]), 1, AsKids(roots), 0);
    }
  }

  function AsKids(chats: seq<string>): seq<Kid> {
    seq(|chats|, i requires 0 <= i < |chats| => Kid(chats[i], ""))
  }

  lemma {:induction false} ParentlessAscends(edges: seq<Edge>, chats: seq<string>)
    requires Ascending(chats)
    ensures Ascending(Parentless(edges, chats))
    ensures forall c :: c in Parentless(edges, chats) ==> c in chats
  {
    hide Precedes, HasParent;
    if chats != [] {
      assert Ascending(chats[1..]);
      ParentlessAscends(edges, chats[1..]);
      var rest, r := Parentless(edges, chats[1..]), Parentless(edges, chats);
      if !HasParent(edges, chats[0]) {
        forall i, j | 0 <= i < j < |r| ensures Precedes(r[i], r[j]) {
          assert r[j] == rest[j - 1] && rest[j - 1] in chats[1..];
          assert i == 0 || r[i] == rest[i - 1];
        }
      } else {
        assert r == rest;
      }
    }
  }

  lemma RootsAscend(origin: string, edges: seq<Edge>)
    ensures Ascending(Roots(origin, edges))
  {
    hide Precedes, HasParent;
    MembersAre(origin, edges, origin);
    ParentlessAscends(edges, Members(origin, edges));
  }

  // ----- The drawn lines

  function Depth<R>(node: Node<R>): nat {
    |node.prefix| / 3
  }

  /** Two drawn lines at one depth with no shallower line between. */
  ghost predicate SameParent<R>(nodes: seq<Node<R>>, i: nat, j: nat) {
    i < j < |nodes| && Depth(nodes[i]) == Depth(nodes[j]) && forall k :: i < k < j ==> Depth(nodes[k]) >= Depth(nodes[i])
  }

  /** They stand in the order of their chats, roots included. */
  lemma SiblingsAscend<R>(origin: string, edges: seq<Edge>, rows: map<string, R>, i: nat, j: nat)
    requires SameParent(LineageNodes(origin, edges, rows), i, j)
    ensures Precedes(LineageNodes(origin, edges, rows)[i].chat, LineageNodes(origin, edges, rows)[j].chat)
  {
    hide Precedes, Forest, Roots;
    var roots := Roots(origin, edges);
    var nodes, spots := LineageNodes(origin, edges, rows), Forest(edges, roots);
    RootsAscend(origin, edges);
    ForestInOrder(edges, roots);
    ForestHasTrails(edges, roots);
    ForestIsWellMade(edges, roots);
    forall k | 0 <= k < |nodes| ensures Depth(nodes[k]) == |spots[k].trail| - 1 {
      assert WellMade(edges, spots[k]);
      PrefixLength(spots[k].lasts);
    }
    assert AreSiblings(spots, i, j);
  }
}
