/** The lineage view: ancestry and descendants of a chat flattened into drawn tree lines. */
module LineageTree {
  import opened Options
  import opened Ordering
  import Sequences

  datatype Edge = Edge(child: string, parent: string, kind: string)

  datatype Kid = Kid(chat: string, kind: string)

  /** One drawn line; `R` is whatever is known of a chat. */
  datatype Node<R> = Node(chat: string, prefix: string, kind: string, row: Option<R>)

  // ----- The order of chats

  function WithoutLeadingC(s: string): string {
    if s != [] && s[0] == 'c' then WithoutLeadingC(s[1..]) else s
  }

  predicate AllDigits(s: string) {
    s != [] && forall i :: 0 <= i < |s| ==> '0' <= s[i] <= '9'
  }

  function ValueOf(s: string): nat
    requires forall i :: 0 <= i < |s| ==> '0' <= s[i] <= '9'
  {
    if s == [] then 0 else 10 * ValueOf(s[..|s| - 1]) + (s[|s| - 1] - '0') as nat
  }

  /** `_number` */
  function NumberOf(chat: string): nat {
    var digits := WithoutLeadingC(chat);
    if AllDigits(digits) then ValueOf(digits) else 0
  }

  predicate Precedes(a: string, b: string) {
    NumberOf(a) < NumberOf(b) || (NumberOf(a) == NumberOf(b) && AtMost(a, b))
  }

  /** The stable sort of a parent's children. */
  function InsertKid(kid: Kid, sorted: seq<Kid>): seq<Kid> {
    if sorted == [] || Precedes(kid.chat, sorted[0].chat) then [kid] + sorted
    else [sorted[0]] + InsertKid(kid, sorted[1..])
  }

  /** `children[chat]`, sorted */
  function Kids(edges: seq<Edge>, chat: string): seq<Kid> {
    if edges == [] then []
    else if edges[0].parent == chat then InsertKid(Kid(edges[0].child, edges[0].kind), Kids(edges[1..], chat))
    else Kids(edges[1..], chat)
  }

  function InsertMember(chat: string, sorted: seq<string>): seq<string> {
    if sorted == [] then [chat]
    else if chat == sorted[0] then sorted
    else if Precedes(chat, sorted[0]) then [chat] + sorted
    else [sorted[0]] + InsertMember(chat, sorted[1..])
  }

  /** `lineage_chat_ids` */
  function Members(origin: string, edges: seq<Edge>): seq<string> {
    if edges == [] then [origin]
    else InsertMember(edges[0].child, InsertMember(edges[0].parent, Members(origin, edges[1..])))
  }

  predicate HasParent(edges: seq<Edge>, chat: string) {
    exists i :: 0 <= i < |edges| && edges[i].child == chat
  }

  function Parentless(edges: seq<Edge>, chats: seq<string>): seq<string> {
    if chats == [] then []
    else (if HasParent(edges, chats[0]) then [] else [chats[0]]) + Parentless(edges, chats[1..])
  }

  function Roots(origin: string, edges: seq<Edge>): (roots: seq<string>)
    ensures roots != []
  {
    var parentless := Parentless(edges, Members(origin, edges));
    if parentless == [] then [origin] else parentless
  }

  // ----- What the walk visits

  /** A visit of the walk: the chats from the root down, the kind of the last edge, and for each level
      below the root whether the chat there is its parent's last child. */
  datatype Spot = Spot(trail: seq<string>, kind: string, lasts: seq<bool>)

  function Last(trail: seq<string>): string
    requires trail != []
  {
    trail[|trail| - 1]
  }

  function Elements(chats: seq<string>): set<string> {
    set chat | chat in chats
  }

  /** `path`: the chats above the one being visited. */
  function Above(trail: seq<string>): set<string>
    requires trail != []
  {
    Elements(trail[..|trail| - 1])
  }

  function NotIn(kids: seq<Kid>, path: set<string>): seq<Kid> {
    if kids == [] then []
    else (if kids[0].chat in path then [] else [kids[0]]) + NotIn(kids[1..], path)
  }

  function KidsAt(edges: seq<Edge>, trail: seq<string>): seq<Kid>
    requires trail != []
  {
    NotIn(Kids(edges, Last(trail)), Above(trail))
  }

  function Chats(edges: seq<Edge>): set<string> {
    (set e | e in edges :: e.child) + (set e | e in edges :: e.parent)
  }

  /** What falls at every step down, on any edges: the chats not above, and among equals a chat that
      is above itself comes before its children. */
  function Room(edges: seq<Edge>, trail: seq<string>): nat
    requires trail != []
  {
    2 * |Chats(edges) - Above(trail)| + (if Last(trail) in Above(trail) then 1 else 0)
  }

  predicate IsEdge(edges: seq<Edge>, parent: string, kid: Kid) {
    Edge(kid.chat, parent, kid.kind) in edges
  }

  lemma {:induction false} InsertKidHolds(kid: Kid, sorted: seq<Kid>, other: Kid)
    ensures other in InsertKid(kid, sorted) <==> other == kid || other in sorted
  {
    if sorted != [] && !Precedes(kid.chat, sorted[0].chat) {
      InsertKidHolds(kid, sorted[1..], other);
    }
  }

  lemma {:induction false} KidsAreEdges(edges: seq<Edge>, chat: string, kid: Kid)
    ensures kid in Kids(edges, chat) <==> IsEdge(edges, chat, kid)
  {
    if edges != [] {
      KidsAreEdges(edges[1..], chat, kid);
      if edges[0].parent == chat {
        InsertKidHolds(Kid(edges[0].child, edges[0].kind), Kids(edges[1..], chat), kid);
      }
    }
  }

  lemma {:induction false} NotInHolds(kids: seq<Kid>, path: set<string>, kid: Kid)
    ensures kid in NotIn(kids, path) <==> kid in kids && kid.chat !in path
  {
    if kids != [] {
      NotInHolds(kids[1..], path, kid);
    }
  }

  lemma KidsAtHolds(edges: seq<Edge>, trail: seq<string>, kid: Kid)
    requires trail != []
    ensures kid in KidsAt(edges, trail) <==> IsEdge(edges, Last(trail), kid) && kid.chat !in Above(trail)
  {
    NotInHolds(Kids(edges, Last(trail)), Above(trail), kid);
    KidsAreEdges(edges, Last(trail), kid);
  }

  lemma RoomFalls(edges: seq<Edge>, trail: seq<string>, kid: Kid)
    requires trail != [] && kid in KidsAt(edges, trail)
    ensures Room(edges, trail + [kid.chat]) < Room(edges, trail)
  {
    KidsAtHolds(edges, trail, kid);
    var down, last := trail + [kid.chat], Last(trail);
    AboveDown(trail, kid.chat);
    var all, path := Chats(edges), Above(trail);
    assert Edge(kid.chat, last, kid.kind) in edges;
    assert last in all;
    if last in path {
      assert path + {last} == path;
    } else {
      assert all - (path + {last}) == (all - path) - {last};
    }
  }

  lemma AboveDown(trail: seq<string>, chat: string)
    requires trail != []
    ensures Above(trail + [chat]) == Above(trail) + {Last(trail)} && Last(trail + [chat]) == chat
  {
    assert (trail + [chat])[..|trail|] == trail;
    assert trail == trail[..|trail| - 1] + [Last(trail)];
  }

  /** `walk` below and including the end of the trail. */
  function Spots(edges: seq<Edge>, trail: seq<string>, kind: string, lasts: seq<bool>): (spots: seq<Spot>)
    requires trail != []
    ensures spots != [] && spots[0] == Spot(trail, kind, lasts)
    decreases Room(edges, trail), 1, 0
  {
    [Spot(trail, kind, lasts)] + KidSpots(edges, trail, lasts, 0)
  }

  function KidSpots(edges: seq<Edge>, trail: seq<string>, lasts: seq<bool>, from: nat): seq<Spot>
    requires trail != [] && from <= |KidsAt(edges, trail)|
    decreases Room(edges, trail), 0, |KidsAt(edges, trail)| - from
  {
    var kids := KidsAt(edges, trail);
    if from == |kids| then []
    else
      RoomFalls(edges, trail, kids[from]);
      Spots(edges, trail + [kids[from].chat], kids[from].kind, lasts + [from == |kids| - 1])
      + KidSpots(edges, trail, lasts, from + 1)
  }

  function Forest(edges: seq<Edge>, roots: seq<string>): seq<Spot> {
    if roots == [] then [] else Spots(edges, [roots[0]], "", []) + Forest(edges, roots[1..])
  }

  // ----- Drawing

  function Guide(lasts: seq<bool>): string {
    if lasts == [] then "" else (if lasts[0] then "   " else "│  ") + Guide(lasts[1..])
  }

  /** A column for each ancestor below the root, then the branch of the chat itself. */
  function Prefix(lasts: seq<bool>): string {
    if lasts == [] then "" else Guide(lasts[..|lasts| - 1]) + (if lasts[|lasts| - 1] then "└─ " else "├─ ")
  }

  function Drawn<R>(spots: seq<Spot>, rows: map<string, R>): seq<Node<R>>
    requires forall i :: 0 <= i < |spots| ==> spots[i].trail != []
  {
    seq(|spots|, i requires 0 <= i < |spots| =>
      var chat := Last(spots[i].trail);
      Node(chat, Prefix(spots[i].lasts), spots[i].kind, if chat in rows then Some(rows[chat]) else None))
  }

  // ----- The walk visits exactly the trails that do not turn back

  ghost predicate Has(spots: seq<Spot>, trail: seq<string>) {
    exists i :: 0 <= i < |spots| && spots[i].trail == trail
  }

  lemma HasAppended(a: seq<Spot>, b: seq<Spot>, trail: seq<string>)
    ensures Has(a + b, trail) <==> Has(a, trail) || Has(b, trail)
  {
    if Has(a, trail) {
      var i :| 0 <= i < |a| && a[i].trail == trail;
      assert (a + b)[i] == a[i];
    }
    if Has(b, trail) {
      var i :| 0 <= i < |b| && b[i].trail == trail;
      assert (a + b)[|a| + i] == b[i];
    }
  }

  ghost predicate Linked(edges: seq<Edge>, parent: string, child: string) {
    exists kid: Kid :: kid.chat == child && IsEdge(edges, parent, kid)
  }

  /** From position `from` on, each chat is a child of the one before it and not one above that. */
  ghost predicate Descends(edges: seq<Edge>, trail: seq<string>, from: nat) {
    forall i :: 0 < i && from <= i < |trail| ==> Linked(edges, trail[i - 1], trail[i]) && trail[i] !in trail[..i - 1]
  }

  lemma {:induction false} SpotsAreTrails(edges: seq<Edge>, trail: seq<string>, kind: string, lasts: seq<bool>, t: seq<string>)
    requires trail != []
    ensures Has(Spots(edges, trail, kind, lasts), t) <==> trail <= t && Descends(edges, t, |trail|)
    decreases Room(edges, trail), 1, 0
  {
    var head := [Spot(trail, kind, lasts)];
    HasAppended(head, KidSpots(edges, trail, lasts, 0), t);
    assert Has(head, t) <==> t == trail by {
      assert head[0].trail == trail;
    }
    KidSpotsAreTrails(edges, trail, lasts, 0, t);
    if trail <= t && t != trail {
      NextIsKid(edges, trail, t);
    }
  }

  /** A trail that goes on below `trail` goes on to one of its children. */
  lemma NextIsKid(edges: seq<Edge>, trail: seq<string>, t: seq<string>)
    requires trail != [] && trail <= t && t != trail
    ensures Descends(edges, t, |trail|) <==>
              Descends(edges, t, |trail| + 1) && GoesTo(KidsAt(edges, trail), 0, t[|trail|])
  {
    var n, kids := |trail|, KidsAt(edges, trail);
    assert trail[..n - 1] == t[..n - 1] && Last(trail) == t[n - 1];
    if Linked(edges, t[n - 1], t[n]) && t[n] !in t[..n - 1] {
      var kid: Kid :| kid.chat == t[n] && IsEdge(edges, t[n - 1], kid);
      KidsAtHolds(edges, trail, kid);
      var i :| 0 <= i < |kids| && kids[i] == kid;
      assert kids[i].chat == t[n];
    }
    if GoesTo(kids, 0, t[n]) {
      var i :| 0 <= i < |kids| && kids[i].chat == t[n];
      KidsAtHolds(edges, trail, kids[i]);
      assert Linked(edges, t[n - 1], t[n]) && t[n] !in t[..n - 1];
    }
  }

  ghost predicate GoesTo(kids: seq<Kid>, from: nat, chat: string) {
    exists i :: from <= i < |kids| && kids[i].chat == chat
  }

  lemma {:induction false} KidSpotsAreTrails(edges: seq<Edge>, trail: seq<string>, lasts: seq<bool>, from: nat, t: seq<string>)
    requires trail != [] && from <= |KidsAt(edges, trail)|
    ensures Has(KidSpots(edges, trail, lasts, from), t) <==>
              trail < t && Descends(edges, t, |trail| + 1) && GoesTo(KidsAt(edges, trail), from, t[|trail|])
    decreases Room(edges, trail), 0, |KidsAt(edges, trail)| - from
  {
    hide Descends, Room, KidsAt, Spots, Has;
    var kids := KidsAt(edges, trail);
    if from == |kids| {
      NoKids(edges, trail, lasts, from, t);
    } else {
      RoomFalls(edges, trail, kids[from]);
      var down, mine := trail + [kids[from].chat], lasts + [from == |kids| - 1];
      SpotsAreTrails(edges, down, kids[from].kind, mine, t);
      KidSpotsAreTrails(edges, trail, lasts, from + 1, t);
      HasAppended(Spots(edges, down, kids[from].kind, mine), KidSpots(edges, trail, lasts, from + 1), t);
      assert down <= t <==> trail < t && t[|trail|] == kids[from].chat;
      if trail < t {
        assert GoesTo(kids, from, t[|trail|]) <==> kids[from].chat == t[|trail|] || GoesTo(kids, from + 1, t[|trail|]);
      }
    }
  }

  lemma {:induction false} NoKids(edges: seq<Edge>, trail: seq<string>, lasts: seq<bool>, from: nat, t: seq<string>)
    requires trail != [] && from == |KidsAt(edges, trail)|
    ensures !Has(KidSpots(edges, trail, lasts, from), t)
  {
  }

  lemma {:induction false} ForestTrails(edges: seq<Edge>, roots: seq<string>, t: seq<string>)
    ensures Has(Forest(edges, roots), t) <==> t != [] && t[0] in roots && Descends(edges, t, 1)
  {
    hide Descends, Has;
    if roots == [] {
      assert !Has([], t) by { NothingHas(t); }
    } else {
      HasAppended(Spots(edges, [roots[0]], "", []), Forest(edges, roots[1..]), t);
      SpotsAreTrails(edges, [roots[0]], "", [], t);
      ForestTrails(edges, roots[1..], t);
      assert roots == [roots[0]] + roots[1..];
      assert [roots[0]] <= t <==> t != [] && t[0] == roots[0];
    }
  }

  lemma NothingHas(t: seq<string>)
    ensures !Has([], t)
  {
  }

  lemma {:induction false} ForestIsRooted(edges: seq<Edge>, roots: seq<string>, i: nat)
    requires i < |Forest(edges, roots)|
    ensures
      var trail := Forest(edges, roots)[i].trail;
      trail != [] && trail[0] in roots && Descends(edges, trail, 1)
  {
    ForestTrails(edges, roots, Forest(edges, roots)[i].trail);
  }

  // ----- Which chats are drawn

  ghost predicate Path(edges: seq<Edge>, p: seq<string>) {
    p != [] && forall i :: 0 < i < |p| ==> Linked(edges, p[i - 1], p[i])
  }

  ghost predicate ReachedFrom(edges: seq<Edge>, roots: seq<string>, chat: string) {
    exists p :: Path(edges, p) && p[0] in roots && Last(p) == chat
  }

  ghost predicate Simple(p: seq<string>) {
    forall i, j :: 0 <= i < j < |p| ==> p[i] != p[j]
  }

  /** Cutting its loops makes a path simple. */
  lemma {:induction false} SimplePath(edges: seq<Edge>, p: seq<string>) returns (q: seq<string>)
    requires Path(edges, p)
    ensures Path(edges, q) && Simple(q) && q[0] == p[0] && Last(q) == Last(p)
    decreases |p|
  {
    if Simple(p) {
      return p;
    }
    var i, j :| 0 <= i < j < |p| && p[i] == p[j];
    var cut := p[..i] + p[j..];
    forall k | 0 < k < |cut| ensures Linked(edges, cut[k - 1], cut[k]) {
      if k <= i {
        assert Linked(edges, p[k - 1], p[k]);
      } else {
        assert Linked(edges, p[k - i + j - 1], p[k - i + j]);
      }
    }
    q := SimplePath(edges, cut);
  }

  /** A chat is drawn exactly when some root leads to it, whatever cycles the edges form. */
  lemma {:induction false} DrawnIffReached(edges: seq<Edge>, roots: seq<string>, chat: string)
    ensures
      (exists i :: 0 <= i < |Forest(edges, roots)| && Forest(edges, roots)[i].trail != [] && Last(Forest(edges, roots)[i].trail) == chat)
      <==> ReachedFrom(edges, roots, chat)
  {
    var spots := Forest(edges, roots);
    if i :| 0 <= i < |spots| && spots[i].trail != [] && Last(spots[i].trail) == chat {
      ForestIsRooted(edges, roots, i);
      assert Path(edges, spots[i].trail);
    }
    if ReachedFrom(edges, roots, chat) {
      var p :| Path(edges, p) && p[0] in roots && Last(p) == chat;
      var q := SimplePath(edges, p);
      assert Descends(edges, q, 1);
      ForestTrails(edges, roots, q);
      var i :| 0 <= i < |spots| && spots[i].trail == q;
    }
  }

  // ----- Each chat once

  /** No chat is recorded twice as a child. */
  ghost predicate UniqueParents(edges: seq<Edge>) {
    forall i, j :: 0 <= i < j < |edges| ==> edges[i].child != edges[j].child
  }

  ghost predicate DistinctKids(kids: seq<Kid>) {
    forall i, j :: 0 <= i < j < |kids| ==> kids[i].chat != kids[j].chat
  }

  ghost predicate DistinctTrails(spots: seq<Spot>) {
    forall i, j :: 0 <= i < j < |spots| ==> spots[i].trail != spots[j].trail
  }

  ghost predicate NoKid(kids: seq<Kid>, chat: string) {
    forall i :: 0 <= i < |kids| ==> kids[i].chat != chat
  }

  lemma {:induction false} InsertKeepsDistinct(kid: Kid, kids: seq<Kid>, chat: string)
    requires DistinctKids(kids) && NoKid(kids, kid.chat)
    ensures DistinctKids(InsertKid(kid, kids)) && (NoKid(kids, chat) && kid.chat != chat ==> NoKid(InsertKid(kid, kids), chat))
  {
    if kids != [] && !Precedes(kid.chat, kids[0].chat) {
      InsertKeepsDistinct(kid, kids[1..], chat);
      InsertKeepsDistinct(kid, kids[1..], kids[0].chat);
    }
  }

  lemma {:induction false} KidsAreDistinct(edges: seq<Edge>, chat: string, absent: string)
    requires UniqueParents(edges)
    ensures DistinctKids(Kids(edges, chat))
    ensures (forall i :: 0 <= i < |edges| ==> edges[i].child != absent) ==> NoKid(Kids(edges, chat), absent)
  {
    if edges != [] {
      KidsAreDistinct(edges[1..], chat, absent);
      KidsAreDistinct(edges[1..], chat, edges[0].child);
      if edges[0].parent == chat {
        InsertKeepsDistinct(Kid(edges[0].child, edges[0].kind), Kids(edges[1..], chat), absent);
      }
    }
  }

  lemma {:induction false} NotInKeepsDistinct(kids: seq<Kid>, path: set<string>, chat: string)
    requires DistinctKids(kids)
    ensures DistinctKids(NotIn(kids, path)) && (NoKid(kids, chat) ==> NoKid(NotIn(kids, path), chat))
  {
    if kids != [] {
      NotInKeepsDistinct(kids[1..], path, chat);
      NotInKeepsDistinct(kids[1..], path, kids[0].chat);
    }
  }

  lemma AppendedAreDistinct(a: seq<Spot>, b: seq<Spot>)
    requires DistinctTrails(a) && DistinctTrails(b)
    requires forall i :: 0 <= i < |a| ==> !Has(b, a[i].trail)
    ensures DistinctTrails(a + b)
  {
    forall i, j | 0 <= i < |a| && 0 <= j < |b| ensures a[i].trail != b[j].trail {
      assert !Has(b, a[i].trail);
    }
  }

  lemma {:induction false} SpotsAreDistinct(edges: seq<Edge>, trail: seq<string>, kind: string, lasts: seq<bool>)
    requires trail != [] && UniqueParents(edges)
    ensures DistinctTrails(Spots(edges, trail, kind, lasts))
    decreases Room(edges, trail), 1, 0
  {
    KidSpotsAreDistinct(edges, trail, lasts, 0);
    KidSpotsAreTrails(edges, trail, lasts, 0, trail);
    AppendedAreDistinct([Spot(trail, kind, lasts)], KidSpots(edges, trail, lasts, 0));
  }

  lemma {:induction false} KidSpotsAreDistinct(edges: seq<Edge>, trail: seq<string>, lasts: seq<bool>, from: nat)
    requires trail != [] && from <= |KidsAt(edges, trail)| && UniqueParents(edges)
    ensures DistinctTrails(KidSpots(edges, trail, lasts, from))
    decreases Room(edges, trail), 0, |KidsAt(edges, trail)| - from
  {
    hide Room, Descends, UniqueParents;
    var kids := KidsAt(edges, trail);
    if from < |kids| {
      RoomFalls(edges, trail, kids[from]);
      var down, mine := trail + [kids[from].chat], lasts + [from == |kids| - 1];
      SpotsAreDistinct(edges, down, kids[from].kind, mine);
      KidSpotsAreDistinct(edges, trail, lasts, from + 1);
      KidsAreDistinct(edges, Last(trail), "");
      NotInKeepsDistinct(Kids(edges, Last(trail)), Above(trail), "");
      var a, b := Spots(edges, down, kids[from].kind, mine), KidSpots(edges, trail, lasts, from + 1);
      forall i | 0 <= i < |a| ensures !Has(b, a[i].trail) {
        assert Has(a, a[i].trail);
        SpotsAreTrails(edges, down, kids[from].kind, mine, a[i].trail);
        assert a[i].trail[|trail|] == down[|trail|];
        KidSpotsAreTrails(edges, trail, lasts, from + 1, a[i].trail);
      }
      AppendedAreDistinct(a, b);
    }
  }

  lemma {:induction false} ForestIsDistinct(edges: seq<Edge>, roots: seq<string>)
    requires UniqueParents(edges) && Simple(roots)
    ensures DistinctTrails(Forest(edges, roots))
  {
    hide Descends, UniqueParents;
    if roots != [] {
      var a, b := Spots(edges, [roots[0]], "", []), Forest(edges, roots[1..]);
      SpotsAreDistinct(edges, [roots[0]], "", []);
      assert Simple(roots[1..]);
      ForestIsDistinct(edges, roots[1..]);
      forall i | 0 <= i < |a| ensures !Has(b, a[i].trail) {
        assert Has(a, a[i].trail);
        SpotsAreTrails(edges, [roots[0]], "", [], a[i].trail);
        ForestTrails(edges, roots[1..], a[i].trail);
        assert a[i].trail[0] == [roots[0]][0];
      }
      AppendedAreDistinct(a, b);
    }
  }

  /** With unique parents there is one path down to a chat from chats that have none. */
  lemma {:induction false} OnePathDown(edges: seq<Edge>, p: seq<string>, q: seq<string>)
    requires UniqueParents(edges) && Path(edges, p) && Path(edges, q) && Last(p) == Last(q)
    requires !HasParent(edges, p[0]) && !HasParent(edges, q[0])
    ensures p == q
    decreases |p|
  {
    if |p| == 1 || |q| == 1 {
      if |p| > 1 {
        LinkedHasParent(edges, p[|p| - 2], Last(p));
      } else if |q| > 1 {
        LinkedHasParent(edges, q[|q| - 2], Last(q));
      }
    } else {
      assert Linked(edges, p[|p| - 2], Last(p)) && Linked(edges, q[|q| - 2], Last(q));
      OnePathDown(edges, p[..|p| - 1], q[..|q| - 1]);
      assert p == p[..|p| - 1] + [Last(p)] && q == q[..|q| - 1] + [Last(q)];
    }
  }

  lemma LinkedHasParent(edges: seq<Edge>, parent: string, child: string)
    requires Linked(edges, parent, child)
    ensures HasParent(edges, child)
  {
  }

  ghost predicate IsMember(origin: string, edges: seq<Edge>, chat: string) {
    chat == origin || exists i :: 0 <= i < |edges| && (edges[i].child == chat || edges[i].parent == chat)
  }

  ghost predicate Ascending(chats: seq<string>) {
    forall i, j :: 0 <= i < j < |chats| ==> Precedes(chats[i], chats[j])
  }

  lemma PrecedesIsAnOrder(a: string, b: string, c: string)
    ensures Precedes(a, b) || Precedes(b, a)
    ensures Precedes(a, b) && Precedes(b, c) ==> Precedes(a, c)
  {
    AtMostIsTotal(a, b);
    if AtMost(a, b) && AtMost(b, c) {
      AtMostIsTransitive(a, b, c);
    }
  }

  lemma {:induction false} InsertMemberHolds(chat: string, sorted: seq<string>, other: string)
    requires Simple(sorted) && Ascending(sorted)
    ensures
      var r := InsertMember(chat, sorted);
      && Simple(r) && Ascending(r) && (other in r <==> other == chat || other in sorted)
  {
    hide Precedes;
    var r := InsertMember(chat, sorted);
    if sorted != [] && chat != sorted[0] {
      if Precedes(chat, sorted[0]) {
        forall i | 0 < i < |r| ensures Precedes(chat, r[i]) && r[i] != chat {
          InsertBefore(chat, sorted, i - 1);
        }
      } else {
        assert Simple(sorted[1..]) && Ascending(sorted[1..]);
        InsertMemberHolds(chat, sorted[1..], other);
        InsertMemberHolds(chat, sorted[1..], sorted[0]);
        PrecedesIsAnOrder(sorted[0], chat, chat);
        forall i | 0 < i < |r| ensures Precedes(sorted[0], r[i]) {
          InsertMemberHolds(chat, sorted[1..], r[i]);
        }
      }
    }
  }

  /** A chat below the first of an ascending list is none of its members. */
  lemma InsertBefore(chat: string, sorted: seq<string>, i: nat)
    requires i < |sorted| && Ascending(sorted) && Simple(sorted) && chat != sorted[0] && Precedes(chat, sorted[0])
    ensures Precedes(chat, sorted[i]) && chat != sorted[i]
  {
    if i > 0 {
      PrecedesIsAnOrder(chat, sorted[0], sorted[i]);
      if chat == sorted[i] && AtMost(chat, sorted[0]) && AtMost(sorted[0], chat) {
        AtMostIsAntisymmetric(chat, sorted[0]);
      }
    }
  }

  /** The members are the origin and both ends of every edge, each once and in order. */
  lemma {:induction false} MembersAre(origin: string, edges: seq<Edge>, chat: string)
    ensures Simple(Members(origin, edges)) && Ascending(Members(origin, edges))
    ensures chat in Members(origin, edges) <==> IsMember(origin, edges, chat)
  {
    if edges != [] {
      MembersAre(origin, edges[1..], chat);
      var rest := Members(origin, edges[1..]);
      InsertMemberHolds(edges[0].parent, rest, chat);
      InsertMemberHolds(edges[0].child, InsertMember(edges[0].parent, rest), chat);
      MemberOfRest(origin, edges, chat);
    }
  }

  lemma MemberOfRest(origin: string, edges: seq<Edge>, chat: string)
    requires edges != []
    ensures IsMember(origin, edges, chat) <==> chat == edges[0].child || chat == edges[0].parent || IsMember(origin, edges[1..], chat)
  {
    if IsMember(origin, edges[1..], chat) && chat != origin {
      var i :| 0 <= i < |edges[1..]| && (edges[1..][i].child == chat || edges[1..][i].parent == chat);
      assert edges[i + 1] == edges[1..][i];
    }
    if IsMember(origin, edges, chat) && chat != origin {
      var i :| 0 <= i < |edges| && (edges[i].child == chat || edges[i].parent == chat);
      assert i == 0 || edges[1..][i - 1] == edges[i];
    }
  }

  lemma {:induction false} ParentlessHolds(edges: seq<Edge>, chats: seq<string>, chat: string)
    ensures chat in Parentless(edges, chats) <==> chat in chats && !HasParent(edges, chat)
    ensures Simple(chats) ==> Simple(Parentless(edges, chats))
  {
    hide HasParent;
    if chats != [] {
      ParentlessHolds(edges, chats[1..], chat);
      ParentlessHolds(edges, chats[1..], chats[0]);
      if Simple(chats) {
        assert chats[0] !in chats[1..];
      }
    }
  }

  /** The roots are the members no edge leads to, each once; when there is none, the origin. */
  lemma RootsAre(origin: string, edges: seq<Edge>, chat: string)
    ensures Simple(Roots(origin, edges))
    ensures
      if exists c :: IsMember(origin, edges, c) && !HasParent(edges, c)
      then chat in Roots(origin, edges) <==> IsMember(origin, edges, chat) && !HasParent(edges, chat)
      else Roots(origin, edges) == [origin]
  {
    hide IsMember, HasParent, Members;
    MembersAre(origin, edges, chat);
    ParentlessHolds(edges, Members(origin, edges), chat);
    if c :| IsMember(origin, edges, c) && !HasParent(edges, c) {
      MembersAre(origin, edges, c);
      ParentlessHolds(edges, Members(origin, edges), c);
    } else if Parentless(edges, Members(origin, edges)) != [] {
      var c := Parentless(edges, Members(origin, edges))[0];
      MembersAre(origin, edges, c);
      ParentlessHolds(edges, Members(origin, edges), c);
    }
  }

  // ----- Prefixes

  lemma {:induction false} GuideGrows(lasts: seq<bool>)
    ensures |Guide(lasts)| == 3 * |lasts|
    ensures lasts != [] ==> Guide(lasts) == Guide(lasts[..|lasts| - 1]) + (if lasts[|lasts| - 1] then "   " else "│  ")
  {
    if |lasts| > 1 {
      GuideGrows(lasts[1..]);
      assert lasts[1..][..|lasts| - 2] == lasts[..|lasts| - 1][1..];
    } else if |lasts| == 1 {
      assert Guide(lasts[1..]) == "" && Guide(lasts[..0]) == "";
    }
  }

  lemma PrefixLength(lasts: seq<bool>)
    ensures |Prefix(lasts)| == 3 * |lasts|
  {
    if lasts != [] {
      GuideGrows(lasts[..|lasts| - 1]);
    }
  }

  /** The visit's parent comes before it, with only deeper visits or siblings between. */
  ghost predicate ParentBefore(spots: seq<Spot>, i: nat) {
    i < |spots| && exists j :: IsParent(spots, j, i)
  }

  ghost predicate IsParent(spots: seq<Spot>, j: nat, i: nat) {
    && j < i < |spots| && spots[i].trail != [] && spots[j].trail == spots[i].trail[..|spots[i].trail| - 1]
    && (forall k :: j < k < i ==> |spots[k].trail| >= |spots[i].trail|)
  }

  ghost predicate Preorder(spots: seq<Spot>, depth: nat) {
    forall i :: 0 <= i < |spots| ==> |spots[i].trail| >= depth && (|spots[i].trail| == depth || ParentBefore(spots, i))
  }

  lemma ParentBeforeShifts(a: seq<Spot>, b: seq<Spot>, i: nat)
    ensures ParentBefore(a, i) ==> ParentBefore(a + b, i)
    ensures ParentBefore(b, i) ==> ParentBefore(a + b, |a| + i)
  {
    var c := a + b;
    if ParentBefore(a, i) {
      var j :| IsParent(a, j, i);
      assert IsParent(c, j, i);
    }
    if ParentBefore(b, i) {
      var j :| IsParent(b, j, i);
      assert forall k :: |a| + j < k < |a| + i ==> c[k] == b[k - |a|];
      assert IsParent(c, |a| + j, |a| + i);
    }
  }

  lemma AppendedIsPreorder(a: seq<Spot>, b: seq<Spot>, depth: nat)
    requires Preorder(a, depth) && Preorder(b, depth)
    ensures Preorder(a + b, depth)
  {
    hide ParentBefore;
    var c := a + b;
    forall i | 0 <= i < |c| ensures |c[i].trail| >= depth && (|c[i].trail| == depth || ParentBefore(c, i)) {
      if i < |a| {
        ParentBeforeShifts(a, b, i);
      } else {
        ParentBeforeShifts(a, b, i - |a|);
      }
    }
  }

  lemma HeadIsParent(head: Spot, kids: seq<Spot>)
    requires head.trail != [] && Preorder(kids, |head.trail| + 1)
    requires forall i :: 0 <= i < |kids| ==> head.trail < kids[i].trail
    ensures Preorder([head] + kids, |head.trail|)
  {
    hide ParentBefore;
    var c := [head] + kids;
    forall i | 0 < i < |c| ensures |c[i].trail| >= |head.trail| && ParentBefore(c, i) {
      assert c[i] == kids[i - 1];
      if |c[i].trail| == |head.trail| + 1 {
        FirstIsParent(c, i);
      } else {
        ParentBeforeShifts([head], kids, i - 1);
      }
    }
  }

  lemma FirstIsParent(c: seq<Spot>, i: nat)
    requires 0 < i < |c| && c[0].trail < c[i].trail && |c[i].trail| == |c[0].trail| + 1
    requires forall k :: 0 < k < i ==> |c[k].trail| >= |c[i].trail|
    ensures ParentBefore(c, i)
  {
    assert IsParent(c, 0, i);
  }

  lemma {:induction false} SpotsArePreorder(edges: seq<Edge>, trail: seq<string>, kind: string, lasts: seq<bool>)
    requires trail != []
    ensures Preorder(Spots(edges, trail, kind, lasts), |trail|)
    decreases Room(edges, trail), 1, 0
  {
    hide Preorder, Descends;
    var kids := KidSpots(edges, trail, lasts, 0);
    KidSpotsArePreorder(edges, trail, lasts, 0);
    forall i | 0 <= i < |kids| ensures trail < kids[i].trail {
      assert Has(kids, kids[i].trail);
      KidSpotsAreTrails(edges, trail, lasts, 0, kids[i].trail);
    }
    HeadIsParent(Spot(trail, kind, lasts), kids);
  }

  lemma {:induction false} KidSpotsArePreorder(edges: seq<Edge>, trail: seq<string>, lasts: seq<bool>, from: nat)
    requires trail != [] && from <= |KidsAt(edges, trail)|
    ensures Preorder(KidSpots(edges, trail, lasts, from), |trail| + 1)
    decreases Room(edges, trail), 0, |KidsAt(edges, trail)| - from
  {
    hide Room, ParentBefore;
    var kids := KidsAt(edges, trail);
    if from < |kids| {
      RoomFalls(edges, trail, kids[from]);
      var down, mine := trail + [kids[from].chat], lasts + [from == |kids| - 1];
      SpotsArePreorder(edges, down, kids[from].kind, mine);
      KidSpotsArePreorder(edges, trail, lasts, from + 1);
      AppendedIsPreorder(Spots(edges, down, kids[from].kind, mine), KidSpots(edges, trail, lasts, from + 1), |trail| + 1);
    }
  }

  lemma {:induction false} ForestIsPreorder(edges: seq<Edge>, roots: seq<string>)
    ensures Preorder(Forest(edges, roots), 1)
  {
    hide ParentBefore;
    if roots != [] {
      SpotsArePreorder(edges, [roots[0]], "", []);
      ForestIsPreorder(edges, roots[1..]);
      AppendedIsPreorder(Spots(edges, [roots[0]], "", []), Forest(edges, roots[1..]), 1);
    }
  }

  /** Each visit has a flag for each level below the root, and its kind is its edge's. */
  predicate WellMade(edges: seq<Edge>, spot: Spot) {
    && spot.trail != [] && |spot.lasts| == |spot.trail| - 1
    && (|spot.trail| > 1 ==> IsEdge(edges, spot.trail[|spot.trail| - 2], Kid(Last(spot.trail), spot.kind)))
  }

  ghost predicate AllWellMade(edges: seq<Edge>, spots: seq<Spot>) {
    forall i :: 0 <= i < |spots| ==> WellMade(edges, spots[i])
  }

  lemma {:induction false} SpotsAreWellMade(edges: seq<Edge>, trail: seq<string>, kind: string, lasts: seq<bool>)
    requires WellMade(edges, Spot(trail, kind, lasts))
    ensures AllWellMade(edges, Spots(edges, trail, kind, lasts))
    decreases Room(edges, trail), 1, 0
  {
    KidSpotsAreWellMade(edges, trail, lasts, 0);
  }

  lemma {:induction false} KidSpotsAreWellMade(edges: seq<Edge>, trail: seq<string>, lasts: seq<bool>, from: nat)
    requires trail != [] && |lasts| == |trail| - 1 && from <= |KidsAt(edges, trail)|
    ensures AllWellMade(edges, KidSpots(edges, trail, lasts, from))
    decreases Room(edges, trail), 0, |KidsAt(edges, trail)| - from
  {
    hide Room, IsEdge;
    var kids := KidsAt(edges, trail);
    if from < |kids| {
      RoomFalls(edges, trail, kids[from]);
      KidsAtHolds(edges, trail, kids[from]);
      SpotsAreWellMade(edges, trail + [kids[from].chat], kids[from].kind, lasts + [from == |kids| - 1]);
      KidSpotsAreWellMade(edges, trail, lasts, from + 1);
    }
  }

  lemma {:induction false} ForestIsWellMade(edges: seq<Edge>, roots: seq<string>)
    ensures AllWellMade(edges, Forest(edges, roots))
  {
    hide IsEdge;
    if roots != [] {
      SpotsAreWellMade(edges, [roots[0]], "", []);
      ForestIsWellMade(edges, roots[1..]);
    }
  }

  // ----- The drawn lines

  lemma {:induction false} ForestHasTrails(edges: seq<Edge>, roots: seq<string>)
    ensures forall i :: 0 <= i < |Forest(edges, roots)| ==> Forest(edges, roots)[i].trail != []
  {
    ForestIsWellMade(edges, roots);
  }

  function LineageNodes<R>(origin: string, edges: seq<Edge>, rows: map<string, R>): seq<Node<R>> {
    ForestHasTrails(edges, Roots(origin, edges));
    Drawn(Forest(edges, Roots(origin, edges)), rows)
  }

  /** The view always has a line to select. */
  lemma SomethingIsDrawn<R>(origin: string, edges: seq<Edge>, rows: map<string, R>)
    ensures LineageNodes(origin, edges, rows) != []
  {
    var roots := Roots(origin, edges);
    assert Forest(edges, roots) == Spots(edges, [roots[0]], "", []) + Forest(edges, roots[1..]);
  }

  /** Exactly the chats some root leads to are drawn, with their rows. */
  lemma DrawnChats<R>(origin: string, edges: seq<Edge>, rows: map<string, R>, chat: string)
    ensures
      (exists i :: 0 <= i < |LineageNodes(origin, edges, rows)| && LineageNodes(origin, edges, rows)[i].chat == chat)
      <==> ReachedFrom(edges, Roots(origin, edges), chat)
    ensures
      forall i :: 0 <= i < |LineageNodes(origin, edges, rows)| ==>
        var node := LineageNodes(origin, edges, rows)[i];
        node.row == if node.chat in rows then Some(rows[node.chat]) else None
  {
    hide ReachedFrom, Forest, Roots;
    var roots := Roots(origin, edges);
    var nodes, spots := LineageNodes(origin, edges, rows), Forest(edges, roots);
    ForestHasTrails(edges, roots);
    DrawnIffReached(edges, roots, chat);
    if i :| 0 <= i < |nodes| && nodes[i].chat == chat {
      assert spots[i].trail != [] && Last(spots[i].trail) == chat;
    }
    if i :| 0 <= i < |spots| && spots[i].trail != [] && Last(spots[i].trail) == chat {
      assert nodes[i].chat == chat;
    }
  }

  /** When no chat has two recorded parents and some chat has none, no chat is drawn twice. */
  lemma EachChatOnce<R>(origin: string, edges: seq<Edge>, rows: map<string, R>, i: nat, j: nat)
    requires UniqueParents(edges) && (exists c :: IsMember(origin, edges, c) && !HasParent(edges, c))
    requires i < j < |LineageNodes(origin, edges, rows)|
    ensures LineageNodes(origin, edges, rows)[i].chat != LineageNodes(origin, edges, rows)[j].chat
  {
    hide IsMember, UniqueParents, Forest, Roots, HasParent, Simple;
    var roots := Roots(origin, edges);
    var spots := Forest(edges, roots);
    RootsAre(origin, edges, "");
    ForestIsDistinct(edges, roots);
    ForestIsRooted(edges, roots, i);
    ForestIsRooted(edges, roots, j);
    if Last(spots[i].trail) == Last(spots[j].trail) {
      RootsAre(origin, edges, spots[i].trail[0]);
      RootsAre(origin, edges, spots[j].trail[0]);
      OnePathDown(edges, spots[i].trail, spots[j].trail);
    }
  }

  /** The drawn prefix gives the tree back: three columns a level, a root has none, and the parent of
      any other line is the nearest earlier line one level up. */
  lemma PrefixShowsParent<R>(origin: string, edges: seq<Edge>, rows: map<string, R>, i: nat)
    requires i < |LineageNodes(origin, edges, rows)|
    ensures
      var nodes := LineageNodes(origin, edges, rows);
      && |nodes[i].prefix| % 3 == 0
      && (nodes[i].prefix == "" ==> nodes[i].chat in Roots(origin, edges))
      && (nodes[i].prefix != "" ==> exists j: nat :: NearestAbove(nodes, j, i) && IsEdge(edges, nodes[j].chat, Kid(nodes[i].chat, nodes[i].kind)))
  {
    hide IsEdge, Forest, Roots, Descends, ParentBefore;
    var roots := Roots(origin, edges);
    var nodes, spots := LineageNodes(origin, edges, rows), Forest(edges, roots);
    ForestIsWellMade(edges, roots);
    ForestIsPreorder(edges, roots);
    ForestIsRooted(edges, roots, i);
    assert WellMade(edges, spots[i]);
    forall k | 0 <= k < |nodes| ensures |nodes[k].prefix| == 3 * (|spots[k].trail| - 1) {
      assert WellMade(edges, spots[k]);
      PrefixLength(spots[k].lasts);
    }
    if nodes[i].prefix != "" {
      assert ParentBefore(spots, i);
      NearestIsParent(edges, spots, nodes, i);
    }
  }

  /** The nearest line before `i` that is one level up. */
  ghost predicate NearestAbove<R>(nodes: seq<Node<R>>, j: nat, i: nat) {
    && j < i < |nodes| && |nodes[j].prefix| + 3 == |nodes[i].prefix|
    && (forall k :: j < k < i ==> |nodes[k].prefix| + 3 != |nodes[i].prefix|)
  }

  lemma NearestIsParent<R>(edges: seq<Edge>, spots: seq<Spot>, nodes: seq<Node<R>>, i: nat)
    requires i < |nodes| == |spots| && ParentBefore(spots, i) && WellMade(edges, spots[i]) && |spots[i].trail| > 1
    requires forall k :: 0 <= k < |nodes| ==> spots[k].trail != [] && nodes[k].chat == Last(spots[k].trail)
    requires forall k :: 0 <= k < |nodes| ==> |nodes[k].prefix| == 3 * (|spots[k].trail| - 1)
    requires nodes[i].kind == spots[i].kind
    ensures exists j: nat :: NearestAbove(nodes, j, i) && IsEdge(edges, nodes[j].chat, Kid(nodes[i].chat, nodes[i].kind))
  {
    hide IsEdge;
    var j: nat :| IsParent(spots, j, i);
    assert NearestAbove(nodes, j, i);
    assert nodes[j].chat == spots[i].trail[|spots[i].trail| - 2];
  }

  // ----- The program

  /** The walk with the list it appends to. */
  class Walker<R> {
    const edges: seq<Edge>
    const rows: map<string, R>
    var nodes: seq<Node<R>>

    constructor (edges: seq<Edge>, rows: map<string, R>)
      ensures this.edges == edges && this.rows == rows && nodes == []
    {
      this.edges, this.rows, nodes := edges, rows, [];
    }

    /** `walk`; `trail` and `lasts` only say where the visit stands. */
    method Walk(chat: string, kind: string, guide: string, branch: string, path: set<string>, ghost trail: seq<string>,
                ghost lasts: seq<bool>)
      requires trail != [] && chat == Last(trail) && path == Above(trail) && |lasts| == |trail| - 1
      requires guide == Guide(if lasts == [] then [] else lasts[..|lasts| - 1])
      requires branch == if lasts == [] then "" else if lasts[|lasts| - 1] then "└─ " else "├─ "
      modifies this
      ensures forall i :: 0 <= i < |Spots(edges, trail, kind, lasts)| ==> Spots(edges, trail, kind, lasts)[i].trail != []
      ensures nodes == old(nodes) + Drawn(Spots(edges, trail, kind, lasts), rows)
      decreases Room(edges, trail)
    {
      hide *;
      TailStart(edges, trail, kind, lasts, rows, path, guide + branch);
      nodes := nodes + [Node(chat, guide + branch, kind, if chat in rows then Some(rows[chat]) else None)];
      var kids := NotIn(Kids(edges, chat), path);
      var extension := if branch == "" then "" else if branch[0] == '└' then "   " else "│  ";
      DownGuide(lasts, guide, branch);
      var index := 0;
      while index < |kids|
        invariant index <= |kids| && kids == KidsAt(edges, trail)
        invariant nodes + Tail(edges, trail, lasts, index, rows) == old(nodes) + Drawn(Spots(edges, trail, kind, lasts), rows)
      {
        var last := index == |kids| - 1;
        RoomFalls(edges, trail, kids[index]);
        DownTrail(trail, kids[index].chat, lasts, last);
        TailStep(edges, trail, lasts, index, rows);
        ghost var down, mine, before := trail + [kids[index].chat], lasts + [last], nodes;
        Walk(kids[index].chat, kids[index].kind, guide + extension, if last then "└─ " else "├─ ", path + {chat}, down, mine);
        Sequences.Reassociate(before, Drawn(Spots(edges, down, kids[index].kind, mine), rows), Tail(edges, trail, lasts, index + 1, rows));
        index := index + 1;
      }
      TailEnd(edges, trail, lasts, rows);
    }
  }

  lemma DownGuide(lasts: seq<bool>, guide: string, branch: string)
    requires guide == Guide(if lasts == [] then [] else lasts[..|lasts| - 1])
    requires branch == if lasts == [] then "" else if lasts[|lasts| - 1] then "└─ " else "├─ "
    ensures guide + (if branch == "" then "" else if branch[0] == '└' then "   " else "│  ") == Guide(lasts)
  {
    GuideGrows(lasts);
  }

  lemma DownTrail(trail: seq<string>, chat: string, lasts: seq<bool>, last: bool)
    requires trail != [] && |lasts| == |trail| - 1
    ensures
      var down, mine := trail + [chat], lasts + [last];
      && Last(down) == chat && Above(down) == Above(trail) + {Last(trail)}
      && mine[..|mine| - 1] == lasts && mine[|mine| - 1] == last && |mine| == |down| - 1
  {
    AboveDown(trail, chat);
  }

  lemma {:induction false} TailStart<R>(edges: seq<Edge>, trail: seq<string>, kind: string, lasts: seq<bool>, rows: map<string, R>, path: set<string>,
                     prefix: string)
    requires trail != [] && |lasts| == |trail| - 1 && path == Above(trail)
    requires prefix == Guide(if lasts == [] then [] else lasts[..|lasts| - 1])
                       + (if lasts == [] then "" else if lasts[|lasts| - 1] then "└─ " else "├─ ")
    ensures NotIn(Kids(edges, Last(trail)), path) == KidsAt(edges, trail)
    ensures forall i :: 0 <= i < |Spots(edges, trail, kind, lasts)| ==> Spots(edges, trail, kind, lasts)[i].trail != []
    ensures
      var chat := Last(trail);
      Drawn(Spots(edges, trail, kind, lasts), rows)
      == [Node(chat, prefix, kind, if chat in rows then Some(rows[chat]) else None)] + Tail(edges, trail, lasts, 0, rows)
  {
    hide Room;
    var head := [Spot(trail, kind, lasts)];
    SpotsHaveTrails(edges, trail, kind, lasts);
    KidSpotsHaveTrails(edges, trail, lasts, 0);
    DrawnAppends(head, KidSpots(edges, trail, lasts, 0), rows);
    assert prefix == Prefix(lasts);
    assert Spots(edges, trail, kind, lasts) == head + KidSpots(edges, trail, lasts, 0);
  }

  lemma TailEnd<R>(edges: seq<Edge>, trail: seq<string>, lasts: seq<bool>, rows: map<string, R>)
    requires trail != []
    ensures Tail(edges, trail, lasts, |KidsAt(edges, trail)|, rows) == []
  {
  }

  lemma {:induction false} SpotsHaveTrails(edges: seq<Edge>, trail: seq<string>, kind: string, lasts: seq<bool>)
    requires trail != []
    ensures forall i :: 0 <= i < |Spots(edges, trail, kind, lasts)| ==> Spots(edges, trail, kind, lasts)[i].trail != []
  {
    var spots := Spots(edges, trail, kind, lasts);
    forall i | 0 <= i < |spots| ensures spots[i].trail != [] {
      SpotsAreTrails(edges, trail, kind, lasts, spots[i].trail);
      assert Has(spots, spots[i].trail);
    }
  }

  lemma {:induction false} KidSpotsHaveTrails(edges: seq<Edge>, trail: seq<string>, lasts: seq<bool>, from: nat)
    requires trail != [] && from <= |KidsAt(edges, trail)|
    ensures forall i :: 0 <= i < |KidSpots(edges, trail, lasts, from)| ==> KidSpots(edges, trail, lasts, from)[i].trail != []
  {
    var spots := KidSpots(edges, trail, lasts, from);
    forall i | 0 <= i < |spots| ensures spots[i].trail != [] {
      KidSpotsAreTrails(edges, trail, lasts, from, spots[i].trail);
      assert Has(spots, spots[i].trail);
    }
  }

  /** What the loop over the children still has to draw. */
  ghost function Tail<R>(edges: seq<Edge>, trail: seq<string>, lasts: seq<bool>, from: nat, rows: map<string, R>): seq<Node<R>>
    requires trail != [] && from <= |KidsAt(edges, trail)|
  {
    KidSpotsHaveTrails(edges, trail, lasts, from);
    Drawn(KidSpots(edges, trail, lasts, from), rows)
  }

  lemma {:induction false} TailStep<R>(edges: seq<Edge>, trail: seq<string>, lasts: seq<bool>, from: nat, rows: map<string, R>)
    requires trail != [] && from < |KidsAt(edges, trail)|
    ensures
      var kids := KidsAt(edges, trail);
      var mine := Spots(edges, trail + [kids[from].chat], kids[from].kind, lasts + [from == |kids| - 1]);
      && (forall i :: 0 <= i < |mine| ==> mine[i].trail != [])
      && Tail(edges, trail, lasts, from, rows) == Drawn(mine, rows) + Tail(edges, trail, lasts, from + 1, rows)
  {
    hide Room;
    var kids := KidsAt(edges, trail);
    RoomFalls(edges, trail, kids[from]);
    SpotsHaveTrails(edges, trail + [kids[from].chat], kids[from].kind, lasts + [from == |kids| - 1]);
    KidSpotsHaveTrails(edges, trail, lasts, from + 1);
    var mine := Spots(edges, trail + [kids[from].chat], kids[from].kind, lasts + [from == |kids| - 1]);
    assert KidSpots(edges, trail, lasts, from) == mine + KidSpots(edges, trail, lasts, from + 1);
    DrawnAppends(mine, KidSpots(edges, trail, lasts, from + 1), rows);
  }

  lemma DrawnAppends<R>(a: seq<Spot>, b: seq<Spot>, rows: map<string, R>)
    requires forall i :: 0 <= i < |a| ==> a[i].trail != []
    requires forall i :: 0 <= i < |b| ==> b[i].trail != []
    ensures Drawn(a + b, rows) == Drawn(a, rows) + Drawn(b, rows)
  {
  }

  /** `build_lineage_nodes` */
  method BuildLineageNodes<R>(origin: string, edges: seq<Edge>, rows: map<string, R>) returns (nodes: seq<Node<R>>)
    ensures nodes == LineageNodes(origin, edges, rows)
  {
    hide *;
    var roots := Roots(origin, edges);
    LaterStart(origin, edges, rows);
    var walker := new Walker(edges, rows);
    var i := 0;
    while i < |roots|
      invariant i <= |roots|
      invariant walker.edges == edges && walker.rows == rows
      invariant walker.nodes + Later(edges, roots, i, rows) == LineageNodes(origin, edges, rows)
    {
      LaterStep(edges, roots, i, rows);
      RootTrail(roots[i]);
      ghost var before := walker.nodes;
      walker.Walk(roots[i], "", "", "", {}, [roots[i]], []);
      Sequences.Reassociate(before, Drawn(Spots(edges, [roots[i]], "", []), rows), Later(edges, roots, i + 1, rows));
      i := i + 1;
    }
    LaterEnd(edges, roots, rows);
    nodes := walker.nodes;
  }

  lemma RootTrail(root: string)
    ensures Last([root]) == root && Above([root]) == {} && Guide([]) == ""
  {
  }

  lemma LaterStart<R>(origin: string, edges: seq<Edge>, rows: map<string, R>)
    ensures [] + Later(edges, Roots(origin, edges), 0, rows) == LineageNodes(origin, edges, rows)
  {
    assert Roots(origin, edges)[0..] == Roots(origin, edges);
  }

  lemma LaterEnd<R>(edges: seq<Edge>, roots: seq<string>, rows: map<string, R>)
    ensures Later(edges, roots, |roots|, rows) == []
  {
    assert roots[|roots|..] == [];
  }

  ghost function Later<R>(edges: seq<Edge>, roots: seq<string>, from: nat, rows: map<string, R>): seq<Node<R>>
    requires from <= |roots|
  {
    ForestHasTrails(edges, roots[from..]);
    Drawn(Forest(edges, roots[from..]), rows)
  }

  lemma {:induction false} LaterStep<R>(edges: seq<Edge>, roots: seq<string>, from: nat, rows: map<string, R>)
    requires from < |roots|
    ensures
      var mine := Spots(edges, [roots[from]], "", []);
      && (forall i :: 0 <= i < |mine| ==> mine[i].trail != [])
      && Later(edges, roots, from, rows) == Drawn(mine, rows) + Later(edges, roots, from + 1, rows)
  {
    var mine := Spots(edges, [roots[from]], "", []);
    SpotsHaveTrails(edges, [roots[from]], "", []);
    ForestHasTrails(edges, roots[from + 1..]);
    assert roots[from..] == [roots[from]] + roots[from + 1..];
    assert Forest(edges, roots[from..]) == mine + Forest(edges, roots[from + 1..]);
    DrawnAppends(mine, Forest(edges, roots[from + 1..]), rows);
  }
}
