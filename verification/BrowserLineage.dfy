/** The lineage view on top of the drawn tree: what the browser shows once the lineage has loaded. */
module BrowserLineage {
  import opened Options
  import opened BrowserViews
  import opened BrowserState
  import L = Lanes
  import T = LineageTree

  /** The drawn lines as the view keeps them. */
  function Shown(nodes: seq<T.Node<Row>>): seq<Node> {
    seq(|nodes|, i requires 0 <= i < |nodes| => Node(nodes[i].chat, nodes[i].row))
  }

  function Tree(origin: string, edges: seq<T.Edge>, rows: map<string, Row>): L.Outcome {
    L.Traced(Shown(T.LineageNodes(origin, edges, rows)))
  }

  lemma {:induction false} FirstOfIs(nodes: seq<Node>, chatId: string, from: nat)
    requires from <= |nodes|
    ensures
      var at := FirstOf(nodes, chatId, from);
      if exists i :: from <= i < |nodes| && nodes[i].chatId == chatId
      then from <= at < |nodes| && nodes[at].chatId == chatId && forall i :: from <= i < at ==> nodes[i].chatId != chatId
      else at == 0
    decreases |nodes| - from
  {
    if from < |nodes| {
      FirstOfIs(nodes, chatId, from + 1);
    }
  }

  /** Whatever edges and rows are found, the tree drawn for them is a result the request may bring; it
      gives the view a selected line, which is the first line of the chat the view was opened for
      exactly when some root leads to that chat. */
  lemma TreeIsShown(b: Browser, view: nat, edges: seq<T.Edge>, rows: map<string, Row>)
    requires view < |b.views| && b.views[view].Lineage?
    ensures
      var origin := b.views[view].origin;
      var outcome := Tree(origin, edges, rows);
      var after := b.Deliver(L.LoadLineage(view), outcome).views[view];
      && Suits(L.LoadLineage(view), outcome)
      && after.Lineage? && after.nodes == Some(outcome.nodes) && after.cursor < |outcome.nodes|
      && (outcome.nodes[after.cursor].chatId == origin <==> T.ReachedFrom(edges, T.Roots(origin, edges), origin))
      && (forall i :: 0 <= i < after.cursor ==> outcome.nodes[i].chatId != origin)
  {
    hide T.LineageNodes, T.ReachedFrom, T.Roots;
    var origin := b.views[view].origin;
    var drawn := T.LineageNodes(origin, edges, rows);
    T.SomethingIsDrawn(origin, edges, rows);
    T.DrawnChats(origin, edges, rows, origin);
    var nodes := Shown(drawn);
    FirstOfIs(nodes, origin, 0);
    assert forall i :: 0 <= i < |nodes| ==> nodes[i].chatId == drawn[i].chat;
  }
}
