/** The keys besides opening: the controls over the list, erasing, the way out, and the keys of the views on top; and
    what the results that are no rows do. */
module BrowserControls {
  import opened Options
  import opened PyText
  import opened BrowserViews
  import opened BrowserState
  import opened BrowserInvariants
  import opened BrowserKeys
  import opened BrowserJourneys
  import L = Lanes

  function Repeat(key: Key, n: nat): seq<Event> {
    seq(n, i requires 0 <= i < n => Pressed(key))
  }

  lemma RepeatFront(key: Key, n: nat)
    requires n > 0
    ensures Repeat(key, n) == [Pressed(key)] + Repeat(key, n - 1)
  {
  }

  // ----- The controls

  /** Tab goes round the list and its two controls. */
  const ROUND: seq<Option<Control>> := [None, Some(StatusControl), Some(SortControl)]

  lemma {:induction false} TabsCycle(b: Browser, at: nat, n: nat)
    requires b.stack == [] && !b.prompting && !b.lanes.closed && b.list.searchMode != Input
    requires at < 3 && b.list.focus == ROUND[at]
    ensures Play(b, Repeat(Tab, n)) == Some(b.(list := b.list.(focus := ROUND[(at + n) % 3])))
    decreases n
  {
    hide Play, Repeat;
    if n == 0 {
      PlayNothing(b);
      assert Repeat(Tab, 0) == [] by { NoRepeat(Tab); }
    } else {
      RepeatFront(Tab, n);
      PlayStep(b, Pressed(Tab), Repeat(Tab, n - 1));
      var next := if at == 2 then 0 else at + 1;
      assert b.Press(Tab) == b.(list := b.list.(focus := ROUND[next]));
      TabsCycle(b.Press(Tab), next, n - 1);
    }
  }

  lemma NoRepeat(key: Key)
    ensures Repeat(key, 0) == []
  {
  }

  /** The list waits for the rows of changed controls; the cursor stays, within the rows. */
  ghost function Restated(list: ListState, status: Status, sort: Sort): ListState {
    list.(status := status, sort := sort, pending := true, searchMode := Off, searchQuery := [], scanned := 0, total := 0,
          unavailable := 0, matches := {}, highlight := Within(list.highlight, |list.listing.rows|))
  }

  /** A step on a control takes its other value, keeps the filter, and asks for the rows; without a control in focus
      nothing happens. */
  lemma ArrowSteps(b: Browser, delta: int)
    requires OnList(b) && delta % 2 == 1
    ensures
      var after, list := b.Press(Arrow(delta)), b.list;
      var status := if list.focus != Some(StatusControl) then list.status else if list.status == Active then Archived else Active;
      var sort := if list.focus != Some(SortControl) then list.sort else if list.sort == Updated then Created else Updated;
      if list.focus == None then after == b
      else after == b.(list := Restated(list, status, sort), lanes := after.lanes)
           && Queries(b.lanes, after.lanes, 1, Scope(status, sort, Strip(list.filterText)))
  {
    hide L.Sound, Queries, Strip, RowsIn, L.State.Cancel, L.State.Run;
    var stepped := b.list.StepFocused(delta);
    QueriesOnce(b.lanes, Scope(stepped.status, stepped.sort, Strip(stepped.filterText)));
  }

  // ----- Erasing

  /** Backspace takes the filter's last character away and asks for the rows of what is left; with nothing left to erase
      it asks again. */
  lemma BackspaceErases(b: Browser, filter: string)
    requires OnList(b) && b.list.searchMode == Off
    requires (b.list.filterText == [] && filter == []) || exists c :: b.list.filterText == filter + [c]
    ensures
      var after := b.Press(Backspace);
      && after == b.(list := Waiting(b.list, filter), lanes := after.lanes) && OnList(after)
      && Queries(b.lanes, after.lanes, 1, Scope(b.list.status, b.list.sort, Strip(filter)))
  {
    hide L.Sound, Queries, Strip;
    assert DropLast(b.list.filterText) == filter;
    RequeryIs(b, b.list.EditFilter(filter));
    SoundAfter(b.lanes, b.Press(Backspace).lanes, 1, Scope(b.list.status, b.list.sort, Strip(filter)));
  }

  /** Text that is typed and erased again leaves the inputs as they were, and asks for their rows. */
  lemma {:induction false} TypedThenErased(b: Browser, text: string)
    requires OnList(b) && b.list.searchMode == Off && text != [] && IsFilterText(b.list.filterText, text)
    ensures
      match Play(b, Typing(text) + Repeat(Backspace, |text|))
      case None => false
      case Some(after) =>
        && after == b.(list := Waiting(b.list.(focus := None), b.list.filterText), lanes := after.lanes)
        && Queries(b.lanes, after.lanes, 2 * |text|, Scope(b.list.status, b.list.sort, Strip(b.list.filterText)))
  {
    hide L.Sound, Queries, Strip, Play, Typing, Repeat;
    TypingQueries(b, text);
    PlayJoin(b, Typing(text), Repeat(Backspace, |text|));
    var typed := Play(b, Typing(text)).value;
    ErasingQueries(typed, b.list.filterText, text);
    QueriesBoth(b.lanes, typed.lanes, Play(typed, Repeat(Backspace, |text|)).value.lanes, |text|, |text|,
                Scope(b.list.status, b.list.sort, Strip(b.list.filterText + text)),
                Scope(b.list.status, b.list.sort, Strip(b.list.filterText)));
  }

  lemma {:induction false} ErasingQueries(b: Browser, filter: string, text: string)
    requires OnList(b) && b.list.searchMode == Off && text != [] && b.list.filterText == filter + text
    ensures
      match Play(b, Repeat(Backspace, |text|))
      case None => false
      case Some(after) =>
        && after == b.(list := Waiting(b.list, filter), lanes := after.lanes) && OnList(after)
        && Queries(b.lanes, after.lanes, |text|, Scope(b.list.status, b.list.sort, Strip(filter)))
    decreases |text|
  {
    hide L.Sound, Queries, Strip, Play, Repeat, Browser.Press;
    var n := |text| - 1;
    var left := filter + text[..n];
    assert b.list.filterText == left + [text[n]];
    BackspaceErases(b, left);
    RepeatFront(Backspace, |text|);
    PlayStep(b, Pressed(Backspace), Repeat(Backspace, n));
    var after := b.Press(Backspace);
    if n == 0 {
      NoRepeat(Backspace);
      PlayNothing(after);
      assert left == filter;
    } else {
      ErasingQueries(after, filter, text[..n]);
      QueriesBoth(b.lanes, after.lanes, Play(after, Repeat(Backspace, n)).value.lanes, 1, n,
                  Scope(b.list.status, b.list.sort, Strip(left)), Scope(b.list.status, b.list.sort, Strip(filter)));
    }
  }

  lemma QueriesBoth(s: L.State, t: L.State, u: L.State, n: nat, m: nat, earlier: Scope, scope: Scope)
    requires Queries(s, t, n, earlier) && Queries(t, u, m, scope) && m > 0
    ensures Queries(s, u, n + m, scope)
  {
    hide L.Sound;
    var k := |s.workers|;
    assert u.workers[..k] == u.workers[..|t.workers|][..k];
    forall w: nat | w < k ensures t.workers[w] == s.workers[w] {
      assert t.workers[w] == t.workers[..k][w];
    }
  }

  /** In the search line Backspace takes the query's last character away, and asks for nothing. */
  lemma BackspaceInSearch(b: Browser, query: string)
    requires b.stack == [] && !b.prompting && b.list.searchMode == Input
    requires (b.list.searchQuery == [] && query == []) || exists c :: b.list.searchQuery == query + [c]
    ensures b.Press(Backspace) == b.(list := b.list.(searchQuery := query))
  {
    assert DropLast(b.list.searchQuery) == query;
  }

  // ----- The way out

  /** How many things stand between the browser and its end. */
  function Layers(b: Browser): nat {
    (if b.prompting then 1 else 0) + |b.stack| + (if b.list.searchMode != Off then 1 else 0)
    + (if b.list.focus != None then 1 else 0) + (if b.list.filterText != [] then 1 else 0)
  }

  /** One Escape takes one layer away, the last one ends the browser. */
  lemma EscapeStrips(b: Browser)
    requires !b.lanes.closed && (b.stack != [] ==> b.HasTop())
    ensures
      var after := b.Press(Escape);
      if Layers(b) == 0 then after == b.(lanes := after.lanes) && after.lanes.closed
      else !after.lanes.closed && Layers(after) == Layers(b) - 1
  {
    hide Strip, RowsIn;
  }

  lemma StackIsThere(b: Browser)
    requires Inv(b)
    ensures b.stack != [] ==> b.HasTop()
  {
  }

  /** From any state, as many Escapes as there are layers and one more lead out of the browser, and no fewer. */
  lemma {:induction false} EscapesLeave(b: Browser, n: nat)
    requires Inv(b) && !b.lanes.closed && n <= Layers(b) + 1
    ensures
      match Play(b, Repeat(Escape, n))
      case None => false
      case Some(after) => after.lanes.closed <==> n == Layers(b) + 1
    decreases n
  {
    hide Inv, Play, Repeat, Layers, Browser.Press;
    if n == 0 {
      NoRepeat(Escape);
      PlayNothing(b);
    } else {
      RepeatFront(Escape, n);
      PlayStep(b, Pressed(Escape), Repeat(Escape, n - 1));
      StackIsThere(b);
      EscapeStrips(b);
      PressKeeps(b, Escape);
      if Layers(b) == 0 {
        NoRepeat(Escape);
        PlayNothing(b.Press(Escape));
      } else {
        EscapesLeave(b.Press(Escape), n - 1);
      }
    }
  }

  /** Escape over the list: the search goes first, and all rows are shown again; then the focus; then the filter, whose
      rows are asked for. */
  lemma EscapeOnList(b: Browser)
    requires OnList(b) && Layers(b) > 0
    ensures
      var after, list := b.Press(Escape), b.list;
      if list.searchMode != Off then
        after == b.(list := list.(searchMode := Off, searchQuery := [], scanned := 0, total := 0, unavailable := 0, matches := {},
                                  highlight := Within(list.highlight, |list.listing.rows|)), lanes := after.lanes)
        && Asks(b.lanes, after.lanes, [], {L.SearchLane})
      else if list.focus != None then after == b.(list := list.(focus := None))
      else after == b.(list := Waiting(list, []), lanes := after.lanes)
           && Queries(b.lanes, after.lanes, 1, Scope(list.status, list.sort, []))
  {
    hide L.Sound, Queries, Asks, RowsIn, L.State.Cancel, L.State.Run;
    CancelStops(b.lanes, L.SearchLane);
    RequeryIs(b, b.list.EditFilter([]));
  }

  // ----- The prompt

  /** While the prompt is open only three keys reach the browser. */
  lemma PromptHoldsKeys(b: Browser, key: Key)
    requires b.prompting
    ensures b.Press(key) == match key
                            case Escape => b.(prompting := false)
                            case Enter(_) => b.(lanes := b.lanes.(closed := true))
                            case CtrlC => b.(lanes := b.lanes.(closed := true))
                            case _ => b
  {
  }

  // ----- The views on top

  /** A view on top, open, and not prompting. */
  ghost predicate OnView(b: Browser) {
    b.HasTop() && !b.prompting && !b.lanes.closed && L.Sound(b.lanes)
  }

  /** The keys of a detail: `l` opens the lineage of its chat, `n` starts from it, Enter leaves for it, and the keys of
      the list do nothing. */
  lemma DetailKeys(b: Browser, key: Key)
    requires OnView(b) && b.Top().Detail? && key != Escape && key != CtrlC
    ensures
      var after, chatId, row := b.Press(key), b.Top().chatId, b.Top().row;
      if key == CtrlL || (key.Character? && key.c == 'l') then ShowsLineage(b, after, chatId)
      else if key == CtrlN || (key.Character? && key.c == 'n') then
        after == if row == None then Told(b, chatId + ": not in this project's index")
                 else if row.value.blocked == None then b.(prompting := true)
                 else Told(b, chatId + ": " + row.value.blocked.value)
      else if key.Enter? then
        after == if key.blocked == None then b.(lanes := b.lanes.(closed := true)) else Told(b, chatId + ": " + key.blocked.value)
      else after == b
  {
    hide L.Sound, ShowsLineage;
    OpenShowsLineage(b, b.Top().chatId);
  }

  /** The detail on top shows a message. */
  ghost function Told(b: Browser, text: string): Browser
    requires b.HasTop() && b.Top().Detail?
  {
    var view := b.stack[|b.stack| - 1];
    b.(views := b.views[view := b.views[view].(message := Some(text))])
  }

  /** Steps through a lineage that has loaded, then Enter: the detail of the chat on the line they land on comes on top. */
  lemma {:induction false} LineageSteps(b: Browser, deltas: seq<int>)
    requires OnView(b) && b.Top().Lineage? && b.Top().nodes.Some? && b.Top().cursor < |b.Top().nodes.value|
    ensures
      var view, n := b.stack[|b.stack| - 1], |b.Top().nodes.value|;
      && 0 <= Landed(b.Top().cursor, deltas, n) < n
      && Play(b, Moves(deltas)) == Some(b.(views := b.views[view := b.Top().(cursor := Landed(b.Top().cursor, deltas, n))]))
    decreases |deltas|
  {
    hide L.Sound, Play, Moves;
    var view, n := b.stack[|b.stack| - 1], |b.Top().nodes.value|;
    if deltas == [] {
      PlayNothing(b);
      NoMoves();
      assert b.views[view := b.Top()] == b.views;
    } else {
      MovesFront(deltas);
      PlayStep(b, Pressed(Move(deltas[0])), Moves(deltas[1..]));
      var moved := b.(views := b.views[view := b.Top().(cursor := Within(b.Top().cursor + deltas[0], n))]);
      assert b.Press(Move(deltas[0])) == moved;
      LineageSteps(moved, deltas[1..]);
      var landed := b.Top().(cursor := Landed(b.Top().cursor, deltas, n));
      assert moved.Top().(cursor := landed.cursor) == landed;
      assert moved.views[view := landed] == b.views[view := landed];
    }
  }

  lemma NoMoves()
    ensures Moves([]) == []
  {
  }

  lemma MovesFront(deltas: seq<int>)
    requires deltas != []
    ensures Moves(deltas) == [Pressed(Move(deltas[0]))] + Moves(deltas[1..])
  {
  }

  lemma {:induction false} LineageStepsThenEnter(b: Browser, deltas: seq<int>, blocked: Option<string>)
    requires OnView(b) && b.Top().Lineage? && b.Top().nodes.Some? && b.Top().cursor < |b.Top().nodes.value|
    ensures
      var view, nodes := b.stack[|b.stack| - 1], b.Top().nodes.value;
      var at := Landed(b.Top().cursor, deltas, |nodes|);
      && 0 <= at < |nodes|
      && match Play(b, Moves(deltas) + [Pressed(Enter(blocked))])
         case None => false
         case Some(after) =>
           ShowsDetail(b.(views := b.views[view := b.Top().(cursor := at)]), after, nodes[at].chatId, nodes[at].row)
  {
    hide L.Sound, Play, Moves, Browser.OpenDetail, ShowsDetail;
    LineageSteps(b, deltas);
    PlayThenKey(b, Moves(deltas), Enter(blocked));
    var moved := Play(b, Moves(deltas)).value;
    var node := moved.Top().nodes.value[moved.Top().cursor];
    OpenShowsDetail(moved, node.chatId, node.row);
  }

  /** The other keys do nothing to a lineage. */
  lemma LineageKeys(b: Browser, key: Key)
    requires OnView(b) && b.Top().Lineage? && !key.Move? && !key.Enter? && key != Escape && key != CtrlC
    ensures b.Press(key) == b
  {
    hide L.Sound;
  }

  /** Escape uncovers the view below; a detail that still has nothing to show is loaded again. */
  lemma EscapeUncovers(b: Browser)
    requires OnView(b)
    ensures
      var after, below := b.Press(Escape), b.stack[..|b.stack| - 1];
      && after.stack == below && after.list == b.list && after.snapshot == b.snapshot && !after.prompting
      && (below == [] || below[|below| - 1] >= |b.views|
          || b.views[below[|below| - 1]].Lineage? || b.views[below[|below| - 1]].window.Some? || b.views[below[|below| - 1]].error.Some?
          ==> after.views == b.views
              && Asks(b.lanes, after.lanes, [], if b.Top().Detail? then {L.TranscriptLane, L.ModelLane} else {L.LineageLane}))
  {
    hide L.Sound, Asks, L.State.Cancel, L.State.Run;
    if b.Top().Detail? {
      CancelStops(b.lanes, L.TranscriptLane);
      L.CancelIsSound(b.lanes, L.TranscriptLane);
      CancelStops(b.lanes.Cancel(L.TranscriptLane), L.ModelLane);
      AsksThen(b.lanes, b.lanes.Cancel(L.TranscriptLane), b.lanes.Cancel(L.TranscriptLane).Cancel(L.ModelLane), [],
               {L.TranscriptLane}, [], {L.ModelLane});
      assert {L.TranscriptLane} + {L.ModelLane} == {L.TranscriptLane, L.ModelLane};
      var none: seq<L.Request> := [];
      assert none + none == none;
    } else {
      CancelStops(b.lanes, L.LineageLane);
    }
  }

  // ----- Results that are no rows

  /** What a failure says, and where: the list shows no pending reload and no running search, a view shows why it is
      empty, and a model is left as it is. */
  lemma FailureSays(b: Browser, request: L.Request, reason: string)
    requires b.list.highlight >= 0
    requires match request
             case LoadTranscript(view, _, _) => view < |b.views| && b.views[view].Detail?
             case LoadLineage(view) => view < |b.views| && b.views[view].Lineage?
             case _ => true
    ensures
      b.Deliver(request, L.Raised(reason))
      == match request
         case Query(_) => b.(list := b.list.(pending := false, message := Some("could not load sessions: " + reason)))
         case Search(_) =>
           b.(list := b.list.(searchMode := Off, searchQuery := [], scanned := 0, total := 0, unavailable := 0, matches := {},
                              highlight := Within(b.list.highlight, |b.list.listing.rows|),
                              message := Some("search failed: " + reason)))
         case LoadTranscript(view, _, _) =>
           b.(views := b.views[view := b.views[view].(error := Some("transcript unavailable: " + reason))])
         case LoadLineage(view) =>
           b.(views := b.views[view := b.views[view].(failure := Some("lineage unavailable: " + reason))])
         case RefreshModel(_, _) => b
  {
    hide RowsIn;
  }

  /** A refreshed model reaches the view and the rows of its chat, and nothing else; no model, or an empty one, changes
      nothing. */
  lemma ModelReaches(b: Browser, view: nat, chatId: string, model: Option<string>)
    requires view < |b.views| && b.views[view].Detail?
    ensures
      var after := b.Deliver(L.RefreshModel(view, chatId), L.Refreshed(model));
      if model == None || model == Some([]) then after == b
      else
        var rows, shown := b.list.listing.rows, after.list.listing.rows;
        && after == b.(views := b.views[view := b.views[view].(model := model.value)],
                       list := b.list.(listing := Listing(b.list.listing.answers, shown)))
        && |shown| == |rows|
        && forall i :: 0 <= i < |rows| ==>
             shown[i] == if rows[i].chatId == chatId then rows[i].(model := model.value) else rows[i]
  {
  }

  /** Progress of a running search shows in the two counters alone. */
  lemma ProgressShows(b: Browser, w: nat, scanned: nat, unavailable: nat)
    requires b.lanes.queue != [] && b.lanes.queue[0] == L.Progress(w, scanned, unavailable) && w < |b.lanes.workers|
    ensures
      var after := b.RunNext();
      after == if b.lanes.Current(w) then b.(list := b.list.(scanned := scanned, unavailable := unavailable), lanes := after.lanes)
               else b.(lanes := after.lanes)
  {
  }

  /** The browser opens on the rows it is given, at the first of them, with nothing typed, asked for or on top. */
  lemma OpensOnRows(rows: seq<Row>, status: Status, sort: Sort)
    ensures
      var b := Opened(rows, status, sort);
      && OnList(b) && Layers(b) == 0 && b.list.VisibleRows() == rows && b.list.highlight == 0 && !b.list.pending
      && b.list.scanned == b.list.total == b.list.unavailable == 0 && b.list.matches == {} && b.list.searchQuery == []
      && b.list.status == status && b.list.sort == sort && b.list.message == None && b.views == [] && b.snapshot == None
      && b.lanes.workers == [] && b.lanes.queue == []
      && b.list.loaded == Scope(status, sort, []) && b.list.listing.answers == Scope(status, sort, [])
      && IsUnder(b.list, 0, if rows == [] then None else Some(rows[0]))
  {
    hide L.Sound;
    OpenedIsSound(rows, status, sort);
  }

  /** A query that finds itself superseded after its debounce may bring the rows on screen. */
  lemma SupersededMayReturn(b: Browser, w: nat)
    requires w < |b.lanes.workers| && b.lanes.workers[w].phase == L.Working && b.lanes.workers[w].request.Query?
    requires !b.lanes.Current(w)
    ensures Enabled(b, Worked(L.Compute(w, L.Listed(b.list.listing))))
  {
  }
}
