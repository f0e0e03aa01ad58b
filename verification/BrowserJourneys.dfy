/** Whole journeys through the browser, from the keys of a query or a search to the chat that is opened, and back out. */
module BrowserJourneys {
  import opened Options
  import opened PyText
  import opened BrowserViews
  import opened BrowserState
  import opened BrowserInvariants
  import opened BrowserKeys
  import L = Lanes

  function Typing(text: string): seq<Event> {
    seq(|text|, i requires 0 <= i < |text| => Pressed(Character(text[i], true)))
  }

  // ----- The filter

  /** Characters that are text for the filter: no key of the list's own. */
  predicate IsFilterText(filter: string, text: string) {
    && ' ' !in text && '/' !in text
    && (filter == [] && text != [] ==> text[0] != 'l' && text[0] != 'n')
  }

  /** The inputs are typed anew: the list waits for their rows, from its first row on, and any search is over. */
  ghost function Waiting(list: ListState, filter: string): ListState {
    list.(filterText := filter, highlight := 0, message := None, pending := true, searchMode := Off, searchQuery := [],
          scanned := 0, total := 0, unavailable := 0, matches := {})
  }

  /** The query for the inputs is asked for, and nothing else but the newest query is wanted of the list's lanes. */
  ghost predicate Queries(before: L.State, after: L.State, n: nat, scope: Scope) {
    && |after.workers| == |before.workers| + n && after.workers[..|before.workers|] == before.workers
    && after.queue == before.queue && after.log == before.log && after.closed == before.closed && L.Sound(after)
    && (n > 0 ==> IsNew(after, |after.workers| - 1, L.Query(scope)))
    && (forall w: nat :: w < |before.workers| ==>
          (after.Current(w) <==> before.Current(w) && (n > 0 ==> L.LaneOf(before.workers[w].request) !in {L.ListLane, L.SearchLane})))
  }

  lemma QueriesOnce(s: L.State, scope: Scope)
    requires L.Sound(s) && !s.closed
    ensures Queries(s, s.Cancel(L.SearchLane).Run(L.Query(scope)), 1, scope)
  {
    L.CancelIsSound(s, L.SearchLane);
    L.RunIsSound(s.Cancel(L.SearchLane), L.Query(scope));
  }

  lemma QueriesAgain(s: L.State, t: L.State, u: L.State, n: nat, earlier: Scope, scope: Scope)
    requires Queries(s, t, n, earlier) && Queries(t, u, 1, scope)
    ensures Queries(s, u, n + 1, scope)
  {
    hide L.Sound;
    var k := |s.workers|;
    assert u.workers[..k] == u.workers[..|t.workers|][..k];
    forall w: nat | w < k ensures t.workers[w] == s.workers[w] {
      assert t.workers[w] == t.workers[..k][w];
    }
  }

  lemma QueriesNone(s: L.State, scope: Scope)
    requires L.Sound(s)
    ensures Queries(s, s, 0, scope)
  {
    hide L.Sound;
  }

  lemma RequeryIs(b: Browser, list: ListState)
    requires L.Sound(b.lanes) && !b.lanes.closed && list.highlight == 0 && list.message == None
    ensures
      var after := b.(list := list).Requery();
      && after == b.(list := Waiting(list, list.filterText), lanes := after.lanes)
      && Queries(b.lanes, after.lanes, 1, Scope(list.status, list.sort, Strip(list.filterText)))
  {
    hide L.Sound, Queries, RowsIn, Strip, L.State.Cancel, L.State.Run;
    QueriesOnce(b.lanes, Scope(list.status, list.sort, Strip(list.filterText)));
  }

  /** One more character of the filter. */
  lemma TypesOne(b: Browser, c: char)
    requires OnList(b) && b.list.searchMode == Off && IsFilterText(b.list.filterText, [c])
    ensures
      var after, filter := b.Press(Character(c, true)), b.list.filterText + [c];
      && after == b.(list := Waiting(b.list.(focus := None), filter), lanes := after.lanes)
      && Queries(b.lanes, after.lanes, 1, Scope(b.list.status, b.list.sort, Strip(filter)))
  {
    hide L.Sound, Queries, Strip;
    assert c != ' ' && c != '/' by { assert [c][0] == c; }
    RequeryIs(b, b.list.(focus := None).EditFilter(b.list.filterText + [c]));
  }

  /** The list after `text` is typed. */
  ghost function TypedList(list: ListState, text: string): ListState {
    if text == [] then list else Waiting(list.(focus := None), list.filterText + text)
  }

  /** Typing edits the filter, takes the focus off the controls, and asks for the sessions of the whole filter; no chat
      is opened on the way. */
  lemma {:induction false} TypingQueries(b: Browser, text: string)
    requires OnList(b) && b.list.searchMode == Off && IsFilterText(b.list.filterText, text)
    ensures
      var list := TypedList(b.list, text);
      match Play(b, Typing(text))
      case None => false
      case Some(after) =>
        && after == b.(list := list, lanes := after.lanes) && OnList(after)
        && Queries(b.lanes, after.lanes, |text|, Scope(b.list.status, b.list.sort, Strip(b.list.filterText + text)))
    decreases |text|
  {
    hide L.Sound, Queries, Strip, Play, Browser.Press, Typing;
    if text == [] {
      assert Typing(text) == [] by { NothingTyped(); }
      PlayNothing(b);
      QueriesNone(b.lanes, Scope(b.list.status, b.list.sort, Strip(b.list.filterText + text)));
    } else {
      var n := |text| - 1;
      var front := text[..n];
      FrontIsText(b.list.filterText, text);
      TypingQueries(b, front);
      TypingBack(text);
      var before := Play(b, Typing(front)).value;
      PlayThenKey(b, Typing(front), Character(text[n], true));
      assert text == front + [text[n]];
      assert front == [] ==> b.list.filterText == b.list.filterText + front;
      assert before.list.filterText == b.list.filterText + front;
      assert b.list.filterText + front + [text[n]] == b.list.filterText + text;
      TypesOne(before, text[n]);
      QueriesAgain(b.lanes, before.lanes, before.Press(Character(text[n], true)).lanes, n,
                   Scope(b.list.status, b.list.sort, Strip(b.list.filterText + front)),
                   Scope(b.list.status, b.list.sort, Strip(b.list.filterText + text)));
      SoundAfter(b.lanes, before.Press(Character(text[n], true)).lanes, n + 1, Scope(b.list.status, b.list.sort, Strip(b.list.filterText + text)));
    }
  }

  lemma NothingTyped()
    ensures Typing([]) == []
  {
  }

  lemma TypingBack(text: string)
    requires text != []
    ensures
      var n := |text| - 1;
      Typing(text) == Typing(text[..n]) + [Pressed(Character(text[n], true))]
  {
  }

  lemma FrontIsText(filter: string, text: string)
    requires text != [] && IsFilterText(filter, text)
    ensures
      var n := |text| - 1;
      IsFilterText(filter, text[..n]) && IsFilterText(filter + text[..n], [text[n]])
  {
    var n := |text| - 1;
    assert n > 0 ==> text[..n][0] == text[0];
    assert [text[n]][0] == text[n];
  }

  lemma SoundAfter(s: L.State, t: L.State, n: nat, scope: Scope)
    requires Queries(s, t, n, scope)
    ensures L.Sound(t) && t.closed == s.closed
  {
    hide L.Sound;
  }

  /** The rows of the inputs on screen have come. */
  ghost function Answered(list: ListState, rows: seq<Row>): ListState {
    var scope := Scope(list.status, list.sort, Strip(list.filterText));
    list.(listing := Listing(scope, rows), loaded := scope, pending := false, highlight := 0, message := None,
          searchMode := Off, searchQuery := [], scanned := 0, total := 0, unavailable := 0, matches := {})
  }

  lemma ListingMeans(b: Browser, scope: Scope, rows: seq<Row>)
    requires scope == Scope(b.list.status, b.list.sort, Strip(b.list.filterText))
    ensures b.Deliver(L.Query(scope), L.Listed(Listing(scope, rows))) == b.(list := Answered(b.list, rows))
  {
    hide Strip;
  }

  lemma {:induction false} RunIsOpen(b: Browser, events: seq<Event>)
    requires Inv(b) && Play(b, events).Some?
    ensures L.Sound(Play(b, events).value.lanes) && Play(b, events).value.list.highlight >= 0
  {
    hide Play;
    RunKeeps(b, events);
  }

  lemma {:induction false} RowsCome(b: Browser, w: nat, rows: seq<Row>)
    requires Inv(b) && OnList(b) && b.lanes.queue == []
    requires IsNew(b.lanes, w, L.Query(Scope(b.list.status, b.list.sort, Strip(b.list.filterText))))
    ensures
      var answer := L.Listed(Listing(Scope(b.list.status, b.list.sort, Strip(b.list.filterText)), rows));
      match Play(b, Undisturbed(w, answer))
      case None => false
      case Some(after) => OnList(after) && after == b.(list := Answered(b.list, rows), lanes := after.lanes)
  {
    hide Strip, Inv, L.Sound, Play, Undisturbed, Browser.Deliver;
    var scope := Scope(b.list.status, b.list.sort, Strip(b.list.filterText));
    var answer := L.Listed(Listing(scope, rows));
    UndisturbedArrives(b, w, answer);
    ListingMeans(b, scope, rows);
    RunIsOpen(b, Undisturbed(w, answer));
  }

  lemma {:induction false} LandedStays(at: int, deltas: seq<int>, n: nat)
    requires 0 <= at < n
    ensures 0 <= Landed(at, deltas, n) < n
    decreases |deltas|
  {
    if deltas != [] {
      LandedStays(Within(at + deltas[0], n), deltas[1..], n);
    }
  }

  /** The row that steps from the first of `rows` lead to. */
  ghost function Reached(rows: seq<Row>, deltas: seq<int>): (row: Option<Row>)
    ensures row == None <==> rows == []
  {
    if rows == [] then None else (LandedStays(0, deltas, |rows|); Some(rows[Landed(0, deltas, |rows|)]))
  }

  /** The chat of the row has been opened as the only view; or nothing has, where there is no row. */
  ghost predicate HasOpened(before: Browser, after: Browser, row: Option<Row>) {
    match row
    case None => after.stack == [] && after.views == before.views
    case Some(r) =>
      && after.stack == [|before.views|] && |after.views| == |before.views| + 1 && after.views[..|before.views|] == before.views
      && after.Top().Detail? && after.Top().chatId == r.chatId && after.Top().row == row && after.Top().model == r.model
  }

  lemma {:induction false} StepsOpen(b: Browser, deltas: seq<int>, row: Option<Row>)
    requires OnList(b) && (b.list.searchMode == Off || b.list.searchMode == Results) && b.list.highlight == 0
    requires row == if b.list.pending && b.list.loaded != Scope(b.list.status, b.list.sort, Strip(b.list.filterText)) then None
                    else Reached(b.list.VisibleRows(), deltas)
    ensures
      match Play(b, Moves(deltas) + [SPACE])
      case None => false
      case Some(after) => HasOpened(b, after, row)
  {
    hide L.Sound, Play, RowsIn, Moves, Strip, Asks;
    if b.list.VisibleRows() != [] {
      LandedStays(0, deltas, |b.list.VisibleRows()|);
    }
    StepsThenSpace(b, deltas, row);
  }

  /** A query from the first letter to the chat that is opened: text is typed, the rows for it come, and steps and Space
      open the row they lead to, counted from the first one. */
  lemma {:induction false} TypeThenOpen(b: Browser, text: string, rows: seq<Row>, deltas: seq<int>)
    requires Inv(b) && OnList(b) && b.list.searchMode == Off && b.lanes.queue == []
    requires text != [] && IsFilterText(b.list.filterText, text)
    ensures
      var scope := Scope(b.list.status, b.list.sort, Strip(b.list.filterText + text));
      var answering := Undisturbed(|b.lanes.workers| + |text| - 1, L.Listed(Listing(scope, rows)));
      match Play(b, Typing(text) + answering + (Moves(deltas) + [SPACE]))
      case None => false
      case Some(after) => HasOpened(b, after, Reached(rows, deltas))
  {
    hide Strip, Inv, L.Sound, Play, Undisturbed, Typing, Moves, HasOpened, Reached;
    var scope := Scope(b.list.status, b.list.sort, Strip(b.list.filterText + text));
    var answering := Undisturbed(|b.lanes.workers| + |text| - 1, L.Listed(Listing(scope, rows)));
    TypingQueries(b, text);
    RunKeeps(b, Typing(text));
    var typed := Play(b, Typing(text)).value;
    RowsCome(typed, |b.lanes.workers| + |text| - 1, rows);
    PlayJoin(b, Typing(text), answering);
    var answered := Play(typed, answering).value;
    StepsOpen(answered, deltas, Reached(rows, deltas));
    PlayJoin(b, Typing(text) + answering, Moves(deltas) + [SPACE]);
    OpenedFrom(b, answered, Play(answered, Moves(deltas) + [SPACE]).value, Reached(rows, deltas));
  }

  lemma OpenedFrom(b: Browser, c: Browser, after: Browser, row: Option<Row>)
    requires HasOpened(c, after, row) && c.views == b.views
    ensures HasOpened(b, after, row)
  {
  }

  // ----- The search

  function SearchKeys(query: string): seq<Event> {
    [Pressed(Character('/', true))] + Typing(query) + [Pressed(Enter(None))]
  }

  /** In the search line every character is text. */
  lemma {:induction false} TypingSearch(b: Browser, text: string)
    requires b.stack == [] && !b.prompting && !b.lanes.closed && b.list.searchMode == Input
    ensures Play(b, Typing(text)) == Some(b.(list := b.list.(searchQuery := b.list.searchQuery + text)))
    decreases |text|
  {
    hide Play, Browser.Press, Typing;
    if text == [] {
      NothingTyped();
      PlayNothing(b);
      assert b.list.searchQuery + [] == b.list.searchQuery;
    } else {
      var n := |text| - 1;
      TypingSearch(b, text[..n]);
      TypingBack(text);
      PlayThenKey(b, Typing(text[..n]), Character(text[n], true));
      SearchesOne(Play(b, Typing(text[..n])).value, text[n]);
      assert b.list.searchQuery + text[..n] + [text[n]] == b.list.searchQuery + text;
    }
  }

  lemma SearchesOne(b: Browser, c: char)
    requires b.stack == [] && !b.prompting && b.list.searchMode == Input
    ensures b.Press(Character(c, true)) == b.(list := b.list.(searchQuery := b.list.searchQuery + [c]))
  {
  }

  /** The list while its transcripts are searched. */
  ghost function Searching(list: ListState, query: string): ListState {
    list.(focus := None, searchMode := Running, searchQuery := query, scanned := 0, total := |list.listing.rows|,
          unavailable := 0, matches := {})
  }

  lemma ChatIdsAre(rows: seq<Row>)
    ensures |ChatIds(rows)| == |rows| && forall i :: 0 <= i < |rows| ==> ChatIds(rows)[i] == rows[i].chatId
  {
  }

  /** `/`, a query and Enter: the transcripts of the listed chats are searched, all of them and in their order, unless the
      query is blank. */
  lemma {:induction false} SearchAsks(b: Browser, query: string)
    requires OnList(b) && b.list.searchMode == Off
    ensures
      var ids := ChatIds(b.list.listing.rows);
      match Play(b, SearchKeys(query))
      case None => false
      case Some(after) =>
        if Strip(query) == [] then after == b.(list := b.list.(focus := None, searchMode := Input, searchQuery := query))
        else after == b.(list := Searching(b.list, query), lanes := after.lanes)
             && Asks(b.lanes, after.lanes, [L.Search(ids)], {L.SearchLane})
  {
    hide L.Sound, Strip, Play, Typing, Asks, L.State.Run, RowsIn, ChatIds;
    var input := b.(list := b.list.(focus := None, searchMode := Input, searchQuery := []));
    PlayOne(b, Character('/', true));
    TypingSearch(input, query);
    assert [] + query == query;
    PlayJoin(b, [Pressed(Character('/', true))], Typing(query));
    PlayThenKey(b, [Pressed(Character('/', true))] + Typing(query), Enter(None));
    ChatIdsAre(b.list.listing.rows);
    RunAsksOne(b.lanes, L.Search(ChatIds(b.list.listing.rows)));
  }

  /** The search has come back. */
  ghost function Searched(list: ListState, matches: set<string>, unavailable: nat): ListState {
    list.(searchMode := Results, matches := matches, unavailable := unavailable, scanned := list.total, highlight := 0)
  }

  lemma FoundMeans(b: Browser, ids: seq<string>, matches: set<string>, unavailable: nat)
    ensures b.Deliver(L.Search(ids), L.Found(matches, unavailable)) == b.(list := Searched(b.list, matches, unavailable))
  {
    hide RowsIn;
  }

  /** A search from `/` to the chat that is opened: only rows of matching chats are stepped through, and where the list
      still waits for the rows of its inputs nothing is opened. */
  lemma {:induction false} FindThenOpen(b: Browser, query: string, matches: set<string>, unavailable: nat, deltas: seq<int>)
    requires Inv(b) && OnList(b) && b.list.searchMode == Off && b.lanes.queue == [] && Strip(query) != []
    ensures
      var answering := Undisturbed(|b.lanes.workers|, L.Found(matches, unavailable));
      match Play(b, SearchKeys(query) + answering + (Moves(deltas) + [SPACE]))
      case None => false
      case Some(after) =>
        HasOpened(b, after, if b.list.pending && b.list.loaded != Scope(b.list.status, b.list.sort, Strip(b.list.filterText))
                            then None else Reached(RowsIn(b.list.listing.rows, matches), deltas))
  {
    hide Strip, Inv, L.Sound, Play, Undisturbed, SearchKeys, Moves, HasOpened, Reached, RowsIn, Asks, ChatIds, Browser.Deliver;
    var ids, outcome := ChatIds(b.list.listing.rows), L.Found(matches, unavailable);
    var answering := Undisturbed(|b.lanes.workers|, outcome);
    SearchAsks(b, query);
    var asked := Play(b, SearchKeys(query)).value;
    AsksNew(b.lanes, asked.lanes, L.Search(ids), {L.SearchLane});
    RunKeeps(b, SearchKeys(query));
    UndisturbedArrives(asked, |b.lanes.workers|, outcome);
    FoundMeans(asked, ids, matches, unavailable);
    RunIsOpen(asked, answering);
    PlayJoin(b, SearchKeys(query), answering);
    var found := Play(asked, answering).value;
    var row := if b.list.pending && b.list.loaded != Scope(b.list.status, b.list.sort, Strip(b.list.filterText)) then None
               else Reached(RowsIn(b.list.listing.rows, matches), deltas);
    StepsOpen(found, deltas, row);
    PlayJoin(b, SearchKeys(query) + answering, Moves(deltas) + [SPACE]);
    OpenedFrom(b, found, Play(found, Moves(deltas) + [SPACE]).value, row);
  }

  lemma AsksNew(s: L.State, t: L.State, request: L.Request, stopped: set<L.Lane>)
    requires Asks(s, t, [request], stopped)
    ensures IsNew(t, |s.workers|, request) && t.queue == s.queue && t.closed == s.closed
  {
    assert [request][0] == request;
  }

  // ----- The snapshot

  /** A chat that is opened again at the generation it was read at shows the transcript at once: Space, its transcript
      comes, Escape, Space. */
  lemma {:induction false} ReopensKept(b: Browser, row: Row, window: Window)
    requires Inv(b) && OnList(b) && b.list.searchMode == Off && b.lanes.queue == [] && window.source == row.chatId
    requires IsUnder(b.list, b.list.highlight, Some(row))
    requires b.snapshot.None? || b.snapshot.value.chatId != row.chatId || b.snapshot.value.generation != row.generation
    ensures
      var view := |b.views|;
      var reading := Undisturbed(|b.lanes.workers|, L.Loaded(window));
      match Play(b, [SPACE] + reading + [Pressed(Escape)])
      case None => false
      case Some(left) =>
        && left.stack == [] && left.list == b.list && left.snapshot == Some(Snapshot(row.chatId, row.generation, window))
        && match Play(left, [SPACE])
           case None => false
           case Some(after) =>
             && after.stack == [view + 1] && after.HasTop() && after.Top().Detail?
             && after.Top().chatId == row.chatId && after.Top().window == Some(window)
             && Asks(left.lanes, after.lanes, [L.RefreshModel(view + 1, row.chatId)], {L.ModelLane})
  {
    hide Strip, Inv, L.Sound, Play, Undisturbed, Asks, IsUnder, Browser.Press;
    var view := |b.views|;
    var reading := Undisturbed(|b.lanes.workers|, L.Loaded(window));
    SpaceOpens(b, row);
    var shown := Play(b, [SPACE]).value;
    RunKeeps(b, [SPACE]);
    AsksFirst(b.lanes, shown.lanes, L.LoadTranscript(view, row.chatId, row.generation), L.RefreshModel(view, row.chatId),
              {L.TranscriptLane, L.ModelLane});
    UndisturbedArrives(shown, |b.lanes.workers|, L.Loaded(window));
    PlayJoin(b, [SPACE], reading);
    var read := Play(shown, reading).value;
    WindowMeans(shown, view, row, window);
    RunKeeps(shown, reading);
    PlayThenKey(b, [SPACE] + reading, Escape);
    RunIsOpen(shown, reading);
    EscapeLeaves(read);
    var left := read.Press(Escape);
    AsksNothing(read.lanes, left.lanes, {L.TranscriptLane, L.ModelLane});
    RunIsOpen(b, [SPACE] + reading + [Pressed(Escape)]);
    SameUnder(b.list, left.list, Some(row));
    SpaceOpens(left, row);
  }

  lemma SameUnder(list: ListState, other: ListState, row: Option<Row>)
    requires other == list && IsUnder(list, list.highlight, row)
    ensures IsUnder(other, other.highlight, row)
  {
  }

  lemma {:induction false} SpaceOpens(b: Browser, row: Row)
    requires OnList(b) && b.list.searchMode == Off && IsUnder(b.list, b.list.highlight, Some(row))
    ensures Play(b, [SPACE]).Some? && ShowsDetail(b, Play(b, [SPACE]).value, row.chatId, Some(row))
  {
    hide L.Sound, Play, Strip, ShowsDetail, RowsIn;
    StepsThenSpace(b, [], Some(row));
    assert Moves([]) + [SPACE] == [SPACE];
  }

  lemma AsksFirst(s: L.State, t: L.State, first: L.Request, second: L.Request, stopped: set<L.Lane>)
    requires Asks(s, t, [first, second], stopped)
    ensures IsNew(t, |s.workers|, first) && IsNew(t, |s.workers| + 1, second) && t.queue == s.queue && t.closed == s.closed
  {
    assert [first, second][0] == first && [first, second][1] == second;
  }

  lemma AsksNothing(s: L.State, t: L.State, stopped: set<L.Lane>)
    requires Asks(s, t, [], stopped)
    ensures t.queue == s.queue && t.closed == s.closed
  {
  }

  lemma WindowMeans(b: Browser, view: nat, row: Row, window: Window)
    requires view < |b.views| && b.views[view].Detail?
    ensures
      b.Deliver(L.LoadTranscript(view, row.chatId, row.generation), L.Loaded(window))
      == b.(snapshot := Some(Snapshot(row.chatId, row.generation, window)),
            views := b.views[view := b.views[view].(window := Some(window))])
  {
  }

  /** Escape takes the only view away, and what it asked for is stale. */
  lemma EscapeLeaves(b: Browser)
    requires |b.stack| == 1 && b.HasTop() && !b.prompting && L.Sound(b.lanes)
    ensures
      var after := b.Press(Escape);
      && after == b.(stack := [], lanes := after.lanes)
      && Asks(b.lanes, after.lanes, [], if b.Top().Detail? then {L.TranscriptLane, L.ModelLane} else {L.LineageLane})
  {
    hide L.Sound, Asks, L.State.Cancel;
    if b.Top().Detail? {
      CancelStops(b.lanes, L.TranscriptLane);
      L.CancelIsSound(b.lanes, L.TranscriptLane);
      CancelStops(b.lanes.Cancel(L.TranscriptLane), L.ModelLane);
      AsksThen(b.lanes, b.lanes.Cancel(L.TranscriptLane), b.lanes.Cancel(L.TranscriptLane).Cancel(L.ModelLane), [],
               {L.TranscriptLane}, [], {L.ModelLane});
      assert {L.TranscriptLane} + {L.ModelLane} == {L.TranscriptLane, L.ModelLane};
      var none: seq<L.Request> := [];
      assert none + none == none;
    } else {
      CancelStops(b.lanes, L.LineageLane);
    }
  }
}
