/** The session browser: its state, the requests it makes, what results do when they run, and its
    key handlers. Each handler is one step of the UI thread. */
module BrowserState {
  import opened Options
  import opened PyText
  import opened BrowserViews
  import L = Lanes

  datatype Browser = Browser(list: ListState, views: seq<View>, stack: seq<nat>, prompting: bool,
                             snapshot: Option<Snapshot>, lanes: L.State)
  {
    predicate HasTop() {
      stack != [] && stack[|stack| - 1] < |views|
    }

    function Top(): View
      requires HasTop()
    {
      views[stack[|stack| - 1]]
    }

    // ----- Requests

    function Requery(): Browser {
      var reloading := list.BeginReload();
      this.(list := reloading, lanes := lanes.Cancel(L.SearchLane).Run(L.Query(reloading.CurrentScope())))
    }

    function StartSearch(): Browser {
      if Strip(list.searchQuery) == [] then this
      else
        var ids := ChatIds(list.VisibleRows());
        this.(list := list.(searchMode := Running, scanned := 0, total := |ids|, unavailable := 0, matches := {}),
              lanes := lanes.Run(L.Search(ids)))
    }

    /** `_load_detail`: the snapshot of the same chat and generation, or a new read. */
    function LoadDetail(view: nat): Browser
      requires view < |views| && views[view].Detail?
    {
      var detail := views[view];
      var generation := if detail.row.Some? then detail.row.value.generation else [];
      var refresh := L.RefreshModel(view, detail.chatId);
      if snapshot.Some? && snapshot.value.chatId == detail.chatId && snapshot.value.generation == generation then
        this.(views := views[view := detail.(window := Some(snapshot.value.window))], lanes := lanes.Run(refresh))
      else
        this.(views := views[view := detail.(error := None)],
              lanes := lanes.Run(L.LoadTranscript(view, detail.chatId, generation)).Run(refresh))
    }

    function OpenDetail(chatId: string, row: Option<Row>): Browser {
      var detail := Detail(chatId, row, if row.Some? then row.value.model else [], None, None, None);
      this.(views := views + [detail], stack := stack + [|views|]).LoadDetail(|views|)
    }

    function OpenLineage(chatId: string): Browser {
      this.(views := views + [Lineage(chatId, None, 0, None)], stack := stack + [|views|],
            lanes := lanes.Run(L.LoadLineage(|views|)))
    }

    /** The view on top goes, its requests are cancelled, and a detail revealed with neither
        transcript nor error is loaded again. */
    function Back(): Browser
      requires HasTop()
    {
      var popped := this.(
        stack := stack[..|stack| - 1],
        lanes := if Top().Detail? then lanes.Cancel(L.TranscriptLane).Cancel(L.ModelLane) else lanes.Cancel(L.LineageLane));
      if popped.HasTop() && popped.Top().Detail? && popped.Top().window == None && popped.Top().error == None
      then popped.LoadDetail(popped.stack[|popped.stack| - 1]) else popped
    }

    // ----- Results

    /** What `apply` or `fail` does when the UI thread runs it. */
    function Deliver(request: L.Request, outcome: L.Outcome): Browser {
      match request
      case Query(_) =>
        if outcome.Listed? then this.(list := list.ReplaceListing(outcome.listing))
        else if outcome.Raised? then
          this.(list := list.(pending := false, message := Some("could not load sessions: " + outcome.reason)))
        else this
      case Search(_) =>
        if outcome.Found? then
          this.(list := list.(matches := outcome.matches, unavailable := outcome.unavailable, scanned := list.total,
                              searchMode := Results, highlight := 0).Clamp())
        else if outcome.Raised? then
          this.(list := list.LeaveSearch().(message := Some("search failed: " + outcome.reason)))
        else this
      case LoadTranscript(view, chatId, generation) =>
        if view >= |views| || !views[view].Detail? then this
        else if outcome.Loaded? then
          this.(snapshot := Some(Snapshot(chatId, generation, outcome.window)),
                views := views[view := views[view].(window := Some(outcome.window))])
        else if outcome.Raised? then
          this.(views := views[view := views[view].(error := Some("transcript unavailable: " + outcome.reason))])
        else this
      case RefreshModel(view, chatId) =>
        if view < |views| && views[view].Detail? && outcome.Refreshed? && outcome.model.Some? && outcome.model.value != [] then
          this.(views := views[view := views[view].(model := outcome.model.value)],
                list := list.SetModel(chatId, outcome.model.value))
        else this
      case LoadLineage(view) =>
        if view >= |views| || !views[view].Lineage? then this
        else if outcome.Traced? then
          this.(views := views[view := views[view].(nodes := Some(outcome.nodes),
                                                    cursor := FirstOf(outcome.nodes, views[view].origin, 0))])
        else if outcome.Raised? then
          this.(views := views[view := views[view].(failure := Some("lineage unavailable: " + outcome.reason))])
        else this
    }

    /** The UI thread runs the oldest callback in its queue. */
    function RunNext(): Browser
      requires lanes.queue != [] && lanes.queue[0].worker < |lanes.workers|
    {
      var callback, taken := lanes.queue[0], this.(lanes := lanes.Take());
      if !lanes.Current(callback.worker) then taken
      else match callback
           case Progress(_, scanned, unavailable) =>
             taken.(list := list.(scanned := scanned, unavailable := unavailable))
           case Final(w, outcome) => taken.Deliver(lanes.workers[w].request, outcome)
    }

    // ----- Key handlers

    predicate InList() {
      stack == []
    }

    /** `chat_in_focus` */
    function Focus(): Option<(string, Option<Row>)> {
      if InList() then
        var row := list.Highlighted();
        if row.Some? then Some((row.value.chatId, row)) else None
      else if !HasTop() then None
      else match Top()
           case Detail(chatId, row, _, _, _, _) => Some((chatId, row))
           case Lineage(_, nodes, cursor, _) =>
             if nodes.Some? && cursor < |nodes.value| then Some((nodes.value[cursor].chatId, nodes.value[cursor].row))
             else None
    }

    /** A message on the list or on the detail view; lineage views have none. */
    function Say(text: string): Browser {
      if InList() then this.(list := list.(message := Some(text)))
      else if HasTop() && Top().Detail? then
        this.(views := views[stack[|stack| - 1] := Top().(message := Some(text))])
      else this
    }

    /** `activate`; `blocked` is the decision on re-entering the focused chat. */
    function Activate(blocked: Option<string>): Browser {
      match Focus()
      case None => this
      case Some((chatId, row)) =>
        if HasTop() && Top().Lineage? then OpenDetail(chatId, row)
        else if blocked.Some? then Say(chatId + ": " + blocked.value)
        else this.(lanes := lanes.Close())
    }

    function BeginStartFrom(): Browser {
      match Focus()
      case None => this
      case Some((chatId, row)) =>
        if row == None then Say(chatId + ": not in this project's index")
        else if row.value.blocked.Some? then Say(chatId + ": " + row.value.blocked.value)
        else this.(prompting := true)
    }

    function OpenLineageOfFocus(): Browser {
      var target := Focus();
      if target.Some? then OpenLineage(target.value.0) else this
    }

    function OpenFocusedDetail(): Browser {
      var target := Focus();
      if target.Some? then OpenDetail(target.value.0, target.value.1) else this
    }

    function OnEnter(blocked: Option<string>): Browser {
      if prompting then this.(lanes := lanes.Close())
      else if InList() && list.searchMode == Input then StartSearch()
      else if InList() && list.focus != None then this.(list := list.(focus := None))
      else Activate(blocked)
    }

    function OnEscape(): Browser {
      if prompting then this.(prompting := false)
      else if HasTop() then Back()
      else if list.searchMode != Off then this.(list := list.LeaveSearch(), lanes := lanes.Cancel(L.SearchLane))
      else if list.focus != None then this.(list := list.(focus := None))
      else if list.filterText != [] then this.(list := list.EditFilter([])).Requery()
      else this.(lanes := lanes.Close())
    }

    function OnBackspace(): Browser {
      if prompting || !InList() then this
      else if list.searchMode == Input then this.(list := list.(searchQuery := DropLast(list.searchQuery)))
      else if list.searchMode == Off then this.(list := list.EditFilter(DropLast(list.filterText))).Requery()
      else this
    }

    function OnTab(): Browser {
      if prompting || !InList() || list.searchMode == Input then this else this.(list := list.CycleFocus())
    }

    function OnArrow(delta: int): Browser {
      if prompting || !InList() then this
      else
        var stepped := this.(list := list.StepFocused(delta));
        if stepped.list.status != list.status || stepped.list.sort != list.sort then stepped.Requery() else stepped
    }

    function OnMove(delta: int): Browser {
      if prompting then this
      else if InList() then this.(list := list.Move(delta))
      else if HasTop() && Top().Lineage? then this.(views := views[stack[|stack| - 1] := Top().MoveCursor(delta)])
      else this
    }

    /** A key that stands for one character, typed in the list; one that is not printable is dropped. */
    function OnListCharacter(c: char, printable: bool): Browser {
      if !printable || list.searchMode == Running then this
      else if list.searchMode == Input then this.(list := list.(searchQuery := list.searchQuery + [c]))
      else if c == ' ' then OpenFocusedDetail()
      else if c == 'l' && list.filterText == [] then OpenLineageOfFocus()
      else if c == 'n' && list.filterText == [] then BeginStartFrom()
      else if c == '/' && list.searchMode == Off then
        this.(list := list.(focus := None, searchMode := Input, searchQuery := []))
      else if list.searchMode == Off then
        this.(list := list.(focus := None).EditFilter(list.filterText + [c])).Requery()
      else this
    }

    function OnCharacter(c: char, printable: bool): Browser {
      if prompting then this
      else if InList() then OnListCharacter(c, printable)
      else if HasTop() && Top().Detail? && c == 'l' then OpenLineageOfFocus()
      else if HasTop() && Top().Detail? && c == 'n' then BeginStartFrom()
      else this
    }

    function Press(key: Key): Browser {
      match key
      case Enter(blocked) => OnEnter(blocked)
      case Escape => OnEscape()
      case Backspace => OnBackspace()
      case Tab => OnTab()
      case Arrow(delta) => OnArrow(delta)
      case Move(delta) => OnMove(delta)
      case Character(c, printable) => OnCharacter(c, printable)
      case CtrlL => if prompting || (HasTop() && Top().Lineage?) then this else OpenLineageOfFocus()
      case CtrlN => if prompting || (HasTop() && Top().Lineage?) then this else BeginStartFrom()
      case CtrlC => this.(lanes := lanes.Close())
    }
  }

  function DropLast(s: string): string {
    if s == [] then [] else s[..|s| - 1]
  }

  /** `Arrow` is left or right; `Move` is any key that moves the highlight or the lineage cursor; which
      characters are printable is Unicode's to say. */
  datatype Key =
    | Enter(blocked: Option<string>) | Escape | Backspace | Tab | Arrow(delta: int) | Move(delta: int)
    | Character(c: char, printable: bool) | CtrlL | CtrlN | CtrlC

  /** A key reaches the UI thread, the UI thread runs a callback, or a worker takes a step. */
  datatype Event = Pressed(key: Key) | Next | Worked(step: L.Step)

  /** What a worker's work may come back with. A query that finds itself superseded after its
      debounce returns the listing on screen. */
  predicate MayReturn(b: Browser, w: nat, outcome: L.Outcome)
    requires w < |b.lanes.workers|
  {
    || Suits(b.lanes.workers[w].request, outcome)
    || (b.lanes.workers[w].request.Query? && !b.lanes.Current(w) && outcome == L.Listed(b.list.listing))
  }

  predicate Suits(request: L.Request, outcome: L.Outcome) {
    || outcome.Raised?
    || match request
       case Query(scope) => outcome.Listed? && outcome.listing.answers == scope
       case Search(_) => outcome.Found?
       case LoadTranscript(_, chatId, _) => outcome.Loaded? && outcome.window.source == chatId
       case RefreshModel(_, _) => outcome.Refreshed?
       case LoadLineage(_) => outcome.Traced? && outcome.nodes != []
  }

  predicate Enabled(b: Browser, e: Event) {
    match e
    case Pressed(_) => !b.lanes.closed
    case Next => b.lanes.queue != [] && b.lanes.queue[0].worker < |b.lanes.workers|
    case Worked(step) => b.lanes.CanAct(step) && (step.Compute? ==> MayReturn(b, step.worker, step.outcome))
  }

  function After(b: Browser, e: Event): Browser
    requires Enabled(b, e)
  {
    match e
    case Pressed(key) => b.Press(key)
    case Next => b.RunNext()
    case Worked(step) => b.(lanes := b.lanes.Act(step))
  }

  /** A browser opened on the listing of its own query inputs. */
  function Opened(rows: seq<Row>, status: Status, sort: Sort): Browser {
    var scope := Scope(status, sort, []);
    Browser(ListState(Listing(scope, rows), status, sort, [], 0, None, Off, [], 0, 0, 0, {}, None, false, scope),
            [], [], false, None, L.NONE)
  }

  function Play(b: Browser, events: seq<Event>): Option<Browser>
    decreases |events|
  {
    if events == [] then Some(b)
    else if !Enabled(b, events[0]) then None
    else Play(After(b, events[0]), events[1..])
  }
}
