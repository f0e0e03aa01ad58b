/** The browser object: fields updated in place by the methods the key handlers and the queue call.
    Each method is the step of BrowserState it is named after, and keeps the invariant. */
module BrowserUi {
  import opened Options
  import opened PyText
  import opened BrowserViews
  import opened BrowserState
  import opened BrowserInvariants
  import L = Lanes

  class Ui {
    var list: ListState
    var views: seq<View>
    var stack: seq<nat>
    var prompting: bool
    var snapshot: Option<Snapshot>
    const lanes: L.Lanes

    function Now(): Browser
      reads this, lanes
    {
      Browser(list, views, stack, prompting, snapshot, lanes.Now())
    }

    ghost predicate Valid()
      reads this, lanes
    {
      Inv(Now()) && lanes.Valid()
    }

    constructor (rows: seq<Row>, status: Status, sort: Sort)
      ensures Valid() && fresh(lanes) && Now() == Opened(rows, status, sort)
    {
      hide Inv, L.Sound, L.NothingLost;
      OpenedIsSound(rows, status, sort);
      var scope := Scope(status, sort, []);
      list := ListState(Listing(scope, rows), status, sort, [], 0, None, Off, [], 0, 0, 0, {}, None, false, scope);
      views, stack, prompting, snapshot := [], [], false, None;
      lanes := new L.Lanes();
    }

    /** `requery` after the list took new query inputs, `inputs` being the list with them. */
    method Requery(inputs: ListState)
      requires Valid() && !lanes.closed && inputs.listing == list.listing && inputs.loaded == list.loaded
      modifies this, lanes
      ensures Valid() && Now() == old(Now()).(list := inputs).Requery()
    {
      hide Inv, L.Sound, L.NothingLost;
      RequeryKeeps(Now(), inputs);
      list := inputs.BeginReload();
      lanes.Cancel(L.SearchLane);
      lanes.Run(L.Query(list.CurrentScope()));
    }

    method StartSearch()
      requires Valid() && !lanes.closed
      modifies this, lanes
      ensures Valid() && Now() == old(Now()).StartSearch()
    {
      hide Inv, L.Sound, L.NothingLost;
      StartSearchKeeps(Now());
      if Strip(list.searchQuery) == [] {
        return;
      }
      var ids := ChatIds(list.VisibleRows());
      list := list.(searchMode := Running, scanned := 0, total := |ids|, unavailable := 0, matches := {});
      lanes.Run(L.Search(ids));
    }

    method LoadDetail(view: nat)
      requires Unloaded(Now()) && lanes.Valid() && !lanes.closed && view < |views| && views[view].Detail?
      requires stack != [] && view == stack[|stack| - 1]
      modifies this, lanes
      ensures Valid() && Now() == old(Now()).LoadDetail(view)
    {
      hide Inv, L.Sound, L.NothingLost, Unloaded;
      LoadDetailKeeps(Now(), view);
      var detail := views[view];
      var generation := if detail.row.Some? then detail.row.value.generation else [];
      if snapshot.Some? && snapshot.value.chatId == detail.chatId && snapshot.value.generation == generation {
        views := views[view := detail.(window := Some(snapshot.value.window))];
      } else {
        views := views[view := detail.(error := None)];
        lanes.Run(L.LoadTranscript(view, detail.chatId, generation));
      }
      lanes.Run(L.RefreshModel(view, detail.chatId));
    }

    method OpenDetail(chatId: string, row: Option<Row>)
      requires Valid() && !lanes.closed && MayCover(Now(), Detail(chatId, row, [], None, None, None))
      modifies this, lanes
      ensures Valid() && Now() == old(Now()).OpenDetail(chatId, row)
    {
      hide L.Sound, L.NothingLost, LanesSound, ListSound, AllTruthful, Stacked;
      var detail := Detail(chatId, row, if row.Some? then row.value.model else [], None, None, None);
      OpenIsUnloaded(Now(), detail);
      var view := |views|;
      views, stack := views + [detail], stack + [view];
      LoadDetail(view);
    }

    method OpenLineage(chatId: string)
      requires Valid() && !lanes.closed && MayCover(Now(), Lineage(chatId, None, 0, None))
      modifies this, lanes
      ensures Valid() && Now() == old(Now()).OpenLineage(chatId)
    {
      hide Inv, L.Sound, L.NothingLost;
      OpenLineageKeeps(Now(), chatId);
      var view := |views|;
      views, stack := views + [Lineage(chatId, None, 0, None)], stack + [view];
      lanes.Run(L.LoadLineage(view));
    }

    /** The queue's next callback, run when its worker is still current. */
    method RunNext()
      requires Valid() && lanes.queue != []
      modifies this, lanes
      ensures old(lanes.queue)[0].worker < |old(lanes.workers)|
      ensures Valid() && Now() == old(Now()).RunNext()
    {
      hide Inv, L.Sound, L.NothingLost, Suits;
      ghost var before := Now();
      QueuedIsKnown(before);
      NextKeeps(before);
      var callback, runs := lanes.Take();
      if runs {
        match callback {
          case Progress(_, scanned, unavailable) =>
            list := list.(scanned := scanned, unavailable := unavailable);
          case Final(w, outcome) =>
            Apply(lanes.workers[w].request, outcome);
        }
      }
    }

    /** The `apply` and `fail` closures of the five kinds of request. */
    method Apply(request: L.Request, outcome: L.Outcome)
      modifies this
      ensures Now() == old(Now()).Deliver(request, outcome)
    {
      match request {
        case Query(_) =>
          if outcome.Listed? {
            list := list.ReplaceListing(outcome.listing);
          } else if outcome.Raised? {
            list := list.(pending := false, message := Some("could not load sessions: " + outcome.reason));
          }
        case Search(_) =>
          if outcome.Found? {
            list := list.(matches := outcome.matches, unavailable := outcome.unavailable, scanned := list.total,
                          searchMode := Results, highlight := 0).Clamp();
          } else if outcome.Raised? {
            list := list.LeaveSearch().(message := Some("search failed: " + outcome.reason));
          }
        case LoadTranscript(view, chatId, generation) =>
          if view < |views| && views[view].Detail? {
            if outcome.Loaded? {
              snapshot := Some(Snapshot(chatId, generation, outcome.window));
              views := views[view := views[view].(window := Some(outcome.window))];
            } else if outcome.Raised? {
              views := views[view := views[view].(error := Some("transcript unavailable: " + outcome.reason))];
            }
          }
        case RefreshModel(view, chatId) =>
          if view < |views| && views[view].Detail? && outcome.Refreshed? && outcome.model.Some? && outcome.model.value != [] {
            views := views[view := views[view].(model := outcome.model.value)];
            list := list.SetModel(chatId, outcome.model.value);
          }
        case LoadLineage(view) =>
          if view < |views| && views[view].Lineage? {
            if outcome.Traced? {
              views := views[view := views[view].(nodes := Some(outcome.nodes),
                                                  cursor := FirstOf(outcome.nodes, views[view].origin, 0))];
            } else if outcome.Raised? {
              views := views[view := views[view].(failure := Some("lineage unavailable: " + outcome.reason))];
            }
          }
      }
    }

    method Back()
      requires Valid() && !lanes.closed && stack != []
      modifies this, lanes
      ensures old(Now()).HasTop() && Valid() && Now() == old(Now()).Back()
    {
      hide L.Sound, L.NothingLost, LanesSound, ListSound, AllTruthful;
      ghost var before := Now();
      BackKeeps(before);
      PopReveals(before);
      var popped := views[stack[|stack| - 1]];
      stack := stack[..|stack| - 1];
      if popped.Detail? {
        lanes.Cancel(L.TranscriptLane);
        lanes.Cancel(L.ModelLane);
      } else {
        lanes.Cancel(L.LineageLane);
      }
      if stack != [] {
        var top := views[stack[|stack| - 1]];
        if top.Detail? && top.window == None && top.error == None {
          LoadDetail(stack[|stack| - 1]);
        }
      }
    }

    // ----- Key handlers

    method Close()
      requires Valid()
      modifies lanes
      ensures Valid() && Now() == old(Now()).(lanes := old(lanes.Now()).Close())
    {
      hide Inv, L.Sound, L.NothingLost;
      CloseKeeps(Now());
      lanes.Close();
    }

    /** `chat_in_focus` */
    method ChatInFocus() returns (target: Option<(string, Option<Row>)>)
      ensures target == Now().Focus()
    {
      target := Now().Focus();
    }

    method Say(text: string)
      requires Valid()
      modifies this
      ensures Valid() && Now() == old(Now()).Say(text)
    {
      hide Inv, L.Sound, L.NothingLost;
      SayKeeps(Now(), text);
      if stack == [] {
        list := list.(message := Some(text));
      } else if stack[|stack| - 1] < |views| && views[stack[|stack| - 1]].Detail? {
        views := views[stack[|stack| - 1] := views[stack[|stack| - 1]].(message := Some(text))];
      }
    }

    method Activate(blocked: Option<string>)
      requires Valid() && !lanes.closed
      modifies this, lanes
      ensures Valid() && Now() == old(Now()).Activate(blocked)
    {
      hide L.Sound, L.NothingLost, LanesSound, ListSound, AllTruthful, TopLoads;
      var target := ChatInFocus();
      if target == None {
        return;
      }
      if stack != [] && views[stack[|stack| - 1]].Lineage? {
        OpenDetail(target.value.0, target.value.1);
      } else if blocked.Some? {
        Say(target.value.0 + ": " + blocked.value);
      } else {
        Close();
      }
    }

    method BeginStartFrom()
      requires Valid()
      modifies this
      ensures Valid() && Now() == old(Now()).BeginStartFrom()
    {
      hide Inv, L.Sound, L.NothingLost;
      BeginStartFromKeeps(Now());
      var target := ChatInFocus();
      if target == None {
        return;
      }
      if target.value.1 == None {
        Say(target.value.0 + ": not in this project's index");
      } else if target.value.1.value.blocked.Some? {
        Say(target.value.0 + ": " + target.value.1.value.blocked.value);
      } else {
        prompting := true;
      }
    }

    method OpenLineageOfFocus()
      requires Valid() && !lanes.closed && (Now().HasTop() ==> Now().Top().Detail?)
      modifies this, lanes
      ensures Valid() && Now() == old(Now()).OpenLineageOfFocus()
    {
      hide Inv, L.Sound, L.NothingLost;
      var target := ChatInFocus();
      if target.Some? {
        OpenLineage(target.value.0);
      }
    }

    method OnEnter(blocked: Option<string>)
      requires Valid() && !lanes.closed
      modifies this, lanes
      ensures Valid() && Now() == old(Now()).OnEnter(blocked)
    {
      hide Inv, L.Sound, L.NothingLost;
      EnterKeeps(Now(), blocked);
      if prompting {
        Close();
      } else if stack == [] && list.searchMode == Input {
        StartSearch();
      } else if stack == [] && list.focus != None {
        list := list.(focus := None);
      } else {
        Activate(blocked);
      }
    }

    method OnEscape()
      requires Valid() && !lanes.closed
      modifies this, lanes
      ensures Valid() && Now() == old(Now()).OnEscape()
    {
      hide L.Sound, L.NothingLost, LanesSound, ListSound, AllTruthful, TopLoads;
      EscapeKeeps(Now());
      if prompting {
        prompting := false;
      } else if stack != [] {
        Back();
      } else if list.searchMode != Off {
        lanes.Cancel(L.SearchLane);
        list := list.LeaveSearch();
      } else if list.focus != None {
        list := list.(focus := None);
      } else if list.filterText != [] {
        Requery(list.EditFilter([]));
      } else {
        Close();
      }
    }

    method OnBackspace()
      requires Valid() && !lanes.closed
      modifies this, lanes
      ensures Valid() && Now() == old(Now()).OnBackspace()
    {
      hide Inv, L.Sound, L.NothingLost;
      BackspaceKeeps(Now());
      if prompting || stack != [] {
        return;
      }
      if list.searchMode == Input {
        list := list.(searchQuery := DropLast(list.searchQuery));
      } else if list.searchMode == Off {
        Requery(list.EditFilter(DropLast(list.filterText)));
      }
    }

    method OnArrow(delta: int)
      requires Valid() && !lanes.closed
      modifies this, lanes
      ensures Valid() && Now() == old(Now()).OnArrow(delta)
    {
      hide Inv, L.Sound, L.NothingLost;
      ArrowKeeps(Now(), delta);
      if prompting || stack != [] {
        return;
      }
      var stepped := list.StepFocused(delta);
      if stepped.status != list.status || stepped.sort != list.sort {
        Requery(stepped);
      } else {
        list := stepped;
      }
    }

    method OnMove(delta: int)
      requires Valid()
      modifies this
      ensures Valid() && Now() == old(Now()).OnMove(delta)
    {
      hide Inv, L.Sound, L.NothingLost;
      MoveKeeps(Now(), delta);
      if prompting {
      } else if stack == [] {
        list := list.Move(delta);
      } else if stack[|stack| - 1] < |views| && views[stack[|stack| - 1]].Lineage? {
        views := views[stack[|stack| - 1] := views[stack[|stack| - 1]].MoveCursor(delta)];
      }
    }

    method OnListCharacter(c: char, printable: bool)
      requires Valid() && !lanes.closed && stack == []
      modifies this, lanes
      ensures Valid() && Now() == old(Now()).OnListCharacter(c, printable)
    {
      hide Inv, L.Sound, L.NothingLost;
      ListCharacterKeeps(Now(), c, printable);
      if !printable || list.searchMode == Running {
      } else if list.searchMode == Input {
        list := list.(searchQuery := list.searchQuery + [c]);
      } else if c == ' ' {
        var target := ChatInFocus();
        if target.Some? {
          OpenDetail(target.value.0, target.value.1);
        }
      } else if c == 'l' && list.filterText == [] {
        OpenLineageOfFocus();
      } else if c == 'n' && list.filterText == [] {
        BeginStartFrom();
      } else if c == '/' && list.searchMode == Off {
        list := list.(focus := None, searchMode := Input, searchQuery := []);
      } else if list.searchMode == Off {
        Requery(list.(focus := None).EditFilter(list.filterText + [c]));
      }
    }

    /** A key reaches the handler bound to it. */
    method Press(key: Key)
      requires Valid() && !lanes.closed
      modifies this, lanes
      ensures Valid() && Now() == old(Now()).Press(key)
    {
      hide Inv, L.Sound, L.NothingLost;
      PressKeeps(Now(), key);
      StackIsKnown(Now());
      match key {
        case Enter(blocked) => OnEnter(blocked);
        case Escape => OnEscape();
        case Backspace => OnBackspace();
        case Tab =>
          if !prompting && stack == [] && list.searchMode != Input {
            list := list.CycleFocus();
          }
        case Arrow(delta) => OnArrow(delta);
        case Move(delta) => OnMove(delta);
        case Character(c, printable) =>
          if prompting {
          } else if stack == [] {
            OnListCharacter(c, printable);
          } else if views[stack[|stack| - 1]].Detail? && c == 'l' {
            OpenLineageOfFocus();
          } else if views[stack[|stack| - 1]].Detail? && c == 'n' {
            BeginStartFrom();
          }
        case CtrlL =>
          if !prompting && (stack == [] || views[stack[|stack| - 1]].Detail?) {
            OpenLineageOfFocus();
          }
        case CtrlN =>
          if !prompting && (stack == [] || views[stack[|stack| - 1]].Detail?) {
            BeginStartFrom();
          }
        case CtrlC => Close();
      }
    }
  }

  lemma StackIsKnown(b: Browser)
    requires Inv(b)
    ensures b.stack != [] ==> b.HasTop()
  {
  }
}
