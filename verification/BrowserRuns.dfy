/** Every run of the browser is a run of its lanes, so what holds of every run of the lanes holds
    of the browser's: one result for each request, none for a stale one, and none lost. */
module BrowserRuns {
  import opened Options
  import opened BrowserViews
  import opened BrowserState
  import L = Lanes

  ghost predicate Leads(s: L.State, t: L.State) {
    exists moves :: L.Play(s, moves) == Some(t)
  }

  lemma Stays(s: L.State)
    ensures Leads(s, s)
  {
    assert L.Play(s, []) == Some(s);
  }

  lemma Once(s: L.State, move: L.Move)
    requires L.Allowed(s, move)
    ensures Leads(s, L.After(s, move))
  {
    assert L.Play(s, [move]) == Some(L.After(s, move));
  }

  lemma {:induction false} PlayAppends(s: L.State, first: seq<L.Move>, second: seq<L.Move>)
    requires L.Play(s, first).Some?
    ensures L.Play(s, first + second) == L.Play(L.Play(s, first).value, second)
    decreases |first|
  {
    if first == [] {
      assert first + second == second;
    } else {
      PlayAppends(L.After(s, first[0]), first[1..], second);
      assert (first + second)[1..] == first[1..] + second;
    }
  }

  lemma Then(s: L.State, t: L.State, u: L.State)
    requires Leads(s, t) && Leads(t, u)
    ensures Leads(s, u)
  {
    var first :| L.Play(s, first) == Some(t);
    var second :| L.Play(t, second) == Some(u);
    PlayAppends(s, first, second);
  }

  lemma Twice(s: L.State, first: L.Move, second: L.Move)
    requires L.Allowed(s, first) && L.Allowed(L.After(s, first), second)
    ensures Leads(s, L.After(L.After(s, first), second))
  {
    Once(s, first);
    Once(L.After(s, first), second);
    Then(s, L.After(s, first), L.After(L.After(s, first), second));
  }

  lemma LoadDetailLeads(b: Browser, view: nat)
    requires view < |b.views| && b.views[view].Detail?
    ensures Leads(b.lanes, b.LoadDetail(view).lanes)
  {
    var detail := b.views[view];
    var generation := if detail.row.Some? then detail.row.value.generation else [];
    var refresh := L.Start(L.RefreshModel(view, detail.chatId));
    Once(b.lanes, refresh);
    Twice(b.lanes, L.Start(L.LoadTranscript(view, detail.chatId, generation)), refresh);
  }

  lemma OpenDetailLeads(b: Browser, chatId: string, row: Option<Row>)
    ensures Leads(b.lanes, b.OpenDetail(chatId, row).lanes)
  {
    var detail := Detail(chatId, row, if row.Some? then row.value.model else [], None, None, None);
    LoadDetailLeads(b.(views := b.views + [detail], stack := b.stack + [|b.views|]), |b.views|);
  }

  lemma BackLeads(b: Browser)
    requires b.HasTop()
    ensures Leads(b.lanes, b.Back().lanes)
  {
    hide Leads;
    var popped := b.(
      stack := b.stack[..|b.stack| - 1],
      lanes := if b.Top().Detail? then b.lanes.Cancel(L.TranscriptLane).Cancel(L.ModelLane) else b.lanes.Cancel(L.LineageLane));
    Twice(b.lanes, L.Stop(L.TranscriptLane), L.Stop(L.ModelLane));
    Once(b.lanes, L.Stop(L.LineageLane));
    if popped.HasTop() && popped.Top().Detail? && popped.Top().window == None && popped.Top().error == None {
      LoadDetailLeads(popped, popped.stack[|popped.stack| - 1]);
      Then(b.lanes, popped.lanes, b.Back().lanes);
    }
  }

  lemma RequeryLeads(b: Browser)
    ensures Leads(b.lanes, b.Requery().lanes)
  {
    Twice(b.lanes, L.Stop(L.SearchLane), L.Start(L.Query(b.list.BeginReload().CurrentScope())));
  }

  lemma StartSearchLeads(b: Browser)
    ensures Leads(b.lanes, b.StartSearch().lanes)
  {
    Stays(b.lanes);
    Once(b.lanes, L.Start(L.Search(ChatIds(b.list.VisibleRows()))));
  }

  lemma OpenLineageOfFocusLeads(b: Browser)
    ensures Leads(b.lanes, b.OpenLineageOfFocus().lanes)
  {
    Stays(b.lanes);
    Once(b.lanes, L.Start(L.LoadLineage(|b.views|)));
  }

  lemma ActivateLeads(b: Browser, blocked: Option<string>)
    ensures Leads(b.lanes, b.Activate(blocked).lanes)
  {
    hide Leads;
    Stays(b.lanes);
    Once(b.lanes, L.CloseAll);
    if b.Focus().Some? {
      OpenDetailLeads(b, b.Focus().value.0, b.Focus().value.1);
    }
  }

  lemma PressLeads(b: Browser, key: Key)
    ensures Leads(b.lanes, b.Press(key).lanes)
  {
    hide Leads;
    Stays(b.lanes);
    Once(b.lanes, L.CloseAll);
    match key
    case Enter(blocked) => StartSearchLeads(b); ActivateLeads(b, blocked);
    case Escape => EscapeLeads(b);
    case Backspace => RequeryLeads(b.(list := b.list.EditFilter(DropLast(b.list.filterText))));
    case Tab =>
    case Arrow(delta) => RequeryLeads(b.(list := b.list.StepFocused(delta)));
    case Move(_) =>
    case Character(c, printable) => CharacterLeads(b, c, printable);
    case CtrlL => OpenLineageOfFocusLeads(b);
    case CtrlN =>
    case CtrlC =>
  }

  lemma EscapeLeads(b: Browser)
    ensures Leads(b.lanes, b.OnEscape().lanes)
  {
    hide Leads;
    Stays(b.lanes);
    Once(b.lanes, L.CloseAll);
    Once(b.lanes, L.Stop(L.SearchLane));
    RequeryLeads(b.(list := b.list.EditFilter([])));
    if b.HasTop() {
      BackLeads(b);
    }
  }

  lemma CharacterLeads(b: Browser, c: char, printable: bool)
    ensures Leads(b.lanes, b.OnCharacter(c, printable).lanes)
  {
    hide Leads;
    Stays(b.lanes);
    OpenLineageOfFocusLeads(b);
    RequeryLeads(b.(list := b.list.(focus := None).EditFilter(b.list.filterText + [c])));
    if b.Focus().Some? {
      OpenDetailLeads(b, b.Focus().value.0, b.Focus().value.1);
    }
  }

  lemma StepLeads(b: Browser, e: Event)
    requires Enabled(b, e)
    ensures Leads(b.lanes, After(b, e).lanes)
  {
    hide Leads;
    match e
    case Pressed(key) => PressLeads(b, key);
    case Next => Once(b.lanes, L.TakeNext);
    case Worked(step) => Once(b.lanes, L.Work(step));
  }

  lemma {:induction false} RunLeads(b: Browser, events: seq<Event>)
    requires Play(b, events).Some?
    ensures Leads(b.lanes, Play(b, events).value.lanes)
    decreases |events|
  {
    hide Leads;
    if events == [] {
      Stays(b.lanes);
    } else {
      StepLeads(b, events[0]);
      RunLeads(After(b, events[0]), events[1..]);
      Then(b.lanes, After(b, events[0]).lanes, Play(b, events).value.lanes);
    }
  }

  /** In every run of the browser a request gets at most one result and no progress after it; once
      the workers are done and the queue is empty, the newest request of each lane has had one. */
  lemma {:induction false} OneResultForEachRequest(rows: seq<Row>, status: Status, sort: Sort, events: seq<Event>, i: nat, j: nat, w: nat)
    requires Play(Opened(rows, status, sort), events).Some?
    ensures
      var s := Play(Opened(rows, status, sort), events).value.lanes;
      && (i < j < |s.log| && s.log[i].worker == s.log[j].worker ==> s.log[i].Progress?)
      && (s.queue == [] && w < |s.workers| && s.workers[w].phase == L.Finished && s.Current(w) ==> L.HasResult(s.log, w))
  {
    var s := Play(Opened(rows, status, sort), events).value.lanes;
    RunLeads(Opened(rows, status, sort), events);
    var moves :| L.Play(L.NONE, moves) == Some(s);
    if i < j < |s.log| && s.log[i].worker == s.log[j].worker {
      L.OneResultEach(moves, i, j);
    }
    if s.queue == [] && w < |s.workers| && s.workers[w].phase == L.Finished && s.Current(w) {
      L.NewestAlwaysRuns(moves, w);
    }
  }

  /** Once a request is superseded, cancelled or closed, nothing of it ever runs again. */
  lemma {:induction false} StaleRequestsStayStale(rows: seq<Row>, status: Status, sort: Sort, before: seq<Event>, after: seq<Event>, w: nat)
    requires Play(Opened(rows, status, sort), before).Some?
    requires Play(Play(Opened(rows, status, sort), before).value, after).Some?
    requires
      var s := Play(Opened(rows, status, sort), before).value.lanes;
      w < |s.workers| && !s.Current(w)
    ensures
      var s := Play(Opened(rows, status, sort), before).value.lanes;
      var t := Play(Play(Opened(rows, status, sort), before).value, after).value.lanes;
      && w < |t.workers| && !t.Current(w)
      && |s.log| <= |t.log| && t.log[..|s.log|] == s.log
      && (forall k :: |s.log| <= k < |t.log| ==> t.log[k].worker != w)
  {
    var b := Play(Opened(rows, status, sort), before).value;
    var c := Play(b, after).value;
    RunLeads(Opened(rows, status, sort), before);
    RunLeads(b, after);
    var first :| L.Play(L.NONE, first) == Some(b.lanes);
    var second :| L.Play(b.lanes, second) == Some(c.lanes);
    L.RunsAreSound(L.NONE, first);
    L.StaleNeverRuns(b.lanes, second, w);
  }
}
