/** What holds in every state of every run of the session browser, whatever the order in which
    keys, results and worker steps come. */
module BrowserInvariants {
  import opened Options
  import opened PyText
  import opened BrowserViews
  import opened BrowserState
  import L = Lanes

  // ----- The parts of the invariant

  /** Every result on its way answers its request, or its request is stale. */
  ghost predicate Results(s: L.State) {
    && (forall w: nat :: w < |s.workers| && s.workers[w].phase.Computed? && s.Current(w)
          ==> Suits(s.workers[w].request, s.workers[w].phase.outcome))
    && (forall w: nat :: w < |s.workers| && s.workers[w].phase.Posting? && s.workers[w].phase.callback.Final? && s.Current(w)
          ==> Suits(s.workers[w].request, s.workers[w].phase.callback.outcome))
    && (forall i :: 0 <= i < |s.queue| && s.queue[i].Final? && s.queue[i].worker < |s.workers| && s.Current(s.queue[i].worker)
          ==> Suits(s.workers[s.queue[i].worker].request, s.queue[i].outcome))
  }

  /** The newest list request asks for the query inputs on screen. */
  ghost predicate AsksFor(s: L.State, scope: Scope) {
    forall w: nat :: w < |s.workers| && s.Current(w) && s.workers[w].request.Query? ==> s.workers[w].request.scope == scope
  }

  predicate IsDetailOf(views: seq<View>, view: nat, chatId: string) {
    view < |views| && views[view].Detail? && views[view].chatId == chatId
  }

  /** The request was made for a view of its kind and for that view's chat. */
  predicate MadeFor(views: seq<View>, request: L.Request) {
    match request
    case Query(_) => true
    case Search(_) => true
    case LoadTranscript(view, chatId, _) => IsDetailOf(views, view, chatId)
    case RefreshModel(view, chatId) => IsDetailOf(views, view, chatId)
    case LoadLineage(view) => view < |views| && views[view].Lineage?
  }

  ghost predicate Addressed(views: seq<View>, workers: seq<L.Worker>) {
    forall w :: 0 <= w < |workers| ==> MadeFor(views, workers[w].request)
  }

  /** A transcript on screen or kept for later is the transcript of its own chat, and a lineage that
      has loaded has a selected node. */
  predicate Truthful(view: View) {
    match view
    case Detail(chatId, _, _, window, _, _) => window.Some? ==> window.value.source == chatId
    case Lineage(_, nodes, cursor, _) => nodes.Some? ==> cursor < |nodes.value|
  }

  ghost predicate AllTruthful(views: seq<View>, snapshot: Option<Snapshot>) {
    && (forall v :: 0 <= v < |views| ==> Truthful(views[v]))
    && (snapshot.Some? ==> snapshot.value.window.source == snapshot.value.chatId)
  }

  /** The stack holds distinct views, details and lineages in turn, and only a lineage that has
      loaded is ever covered. */
  ghost predicate Stacked(views: seq<View>, stack: seq<nat>) {
    && (forall i :: 0 <= i < |stack| ==> stack[i] < |views|)
    && (forall i, j :: 0 <= i < j < |stack| ==> stack[i] < stack[j])
    && (forall i :: 0 <= i < |stack| - 1 ==> (views[stack[i]].Detail? <==> views[stack[i + 1]].Lineage?))
    && (forall i :: 0 <= i < |stack| - 1 && views[stack[i]].Lineage? ==> views[stack[i]].nodes.Some?)
  }

  /** A view that shows "loading" has its request on the way. */
  ghost predicate Loads(views: seq<View>, view: nat, s: L.State)
    requires view < |views|
  {
    match views[view]
    case Detail(_, _, _, window, error, _) => window == None && error == None ==> L.Busy(s, L.TranscriptJob(view))
    case Lineage(_, nodes, _, failure) => nodes == None && failure == None ==> L.Busy(s, L.LineageJob(view))
  }

  ghost predicate TopLoads(b: Browser) {
    b.HasTop() ==> Loads(b.views, b.stack[|b.stack| - 1], b.lanes)
  }

  /** The newest list request came back with an error. */
  ghost predicate QueryFailed(s: L.State) {
    exists i :: 0 <= i < |s.log| && IsQueryFailure(s, s.log[i])
  }

  predicate IsQueryFailure(s: L.State, callback: L.Callback) {
    && callback.Final? && callback.outcome.Raised?
    && callback.worker < |s.workers| && s.workers[callback.worker].request.Query? && s.Current(callback.worker)
  }

  /** The rows on screen answer the query inputs on screen, a reload is pending, or the reload failed. */
  ghost predicate UpToDate(list: ListState, s: L.State) {
    list.pending || list.loaded == list.CurrentScope() || QueryFailed(s)
  }

  ghost predicate ListSound(list: ListState, s: L.State) {
    && list.listing.answers == list.loaded
    && list.highlight >= 0
    && AsksFor(s, list.CurrentScope())
    && (s.closed || (list.pending <==> L.Busy(s, L.QueryJob)))
    && (s.closed || (list.searchMode == Running ==> L.Busy(s, L.SearchJob)))
    && (s.closed || UpToDate(list, s))
  }

  ghost predicate LanesSound(b: Browser) {
    L.Sound(b.lanes) && Results(b.lanes) && Addressed(b.views, b.lanes.workers)
  }

  ghost predicate Inv(b: Browser) {
    && LanesSound(b)
    && ListSound(b.list, b.lanes)
    && AllTruthful(b.views, b.snapshot)
    && Stacked(b.views, b.stack)
    && (b.lanes.closed || TopLoads(b))
  }

  // ----- Lanes

  lemma RunKeepsResults(s: L.State, request: L.Request)
    requires L.Sound(s) && Results(s)
    ensures Results(s.Run(request))
  {
    hide Suits;
    var t := s.Run(request);
    forall w: nat | w < |s.workers| && t.Current(w) ensures s.Current(w) {
    }
    assert forall i :: 0 <= i < |s.queue| ==> s.queue[i] == (s.log + s.queue)[|s.log| + i];
  }

  lemma CancelKeepsResults(s: L.State, lane: L.Lane)
    requires L.Sound(s) && Results(s)
    ensures Results(s.Cancel(lane))
  {
    hide Suits;
    var t := s.Cancel(lane);
    forall w: nat | w < |s.workers| && t.Current(w) ensures s.Current(w) {
    }
  }

  lemma RunAsks(s: L.State, request: L.Request, scope: Scope)
    requires L.Sound(s)
    requires if request.Query? then request.scope == scope else AsksFor(s, scope)
    ensures AsksFor(s.Run(request), scope)
  {
  }

  lemma CancelAsks(s: L.State, lane: L.Lane, scope: Scope)
    requires L.Sound(s) && AsksFor(s, scope)
    ensures AsksFor(s.Cancel(lane), scope)
  {
  }

  lemma ActKeepsResults(b: Browser, step: L.Step)
    requires L.Sound(b.lanes) && Results(b.lanes) && Enabled(b, Worked(step))
    ensures Results(b.lanes.Act(step))
  {
    hide Suits;
    var s, t := b.lanes, b.lanes.Act(step);
    forall w: nat | w < |s.workers| ensures t.Current(w) <==> s.Current(w) {
    }
    assert forall w :: 0 <= w < |s.workers| ==> t.workers[w].request == s.workers[w].request;
    assert forall i :: 0 <= i < |s.queue| ==> t.queue[i] == s.queue[i];
    if step.Compute? && s.Current(step.worker) {
      assert Suits(s.workers[step.worker].request, step.outcome);
    }
  }

  lemma TakeKeepsResults(s: L.State)
    requires L.Sound(s) && Results(s) && s.queue != [] && s.queue[0].worker < |s.workers|
    ensures Results(s.Take())
    ensures s.queue[0].Final? && s.Current(s.queue[0].worker) ==> Suits(s.workers[s.queue[0].worker].request, s.queue[0].outcome)
  {
    hide Suits;
    var t := s.Take();
    assert forall i :: 0 <= i < |t.queue| ==> t.queue[i] == s.queue[i + 1];
  }

  // ----- The list

  /** A failure stays on record while no newer list request is made. */
  lemma FailureCarries(s: L.State, t: L.State)
    requires |s.log| <= |t.log| && t.log[..|s.log|] == s.log && |s.workers| <= |t.workers|
    requires forall w: nat :: w < |s.workers| && s.workers[w].request.Query? && s.Current(w)
               ==> t.workers[w].request == s.workers[w].request && t.Current(w)
    ensures QueryFailed(s) ==> QueryFailed(t)
  {
    if QueryFailed(s) {
      var i :| 0 <= i < |s.log| && IsQueryFailure(s, s.log[i]);
      assert t.log[i] == t.log[..|s.log|][i];
    }
  }

  lemma ListAfterRun(list: ListState, s: L.State, request: L.Request)
    requires L.Sound(s) && !s.closed && ListSound(list, s) && !request.Query? && !request.Search?
    ensures ListSound(list, s.Run(request))
  {
    RunAsks(s, request, list.CurrentScope());
    L.RunMakesBusy(s, request, L.QueryJob);
    L.RunMakesBusy(s, request, L.SearchJob);
    FailureCarries(s, s.Run(request));
  }

  lemma ListAfterCancel(list: ListState, s: L.State, lane: L.Lane)
    requires L.Sound(s) && ListSound(list, s) && lane != L.ListLane
    requires lane == L.SearchLane ==> list.searchMode != Running
    ensures ListSound(list, s.Cancel(lane))
  {
    CancelAsks(s, lane, list.CurrentScope());
    L.CancelKeepsOthers(s, lane, L.QueryJob);
    L.CancelKeepsOthers(s, lane, L.SearchJob);
    FailureCarries(s, s.Cancel(lane));
  }

  // ----- The views

  /** Views keep their kind and their chat, and a loaded lineage stays loaded. */
  ghost predicate Evolves(before: seq<View>, after: seq<View>) {
    && |before| <= |after|
    && (forall v :: 0 <= v < |before| ==> SameView(before[v], after[v]))
  }

  predicate SameView(before: View, after: View) {
    match before
    case Detail(chatId, _, _, _, _, _) => after.Detail? && after.chatId == chatId
    case Lineage(origin, nodes, _, _) => after.Lineage? && after.origin == origin && (nodes.Some? ==> after.nodes.Some?)
  }

  lemma EvolvingKeeps(before: seq<View>, after: seq<View>, stack: seq<nat>, workers: seq<L.Worker>)
    requires Evolves(before, after)
    requires Addressed(before, workers) && Stacked(before, stack)
    ensures Addressed(after, workers) && Stacked(after, stack)
  {
    forall w | 0 <= w < |workers| ensures MadeFor(after, workers[w].request) {
      assert MadeFor(before, workers[w].request);
      var request := workers[w].request;
      if !request.Query? && !request.Search? {
        assert SameView(before[request.view], after[request.view]);
      }
    }
    forall i | 0 <= i < |stack| ensures SameView(before[stack[i]], after[stack[i]]) {
    }
  }

  lemma RunAddresses(views: seq<View>, s: L.State, request: L.Request)
    requires Addressed(views, s.workers) && MadeFor(views, request)
    ensures Addressed(views, s.Run(request).workers)
  {
    hide MadeFor;
  }

  lemma RunKeepsLanes(b: Browser, request: L.Request)
    requires LanesSound(b) && MadeFor(b.views, request)
    ensures LanesSound(b.(lanes := b.lanes.Run(request)))
  {
    hide MadeFor;
    L.RunIsSound(b.lanes, request);
    RunKeepsResults(b.lanes, request);
    RunAddresses(b.views, b.lanes, request);
  }

  lemma CancelKeepsLanes(b: Browser, lane: L.Lane)
    requires LanesSound(b)
    ensures LanesSound(b.(lanes := b.lanes.Cancel(lane)))
  {
    hide MadeFor;
    L.CancelIsSound(b.lanes, lane);
    CancelKeepsResults(b.lanes, lane);
  }

  lemma RunKeepsLoading(views: seq<View>, view: nat, s: L.State, request: L.Request)
    requires L.Sound(s) && !s.closed && view < |views| && Loads(views, view, s)
    requires L.LaneOf(request) != (if views[view].Detail? then L.TranscriptLane else L.LineageLane)
    ensures Loads(views, view, s.Run(request))
  {
    L.RunMakesBusy(s, request, L.TranscriptJob(view));
    L.RunMakesBusy(s, request, L.LineageJob(view));
  }

  lemma CancelKeepsLoading(views: seq<View>, view: nat, s: L.State, lane: L.Lane)
    requires view < |views| && Loads(views, view, s)
    requires lane != (if views[view].Detail? then L.TranscriptLane else L.LineageLane)
    ensures Loads(views, view, s.Cancel(lane))
  {
    L.CancelKeepsOthers(s, lane, L.TranscriptJob(view));
    L.CancelKeepsOthers(s, lane, L.LineageJob(view));
  }

  // ----- Handlers that change one thing

  /** A change of the list that starts and stops nothing. */
  lemma ListChange(b: Browser, list: ListState)
    requires Inv(b)
    requires list.listing.answers == b.list.listing.answers && list.loaded == b.list.loaded && list.pending == b.list.pending
    requires list.CurrentScope() == b.list.CurrentScope() && list.highlight >= 0
    requires list.searchMode == Running ==> b.list.searchMode == Running
    ensures Inv(b.(list := list))
  {
    hide MadeFor, Suits, Truthful, L.Sound, Results, Stacked;
  }

  lemma RequeryKeeps(b: Browser, list: ListState)
    requires Inv(b) && !b.lanes.closed && list.listing == b.list.listing && list.loaded == b.list.loaded
    ensures Inv(b.(list := list).Requery())
  {
    hide Suits, Truthful, L.Sound, Results, Stacked;
    var reloading := list.BeginReload();
    var query := L.Query(reloading.CurrentScope());
    var c := b.(lanes := b.lanes.Cancel(L.SearchLane));
    CancelKeepsLanes(b, L.SearchLane);
    RunKeepsLanes(c, query);
    RunAsks(c.lanes, query, reloading.CurrentScope());
    L.RunMakesBusy(c.lanes, query, L.QueryJob);
    if b.HasTop() {
      var top := b.stack[|b.stack| - 1];
      CancelKeepsLoading(b.views, top, b.lanes, L.SearchLane);
      RunKeepsLoading(b.views, top, c.lanes, query);
    }
  }

  lemma StartSearchKeeps(b: Browser)
    requires Inv(b) && !b.lanes.closed
    ensures Inv(b.StartSearch())
  {
    hide Suits, Truthful, L.Sound, Results, Stacked;
    var search := L.Search(ChatIds(b.list.VisibleRows()));
    RunKeepsLanes(b, search);
    RunAsks(b.lanes, search, b.list.CurrentScope());
    L.RunMakesBusy(b.lanes, search, L.QueryJob);
    FailureCarries(b.lanes, b.lanes.Run(search));
    if b.HasTop() {
      RunKeepsLoading(b.views, b.stack[|b.stack| - 1], b.lanes, search);
    }
  }

  lemma StopSearchKeeps(b: Browser)
    requires Inv(b) && !b.lanes.closed
    ensures Inv(b.(list := b.list.LeaveSearch(), lanes := b.lanes.Cancel(L.SearchLane)))
  {
    hide MadeFor, Suits, Truthful, L.Sound, Results, Stacked;
    ListChange(b, b.list.LeaveSearch());
    CancelKeepsLanes(b, L.SearchLane);
    ListAfterCancel(b.list.LeaveSearch(), b.lanes, L.SearchLane);
    if b.HasTop() {
      CancelKeepsLoading(b.views, b.stack[|b.stack| - 1], b.lanes, L.SearchLane);
    }
  }

  lemma CloseKeeps(b: Browser)
    requires Inv(b)
    ensures Inv(b.(lanes := b.lanes.Close()))
  {
  }

  /** A change of one view that is neither loaded nor unloaded by it. */
  lemma ViewChange(b: Browser, view: nat, after: View)
    requires Inv(b) && view < |b.views| && SameView(b.views[view], after) && Truthful(after)
    requires after.Detail? ==> after.window == b.views[view].window && after.error == b.views[view].error
    requires after.Lineage? ==> after.nodes == b.views[view].nodes && after.failure == b.views[view].failure
    ensures Inv(b.(views := b.views[view := after]))
  {
    hide Suits, L.Sound, Results, ListSound;
    EvolvingKeeps(b.views, b.views[view := after], b.stack, b.lanes.workers);
  }

  /** Everything but the top of the stack, which is about to be loaded. */
  ghost predicate Unloaded(b: Browser) {
    LanesSound(b) && ListSound(b.list, b.lanes) && AllTruthful(b.views, b.snapshot) && Stacked(b.views, b.stack)
  }

  /** A change of the top detail followed by requests that load it or leave it loaded. */
  lemma TopChange(b: Browser, view: nat, after: View)
    requires Unloaded(b) && view < |b.views| && SameView(b.views[view], after) && Truthful(after)
    ensures Unloaded(b.(views := b.views[view := after]))
  {
    hide Suits, L.Sound, Results, ListSound;
    EvolvingKeeps(b.views, b.views[view := after], b.stack, b.lanes.workers);
  }

  lemma RunStaysUnloaded(b: Browser, request: L.Request)
    requires Unloaded(b) && !b.lanes.closed && !request.Query? && !request.Search? && MadeFor(b.views, request)
    ensures Unloaded(b.(lanes := b.lanes.Run(request)))
  {
    hide MadeFor, Suits, Truthful, L.Sound, Results, ListSound, Stacked;
    RunKeepsLanes(b, request);
    ListAfterRun(b.list, b.lanes, request);
  }

  lemma LoadDetailKeeps(b: Browser, view: nat)
    requires Unloaded(b) && !b.lanes.closed && view < |b.views| && b.views[view].Detail?
    requires b.HasTop() && view == b.stack[|b.stack| - 1]
    ensures Inv(b.LoadDetail(view))
  {
    hide Suits, L.Sound, Results, ListSound, Stacked, LanesSound;
    var detail := b.views[view];
    assert Truthful(detail);
    var generation := if detail.row.Some? then detail.row.value.generation else [];
    var refresh := L.RefreshModel(view, detail.chatId);
    if b.snapshot.Some? && b.snapshot.value.chatId == detail.chatId && b.snapshot.value.generation == generation {
      var after := detail.(window := Some(b.snapshot.value.window));
      TopChange(b, view, after);
      RunStaysUnloaded(b.(views := b.views[view := after]), refresh);
    } else {
      var load := L.LoadTranscript(view, detail.chatId, generation);
      var c := b.(views := b.views[view := detail.(error := None)]);
      TopChange(b, view, detail.(error := None));
      RunStaysUnloaded(c, load);
      LoadRunsAndRefreshes(c, view, load, refresh);
      RunStaysUnloaded(c.(lanes := c.lanes.Run(load)), refresh);
    }
  }

  lemma LoadRunsAndRefreshes(c: Browser, view: nat, load: L.Request, refresh: L.Request)
    requires Unloaded(c) && !c.lanes.closed && L.JobOf(load) == L.TranscriptJob(view) && refresh.RefreshModel?
    ensures L.Busy(c.lanes.Run(load).Run(refresh), L.TranscriptJob(view))
  {
    hide Results, MadeFor, Suits, ListSound, Stacked, AllTruthful;
    L.RunMakesBusy(c.lanes, load, L.TranscriptJob(view));
    L.RunIsSound(c.lanes, load);
    L.RunMakesBusy(c.lanes.Run(load), refresh, L.TranscriptJob(view));
  }

  /** A fresh view can go on the stack above a view of the other kind that may be covered. */
  predicate MayCover(b: Browser, view: View) {
    b.HasTop() ==> (b.Top().Detail? <==> view.Lineage?) && (b.Top().Lineage? ==> b.Top().nodes.Some?)
  }

  lemma PushKeepsStacked(b: Browser, view: View)
    requires Stacked(b.views, b.stack) && Addressed(b.views, b.lanes.workers) && MayCover(b, view)
    ensures Stacked(b.views + [view], b.stack + [|b.views|]) && Addressed(b.views + [view], b.lanes.workers)
  {
    var views := b.views + [view];
    assert forall v :: 0 <= v < |b.views| ==> views[v] == b.views[v];
    EvolvingKeeps(b.views, views, b.stack, b.lanes.workers);
    hide MadeFor;
    var stack := b.stack + [|b.views|];
    assert forall i :: 0 <= i < |b.stack| ==> stack[i] == b.stack[i];
  }

  lemma OpenDetailKeeps(b: Browser, chatId: string, row: Option<Row>)
    requires Inv(b) && !b.lanes.closed
    requires MayCover(b, Detail(chatId, row, [], None, None, None))
    ensures Inv(b.OpenDetail(chatId, row))
  {
    hide Suits, L.Sound, Results, ListSound, MadeFor;
    var detail := Detail(chatId, row, if row.Some? then row.value.model else [], None, None, None);
    PushKeepsStacked(b, detail);
    var c := b.(views := b.views + [detail], stack := b.stack + [|b.views|]);
    LoadDetailKeeps(c, |b.views|);
  }

  lemma OpenLineageKeeps(b: Browser, chatId: string)
    requires Inv(b) && !b.lanes.closed
    requires MayCover(b, Lineage(chatId, None, 0, None))
    ensures Inv(b.OpenLineage(chatId))
  {
    hide Suits, L.Sound, Results, ListSound;
    var view := Lineage(chatId, None, 0, None);
    PushKeepsStacked(b, view);
    var c := b.(views := b.views + [view], stack := b.stack + [|b.views|]);
    var load := L.LoadLineage(|b.views|);
    RunKeepsLanes(c, load);
    ListAfterRun(c.list, c.lanes, load);
    L.RunMakesBusy(c.lanes, load, L.LineageJob(|b.views|));
  }

  lemma OpenIsUnloaded(b: Browser, view: View)
    requires Inv(b) && MayCover(b, view) && Truthful(view)
    ensures Unloaded(b.(views := b.views + [view], stack := b.stack + [|b.views|]))
  {
    hide L.Sound, Results, ListSound, MadeFor, Suits;
    PushKeepsStacked(b, view);
  }

  lemma QueuedIsKnown(b: Browser)
    requires Inv(b) && b.lanes.queue != []
    ensures b.lanes.queue[0].worker < |b.lanes.workers|
  {
    assert (b.lanes.log + b.lanes.queue)[|b.lanes.log|] == b.lanes.queue[0];
  }

  /** The browser after the top view is popped and its requests are cancelled. */
  function Popped(b: Browser): Browser
    requires b.HasTop()
  {
    b.(stack := b.stack[..|b.stack| - 1],
       lanes := if b.Top().Detail? then b.lanes.Cancel(L.TranscriptLane).Cancel(L.ModelLane)
                else b.lanes.Cancel(L.LineageLane))
  }

  /** Popping reveals a view that is loaded or failed, or a detail that can be loaded again. */
  lemma PopReveals(b: Browser)
    requires Inv(b) && !b.lanes.closed && b.HasTop()
    ensures
      var c := Popped(b);
      Unloaded(c) && ((c.HasTop() && c.Top().Detail? && c.Top().window == None && c.Top().error == None) || Inv(c))
  {
    hide Suits, L.Sound, Results, MadeFor, Truthful;
    var c := b.(stack := b.stack[..|b.stack| - 1]);
    if b.Top().Detail? {
      CancelKeepsLanes(c, L.TranscriptLane);
      ListAfterCancel(c.list, c.lanes, L.TranscriptLane);
      var d := c.(lanes := c.lanes.Cancel(L.TranscriptLane));
      CancelKeepsLanes(d, L.ModelLane);
      ListAfterCancel(d.list, d.lanes, L.ModelLane);
      PoppedKeeps(b, d.lanes.Cancel(L.ModelLane));
    } else {
      CancelKeepsLanes(c, L.LineageLane);
      ListAfterCancel(c.list, c.lanes, L.LineageLane);
      PoppedKeeps(b, c.lanes.Cancel(L.LineageLane));
    }
  }

  lemma BackKeeps(b: Browser)
    requires Inv(b) && !b.lanes.closed && b.HasTop()
    ensures Inv(b.Back())
  {
    hide Inv, Unloaded;
    PopReveals(b);
    var c := Popped(b);
    if c.HasTop() && c.Top().Detail? && c.Top().window == None && c.Top().error == None {
      LoadDetailKeeps(c, c.stack[|c.stack| - 1]);
    }
  }

  lemma PoppedKeeps(b: Browser, lanes: L.State)
    requires Inv(b) && b.HasTop() && !lanes.closed
    requires LanesSound(b.(lanes := lanes)) && ListSound(b.list, lanes)
    ensures
      var c := b.(stack := b.stack[..|b.stack| - 1], lanes := lanes);
      Unloaded(c) && ((c.HasTop() && c.Top().Detail? && c.Top().window == None && c.Top().error == None) || Inv(c))
  {
    hide Suits, L.Sound, Results, MadeFor, Truthful, ListSound;
  }

  // ----- Keys

  lemma SayKeeps(b: Browser, text: string)
    requires Inv(b)
    ensures Inv(b.Say(text))
  {
    hide Suits, L.Sound, Results, MadeFor;
    if b.InList() {
      ListChange(b, b.list.(message := Some(text)));
    } else if b.HasTop() && b.Top().Detail? {
      ViewChange(b, b.stack[|b.stack| - 1], b.Top().(message := Some(text)));
    }
  }

  lemma ActivateKeeps(b: Browser, blocked: Option<string>)
    requires Inv(b) && !b.lanes.closed
    ensures Inv(b.Activate(blocked))
  {
    hide Suits, L.Sound, Results, MadeFor, Truthful, ListSound, TopLoads, AllTruthful;
    var target := b.Focus();
    if target.Some? {
      if b.HasTop() && b.Top().Lineage? {
        OpenDetailKeeps(b, target.value.0, target.value.1);
      } else if blocked.Some? {
        SayKeeps(b, target.value.0 + ": " + blocked.value);
      } else {
        CloseKeeps(b);
      }
    }
  }

  lemma BeginStartFromKeeps(b: Browser)
    requires Inv(b)
    ensures Inv(b.BeginStartFrom())
  {
    hide Suits, L.Sound, Results, MadeFor, Truthful, ListSound, AllTruthful, Stacked;
    var target := b.Focus();
    if target.Some? {
      if target.value.1 == None {
        SayKeeps(b, target.value.0 + ": not in this project's index");
      } else if target.value.1.value.blocked.Some? {
        SayKeeps(b, target.value.0 + ": " + target.value.1.value.blocked.value);
      }
    }
  }

  lemma OpenLineageOfFocusKeeps(b: Browser)
    requires Inv(b) && !b.lanes.closed && (b.HasTop() ==> b.Top().Detail?)
    ensures Inv(b.OpenLineageOfFocus())
  {
    hide Suits, L.Sound, Results, MadeFor, Truthful, ListSound, AllTruthful, Stacked;
    if b.Focus().Some? {
      OpenLineageKeeps(b, b.Focus().value.0);
    }
  }

  lemma OpenFocusedDetailKeeps(b: Browser)
    requires Inv(b) && !b.lanes.closed && b.InList()
    ensures Inv(b.OpenFocusedDetail())
  {
    hide Suits, L.Sound, Results, MadeFor, Truthful, ListSound, AllTruthful, Stacked;
    if b.Focus().Some? {
      OpenDetailKeeps(b, b.Focus().value.0, b.Focus().value.1);
    }
  }

  lemma EnterKeeps(b: Browser, blocked: Option<string>)
    requires Inv(b) && !b.lanes.closed
    ensures Inv(b.OnEnter(blocked))
  {
    hide Suits, L.Sound, Results, MadeFor, Truthful, AllTruthful, Stacked, LanesSound;
    if b.prompting {
      CloseKeeps(b);
    } else if b.InList() && b.list.searchMode == Input {
      StartSearchKeeps(b);
    } else if b.InList() && b.list.focus != None {
      ListChange(b, b.list.(focus := None));
    } else {
      ActivateKeeps(b, blocked);
    }
  }

  lemma PromptKeeps(b: Browser, prompting: bool)
    requires Inv(b)
    ensures Inv(b.(prompting := prompting))
  {
    hide Suits, L.Sound, Results, MadeFor, Truthful, AllTruthful, Stacked, ListSound;
  }

  lemma EscapeKeeps(b: Browser)
    requires Inv(b) && !b.lanes.closed
    ensures Inv(b.OnEscape())
  {
    hide Suits, L.Sound, Results, MadeFor, Truthful, AllTruthful, Stacked, LanesSound;
    if b.prompting {
      PromptKeeps(b, false);
    } else if b.HasTop() {
      BackKeeps(b);
    } else if b.list.searchMode != Off {
      StopSearchKeeps(b);
    } else if b.list.focus != None {
      ListChange(b, b.list.(focus := None));
    } else if b.list.filterText != [] {
      RequeryKeeps(b, b.list.EditFilter([]));
    } else {
      CloseKeeps(b);
    }
  }

  lemma BackspaceKeeps(b: Browser)
    requires Inv(b) && !b.lanes.closed
    ensures Inv(b.OnBackspace())
  {
    hide Suits, L.Sound, Results, MadeFor, Truthful, AllTruthful, Stacked, LanesSound;
    if b.prompting || !b.InList() {
    } else if b.list.searchMode == Input {
      ListChange(b, b.list.(searchQuery := DropLast(b.list.searchQuery)));
    } else if b.list.searchMode == Off {
      RequeryKeeps(b, b.list.EditFilter(DropLast(b.list.filterText)));
    }
  }

  lemma ArrowKeeps(b: Browser, delta: int)
    requires Inv(b) && !b.lanes.closed
    ensures Inv(b.OnArrow(delta))
  {
    hide Suits, L.Sound, Results, MadeFor, Truthful, AllTruthful, Stacked, LanesSound;
    var stepped := b.list.StepFocused(delta);
    if !b.prompting && b.InList() {
      if stepped.status != b.list.status || stepped.sort != b.list.sort {
        RequeryKeeps(b, stepped);
      } else {
        ListChange(b, stepped);
      }
    }
  }

  lemma MoveKeeps(b: Browser, delta: int)
    requires Inv(b)
    ensures Inv(b.OnMove(delta))
  {
    hide Suits, L.Sound, Results, MadeFor, Stacked, LanesSound;
    if b.prompting {
    } else if b.InList() {
      ListChange(b, b.list.Move(delta));
    } else if b.HasTop() && b.Top().Lineage? {
      assert Truthful(b.Top());
      ViewChange(b, b.stack[|b.stack| - 1], b.Top().MoveCursor(delta));
    }
  }

  lemma ListCharacterKeeps(b: Browser, c: char, printable: bool)
    requires Inv(b) && !b.lanes.closed && b.InList()
    ensures Inv(b.OnListCharacter(c, printable))
  {
    hide Suits, L.Sound, Results, MadeFor, Truthful, AllTruthful, Stacked, LanesSound;
    if !printable || b.list.searchMode == Running {
    } else if b.list.searchMode == Input {
      ListChange(b, b.list.(searchQuery := b.list.searchQuery + [c]));
    } else if c == ' ' {
      OpenFocusedDetailKeeps(b);
    } else if c == 'l' && b.list.filterText == [] {
      OpenLineageOfFocusKeeps(b);
    } else if c == 'n' && b.list.filterText == [] {
      BeginStartFromKeeps(b);
    } else if c == '/' && b.list.searchMode == Off {
      ListChange(b, b.list.(focus := None, searchMode := Input, searchQuery := []));
    } else if b.list.searchMode == Off {
      RequeryKeeps(b, b.list.(focus := None).EditFilter(b.list.filterText + [c]));
    }
  }

  lemma TabKeeps(b: Browser)
    requires Inv(b)
    ensures Inv(b.OnTab())
  {
    hide Suits, L.Sound, Results, MadeFor, Truthful, AllTruthful, Stacked, LanesSound;
    ListChange(b, b.list.CycleFocus());
  }

  lemma CharacterKeeps(b: Browser, c: char, printable: bool)
    requires Inv(b) && !b.lanes.closed
    ensures Inv(b.OnCharacter(c, printable))
  {
    hide Suits, L.Sound, Results, MadeFor, Truthful, AllTruthful, Stacked, LanesSound, ListSound;
    if b.prompting {
    } else if b.InList() {
      ListCharacterKeeps(b, c, printable);
    } else if b.HasTop() && b.Top().Detail? {
      OpenLineageOfFocusKeeps(b);
      BeginStartFromKeeps(b);
    }
  }

  lemma PressKeeps(b: Browser, key: Key)
    requires Inv(b) && !b.lanes.closed
    ensures Inv(b.Press(key))
  {
    hide Suits, L.Sound, Results, MadeFor, Truthful, AllTruthful, Stacked, LanesSound, ListSound, TopLoads;
    match key
    case Enter(blocked) => EnterKeeps(b, blocked);
    case Escape => EscapeKeeps(b);
    case Backspace => BackspaceKeeps(b);
    case Tab => TabKeeps(b);
    case Arrow(delta) => ArrowKeeps(b, delta);
    case Move(delta) => MoveKeeps(b, delta);
    case Character(c, printable) => CharacterKeeps(b, c, printable);
    case CtrlL =>
      if !(b.prompting || (b.HasTop() && b.Top().Lineage?)) {
        OpenLineageOfFocusKeeps(b);
      }
    case CtrlN => BeginStartFromKeeps(b);
    case CtrlC => CloseKeeps(b);
  }

  // ----- Worker steps and results

  lemma WorkedKeeps(b: Browser, step: L.Step)
    requires Inv(b) && Enabled(b, Worked(step))
    ensures Inv(b.(lanes := b.lanes.Act(step)))
  {
    hide Suits, L.Sound, MadeFor, Truthful, Stacked, ListSound, Results;
    L.ActIsSound(b.lanes, step);
    ActKeepsResults(b, step);
    SameRequests(b.lanes, step);
    WorkedKeepsList(b, step);
    if b.HasTop() {
      L.ActKeepsBusy(b.lanes, step, L.TranscriptJob(b.stack[|b.stack| - 1]));
      L.ActKeepsBusy(b.lanes, step, L.LineageJob(b.stack[|b.stack| - 1]));
    }
  }

  lemma WorkedKeepsList(b: Browser, step: L.Step)
    requires L.Sound(b.lanes) && ListSound(b.list, b.lanes) && Enabled(b, Worked(step))
    ensures ListSound(b.list, b.lanes.Act(step))
  {
    hide Suits, L.Sound;
    var s, t := b.lanes, b.lanes.Act(step);
    SameRequests(s, step);
    L.ActKeepsBusy(s, step, L.QueryJob);
    L.ActKeepsBusy(s, step, L.SearchJob);
    FailureCarries(s, t);
  }

  lemma SameRequests(s: L.State, step: L.Step)
    requires s.CanAct(step)
    ensures
      var t := s.Act(step);
      && |t.workers| == |s.workers| && t.closed == s.closed
      && (forall w :: 0 <= w < |s.workers| ==> t.workers[w].request == s.workers[w].request)
      && (forall w: nat :: w < |s.workers| ==> (t.Current(w) <==> s.Current(w)))
  {
  }

  lemma TakenKeepsLanes(b: Browser)
    requires LanesSound(b) && b.lanes.queue != [] && b.lanes.queue[0].worker < |b.lanes.workers|
    ensures LanesSound(b.(lanes := b.lanes.Take()))
  {
    hide Suits, MadeFor, L.Ordered, L.OwnCallbacks, L.FinalsLast;
    assert (b.lanes.log + b.lanes.queue)[|b.lanes.log|] == b.lanes.queue[0];
    L.TakeIsSound(b.lanes);
    TakeKeepsResults(b.lanes);
  }

  /** A callback that is dropped, or reports progress, leaves every job as it was. */
  lemma QuietTake(b: Browser)
    requires Inv(b) && b.lanes.queue != [] && b.lanes.queue[0].worker < |b.lanes.workers|
    requires !b.lanes.Current(b.lanes.queue[0].worker) || b.lanes.queue[0].Progress?
    ensures Inv(b.(lanes := b.lanes.Take()))
  {
    hide Suits, MadeFor, L.Sound, Results, Truthful, Stacked;
    TakenKeepsLanes(b);
    L.TakeKeepsBusy(b.lanes, L.QueryJob);
    L.TakeKeepsBusy(b.lanes, L.SearchJob);
    FailureCarries(b.lanes, b.lanes.Take());
    if b.HasTop() {
      L.TakeKeepsBusy(b.lanes, L.TranscriptJob(b.stack[|b.stack| - 1]));
      L.TakeKeepsBusy(b.lanes, L.LineageJob(b.stack[|b.stack| - 1]));
    }
  }

  /** The job that loads the view on top. */
  function TopJob(b: Browser): L.Job
    requires b.HasTop()
  {
    var top := b.stack[|b.stack| - 1];
    if b.Top().Detail? then L.TranscriptJob(top) else L.LineageJob(top)
  }

  /** What holds between taking a current result from the queue and applying it: the job of its lane
      has ended, and no other has. */
  ghost predicate Taken(c: Browser, request: L.Request, outcome: L.Outcome) {
    && LanesSound(c) && AllTruthful(c.views, c.snapshot) && Stacked(c.views, c.stack)
    && c.list.listing.answers == c.list.loaded && c.list.highlight >= 0 && !c.lanes.closed
    && AsksFor(c.lanes, c.list.CurrentScope()) && (request.Query? ==> request.scope == c.list.CurrentScope())
    && MadeFor(c.views, request) && Suits(request, outcome)
    && (L.Busy(c.lanes, L.QueryJob) <==> c.list.pending && !request.Query?)
    && (if request.Query? then outcome.Raised? ==> QueryFailed(c.lanes) else UpToDate(c.list, c.lanes))
    && (c.list.searchMode == Running ==> request.Search? || L.Busy(c.lanes, L.SearchJob))
    && (c.HasTop() ==> L.JobOf(request) == TopJob(c) || Loads(c.views, c.stack[|c.stack| - 1], c.lanes))
  }

  lemma FinalTake(b: Browser)
    requires Inv(b) && b.lanes.queue != [] && b.lanes.queue[0].worker < |b.lanes.workers|
    requires b.lanes.Current(b.lanes.queue[0].worker) && b.lanes.queue[0].Final?
    ensures Taken(b.(lanes := b.lanes.Take()), b.lanes.workers[b.lanes.queue[0].worker].request, b.lanes.queue[0].outcome)
  {
    hide Suits, MadeFor, L.Sound, Results, Truthful, Stacked;
    var request := b.lanes.workers[b.lanes.queue[0].worker].request;
    TakenKeepsLanes(b);
    TakeKeepsResults(b.lanes);
    L.TakeEndsBusy(b.lanes, L.QueryJob);
    L.TakeEndsBusy(b.lanes, L.SearchJob);
    FailureCarries(b.lanes, b.lanes.Take());
    assert b.lanes.Take().log[|b.lanes.log|] == b.lanes.queue[0];
    if b.HasTop() {
      L.TakeEndsBusy(b.lanes, TopJob(b));
    }
  }

  lemma DeliverQuery(c: Browser, request: L.Request, outcome: L.Outcome)
    requires Taken(c, request, outcome) && request.Query?
    ensures Inv(c.Deliver(request, outcome))
  {
    hide MadeFor, LanesSound, AllTruthful, Stacked;
    AboutList(c, request, outcome, c.Deliver(request, outcome).list);
  }

  lemma DeliverSearch(c: Browser, request: L.Request, outcome: L.Outcome)
    requires Taken(c, request, outcome) && request.Search?
    ensures Inv(c.Deliver(request, outcome))
  {
    hide MadeFor, LanesSound, AllTruthful, Stacked;
    AboutList(c, request, outcome, c.Deliver(request, outcome).list);
  }

  /** Applying the result of a query or a search changes the list alone. */
  lemma AboutList(c: Browser, request: L.Request, outcome: L.Outcome, list: ListState)
    requires Taken(c, request, outcome) && (request.Query? || request.Search?)
    requires ListSound(list, c.lanes)
    ensures Inv(c.(list := list))
  {
    hide MadeFor, Suits, L.Sound, Results, Truthful, Stacked, ListSound;
  }

  /** Applying the result for a view changes that view, and loads it when it was the one on top. */
  lemma AboutView(c: Browser, request: L.Request, outcome: L.Outcome, view: nat, after: View, snapshot: Option<Snapshot>,
                  list: ListState)
    requires Taken(c, request, outcome) && !request.Query? && !request.Search?
    requires ListSound(list, c.lanes)
    requires view < |c.views| && SameView(c.views[view], after) && Truthful(after)
    requires snapshot.Some? ==> snapshot.value.window.source == snapshot.value.chatId
    requires
      if L.JobOf(request).ModelJob? then
        match after
        case Detail(_, _, _, window, error, _) => window == c.views[view].window && error == c.views[view].error
        case Lineage(_, _, _, _) => false
      else request.view == view && match after
                                   case Detail(_, _, _, window, error, _) => window.Some? || error.Some?
                                   case Lineage(_, nodes, _, failure) => nodes.Some? || failure.Some?
    ensures Inv(c.(views := c.views[view := after], snapshot := snapshot, list := list))
  {
    hide Suits, L.Sound, Results, ListSound;
    var d := c.(views := c.views[view := after], snapshot := snapshot, list := list);
    EvolvingKeeps(c.views, d.views, c.stack, c.lanes.workers);
    if c.HasTop() {
      var top := c.stack[|c.stack| - 1];
      if top == view && L.JobOf(request) == TopJob(c) {
        assert Loads(d.views, top, d.lanes);
      }
    }
  }

  lemma DeliverTranscript(c: Browser, request: L.Request, outcome: L.Outcome)
    requires Taken(c, request, outcome) && request.LoadTranscript?
    ensures Inv(c.Deliver(request, outcome))
  {
    hide L.Sound, Results, Stacked;
    var detail := c.views[request.view];
    assert Truthful(detail);
    if outcome.Loaded? {
      AboutView(c, request, outcome, request.view, detail.(window := Some(outcome.window)),
                Some(Snapshot(request.chatId, request.generation, outcome.window)), c.list);
    } else {
      AboutView(c, request, outcome, request.view,
                detail.(error := Some("transcript unavailable: " + outcome.reason)), c.snapshot, c.list);
    }
  }

  lemma DeliverModel(c: Browser, request: L.Request, outcome: L.Outcome)
    requires Taken(c, request, outcome) && request.RefreshModel?
    ensures Inv(c.Deliver(request, outcome))
  {
    hide L.Sound, Results, Stacked;
    var detail := c.views[request.view];
    assert Truthful(detail);
    if outcome.Refreshed? && outcome.model.Some? && outcome.model.value != [] {
      AboutView(c, request, outcome, request.view, detail.(model := outcome.model.value), c.snapshot,
                c.list.SetModel(request.chatId, outcome.model.value));
    } else {
      AboutView(c, request, outcome, request.view, detail, c.snapshot, c.list);
      assert c.views[request.view := detail] == c.views;
    }
  }

  lemma DeliverLineage(c: Browser, request: L.Request, outcome: L.Outcome)
    requires Taken(c, request, outcome) && request.LoadLineage?
    ensures Inv(c.Deliver(request, outcome))
  {
    hide L.Sound, Results, Stacked;
    var lineage := c.views[request.view];
    assert Truthful(lineage);
    if outcome.Traced? {
      AboutView(c, request, outcome, request.view,
                lineage.(nodes := Some(outcome.nodes), cursor := FirstOf(outcome.nodes, lineage.origin, 0)),
                c.snapshot, c.list);
    } else {
      AboutView(c, request, outcome, request.view,
                lineage.(failure := Some("lineage unavailable: " + outcome.reason)), c.snapshot, c.list);
    }
  }

  lemma DeliverKeeps(c: Browser, request: L.Request, outcome: L.Outcome)
    requires Taken(c, request, outcome)
    ensures Inv(c.Deliver(request, outcome))
  {
    hide *;
    match request
    case Query(_) => DeliverQuery(c, request, outcome);
    case Search(_) => DeliverSearch(c, request, outcome);
    case LoadTranscript(_, _, _) => DeliverTranscript(c, request, outcome);
    case RefreshModel(_, _) => DeliverModel(c, request, outcome);
    case LoadLineage(_) => DeliverLineage(c, request, outcome);
  }

  lemma NextKeeps(b: Browser)
    requires Inv(b) && b.lanes.queue != [] && b.lanes.queue[0].worker < |b.lanes.workers|
    ensures Inv(b.RunNext())
  {
    hide LanesSound, AllTruthful, Stacked, TopLoads, ListSound, Taken, L.Sound;
    var callback := b.lanes.queue[0];
    if b.lanes.Current(callback.worker) && callback.Final? {
      FinalTake(b);
      DeliverKeeps(b.(lanes := b.lanes.Take()), b.lanes.workers[callback.worker].request, callback.outcome);
    } else {
      QuietTake(b);
      if b.lanes.Current(callback.worker) {
        ProgressKeeps(b.(lanes := b.lanes.Take()), callback.scanned, callback.unavailable);
      }
    }
  }

  lemma ProgressKeeps(b: Browser, scanned: nat, unavailable: nat)
    requires Inv(b)
    ensures Inv(b.(list := b.list.(scanned := scanned, unavailable := unavailable)))
  {
    ListChange(b, b.list.(scanned := scanned, unavailable := unavailable));
  }

  // ----- Every step, every run

  lemma StepKeeps(b: Browser, e: Event)
    requires Inv(b) && Enabled(b, e)
    ensures Inv(After(b, e))
  {
    hide Inv;
    match e
    case Pressed(key) => PressKeeps(b, key);
    case Next => NextKeeps(b);
    case Worked(step) => WorkedKeeps(b, step);
  }

  lemma OpenedIsSound(rows: seq<Row>, status: Status, sort: Sort)
    ensures Inv(Opened(rows, status, sort))
  {
    hide Suits, MadeFor, Truthful, L.JobOf;
    var b := Opened(rows, status, sort);
    assert forall w: nat :: !L.Live(b.lanes, w);
    assert L.Sound(b.lanes);
    assert b.list.CurrentScope() == b.list.loaded;
  }

  lemma {:induction false} RunKeeps(b: Browser, events: seq<Event>)
    requires Inv(b) && Play(b, events).Some?
    ensures Inv(Play(b, events).value)
    decreases |events|
  {
    hide Inv;
    if events != [] {
      StepKeeps(b, events[0]);
      RunKeeps(After(b, events[0]), events[1..]);
    }
  }

  /** A state some run of the browser reaches. */
  ghost predicate Reachable(b: Browser) {
    exists rows, status, sort, events :: Play(Opened(rows, status, sort), events) == Some(b)
  }

  lemma ReachableIsSound(b: Browser)
    requires Reachable(b)
    ensures Inv(b)
  {
    hide Inv;
    var rows, status, sort, events :| Play(Opened(rows, status, sort), events) == Some(b);
    OpenedIsSound(rows, status, sort);
    RunKeeps(Opened(rows, status, sort), events);
  }

  /** The rows on screen always answer the scope they are labelled with, and a reload is pending
      exactly when the newest query has not come back. When none is and the newest did not fail, they
      answer the query inputs on screen. */
  lemma ListingAnswersItsLabel(b: Browser)
    requires Reachable(b)
    ensures b.list.listing.answers == b.list.loaded
    ensures !b.lanes.closed ==> (b.list.pending <==> L.Busy(b.lanes, L.QueryJob))
    ensures !b.lanes.closed && !b.list.pending && !QueryFailed(b.lanes) ==> b.list.listing.answers == b.list.CurrentScope()
  {
    ReachableIsSound(b);
  }

  /** The steps of a request that goes undisturbed from its start to the queue. */
  function Undisturbed(w: nat, outcome: L.Outcome): seq<Event> {
    [Worked(L.Compute(w, outcome)), Worked(L.Check(w)), Worked(L.Enqueue(w)), Next]
  }

  lemma {:induction false} PlayStep(b: Browser, e: Event, rest: seq<Event>)
    requires Enabled(b, e)
    ensures Play(b, [e] + rest) == Play(After(b, e), rest)
  {
    hide Enabled, After;
    assert ([e] + rest)[1..] == rest;
  }

  /** The last of the undisturbed steps. */
  lemma {:induction false} Arrives(b: Browser, w: nat, outcome: L.Outcome)
    requires b.lanes.queue == [L.Final(w, outcome)] && w < |b.lanes.workers| && b.lanes.Current(w)
    ensures Play(b, [Next]) == Some(b.RunNext()) && b.RunNext().lanes.closed == b.lanes.closed && b.RunNext().lanes.queue == []
    ensures b.RunNext() == b.Deliver(b.lanes.workers[w].request, outcome).(lanes := b.RunNext().lanes)
  {
    hide Play, Browser.Deliver;
    PlayStep(b, Next, []);
    PlayNothing(b.RunNext());
    assert [Next] + [] == [Next];
    var taken := b.(lanes := b.lanes.Take());
    DeliversSame(taken, b, b.lanes.workers[w].request, outcome);
    DeliversSameLanes(taken, b.lanes.workers[w].request, outcome);
  }

  lemma {:induction false} PlayNothing(b: Browser)
    ensures Play(b, []) == Some(b)
  {
  }

  lemma DeliversSameLanes(b: Browser, request: L.Request, outcome: L.Outcome)
    ensures b.Deliver(request, outcome).lanes == b.lanes
  {
  }

  /** A result that nothing disturbs is delivered, and changes the lanes in no other way. */
  lemma {:induction false} UndisturbedArrives(b: Browser, w: nat, outcome: L.Outcome)
    requires b.lanes.queue == [] && w < |b.lanes.workers| && b.lanes.Current(w) && b.lanes.workers[w].phase == L.Working
    requires Suits(b.lanes.workers[w].request, outcome)
    ensures
      var end := Play(b, Undisturbed(w, outcome));
      end.Some? && end.value.lanes.closed == b.lanes.closed && end.value.lanes.queue == []
      && end.value == b.Deliver(b.lanes.workers[w].request, outcome).(lanes := end.value.lanes)
  {
    hide Suits, Play, Browser.Deliver, Browser.RunNext;
    var computed := b.(lanes := b.lanes.Act(L.Compute(w, outcome)));
    var posting := computed.(lanes := computed.lanes.Act(L.Check(w)));
    var queued := posting.(lanes := posting.lanes.Act(L.Enqueue(w)));
    PlayStep(b, Worked(L.Compute(w, outcome)), [Worked(L.Check(w)), Worked(L.Enqueue(w)), Next]);
    PlayStep(computed, Worked(L.Check(w)), [Worked(L.Enqueue(w)), Next]);
    PlayStep(posting, Worked(L.Enqueue(w)), [Next]);
    Arrives(queued, w, outcome);
    DeliversSame(queued, b, b.lanes.workers[w].request, outcome);
    assert Undisturbed(w, outcome) == [Worked(L.Compute(w, outcome))] + [Worked(L.Check(w)), Worked(L.Enqueue(w)), Next];
    assert [Worked(L.Check(w)), Worked(L.Enqueue(w)), Next] == [Worked(L.Check(w))] + [Worked(L.Enqueue(w)), Next];
    assert [Worked(L.Enqueue(w)), Next] == [Worked(L.Enqueue(w))] + [Next];
  }

  lemma DeliversSame(a: Browser, b: Browser, request: L.Request, outcome: L.Outcome)
    requires a == b.(lanes := a.lanes)
    ensures a.Deliver(request, outcome) == b.Deliver(request, outcome).(lanes := a.lanes)
  {
  }

  /** When the result of the newest list request runs, whatever came between, the reload is over, and
      the rows answer the inputs on screen exactly when it brought a listing or the rows shown so far
      already answered them. */
  lemma ReloadAnswersIff(b: Browser)
    requires Inv(b) && b.lanes.queue != [] && b.lanes.queue[0].worker < |b.lanes.workers|
    requires b.lanes.queue[0].Final? && b.lanes.Current(b.lanes.queue[0].worker)
    requires b.lanes.workers[b.lanes.queue[0].worker].request.Query?
    ensures
      var end := b.RunNext();
      && !end.lanes.closed && !end.list.pending
      && (end.list.listing.answers == end.list.CurrentScope()
          <==> b.lanes.queue[0].outcome.Listed? || b.list.loaded == b.list.CurrentScope())
  {
    hide MadeFor, LanesSound, AllTruthful, Stacked, TopLoads, AsksFor, L.Busy, QueryFailed;
    FinalTake(b);
  }

  /** So for every change of the inputs: a reload that goes undisturbed leaves rows that answer the
      inputs exactly when it succeeds or the inputs are those of the rows. */
  lemma RequeryAnswersIff(b: Browser, inputs: ListState, outcome: L.Outcome)
    requires Inv(b) && !b.lanes.closed && b.lanes.queue == []
    requires inputs.listing == b.list.listing && inputs.loaded == b.list.loaded
    requires Suits(L.Query(inputs.CurrentScope()), outcome)
    ensures
      var end := Play(b.(list := inputs).Requery(), Undisturbed(|b.lanes.workers|, outcome));
      && end.Some? && !end.value.lanes.closed && !end.value.list.pending
      && end.value.list.CurrentScope() == inputs.CurrentScope()
      && (end.value.list.listing.answers == inputs.CurrentScope()
          <==> outcome.Listed? || b.list.loaded == inputs.CurrentScope())
  {
    hide LanesSound, AllTruthful, Stacked, TopLoads, AsksFor, L.Busy, QueryFailed, Play, Undisturbed;
    UndisturbedArrives(b.(list := inputs).Requery(), |b.lanes.workers|, outcome);
  }

  /** A letter is typed and the query for it fails: nothing is pending and the list shows the rows it
      had, which answer the new filter only if they did so before. */
  lemma {:induction false} FailedReloadKeepsOldRows(b: Browser, c: char, reason: string)
    requires Inv(b) && b.InList() && !b.prompting && !b.lanes.closed && b.list.searchMode == Off && b.lanes.queue == []
    requires c != ' ' && c != '/' && (b.list.filterText == [] ==> c != 'l' && c != 'n')
    ensures
      var end := Play(b, [Pressed(Character(c, true))] + Undisturbed(|b.lanes.workers|, L.Raised(reason)));
      && end.Some? && !end.value.lanes.closed && !end.value.list.pending
      && end.value.list.listing == b.list.listing && end.value.list.filterText == b.list.filterText + [c]
      && end.value.list.CurrentScope() == Scope(b.list.status, b.list.sort, Strip(b.list.filterText + [c]))
      && (end.value.list.listing.answers == end.value.list.CurrentScope() <==> b.list.loaded == end.value.list.CurrentScope())
  {
    hide Inv, Play, Undisturbed;
    var w, inputs := |b.lanes.workers|, b.list.(focus := None).EditFilter(b.list.filterText + [c]);
    assert b.Press(Character(c, true)) == b.(list := inputs).Requery();
    RequeryAnswersIff(b, inputs, L.Raised(reason));
    UndisturbedArrives(b.(list := inputs).Requery(), w, L.Raised(reason));
    PlayStep(b, Pressed(Character(c, true)), Undisturbed(w, L.Raised(reason)));
  }

  /** A run that ends with nothing pending and rows for other inputs than those on screen: `x` is
      typed in a fresh browser, and the query for it fails. */
  lemma RowsCanAnswerOtherInputs(rows: seq<Row>, status: Status, sort: Sort, reason: string)
    ensures
      var end := Play(Opened(rows, status, sort), [Pressed(Character('x', true))] + Undisturbed(0, L.Raised(reason)));
      && end.Some? && Reachable(end.value) && !end.value.lanes.closed && !end.value.list.pending
      && end.value.list.listing == Listing(Scope(status, sort, ""), rows)
      && end.value.list.CurrentScope() == Scope(status, sort, "x")
      && end.value.list.listing.answers != end.value.list.CurrentScope()
  {
    hide Inv, Play, Undisturbed;
    var b := Opened(rows, status, sort);
    OpenedIsSound(rows, status, sort);
    FailedReloadKeepsOldRows(b, 'x', reason);
    assert [] + ['x'] == "x" && Strip("x") == "x";
  }

  /** A view on top that shows neither contents nor an error has its request on the way. */
  lemma LoadingIsNeverOrphaned(b: Browser)
    requires Reachable(b) && b.HasTop() && !b.lanes.closed
    ensures
      var view := b.stack[|b.stack| - 1];
      match b.Top()
      case Detail(_, _, _, window, error, _) => window.Some? || error.Some? || L.Busy(b.lanes, L.TranscriptJob(view))
      case Lineage(_, nodes, _, failure) => nodes.Some? || failure.Some? || L.Busy(b.lanes, L.LineageJob(view))
  {
    ReachableIsSound(b);
  }

  /** No view ever shows another chat's transcript. */
  lemma TranscriptIsOfItsChat(b: Browser, view: nat)
    requires Reachable(b) && view < |b.views| && b.views[view].Detail? && b.views[view].window.Some?
    ensures b.views[view].window.value.source == b.views[view].chatId
  {
    ReachableIsSound(b);
    assert Truthful(b.views[view]);
  }
}
