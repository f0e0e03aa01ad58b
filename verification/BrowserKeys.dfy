/** What runs of keys do to the browser, told by its fields alone: where the cursor lands, which chat a key then opens,
    what is asked for and what is stopped. */
module BrowserKeys {
  import opened Options
  import opened PyText
  import opened BrowserViews
  import opened BrowserState
  import opened BrowserInvariants
  import L = Lanes

  const SPACE := Pressed(Character(' ', true))

  function Moves(deltas: seq<int>): seq<Event> {
    seq(|deltas|, i requires 0 <= i < |deltas| => Pressed(Move(deltas[i])))
  }

  // ----- Runs

  lemma {:induction false} PlayJoin(b: Browser, first: seq<Event>, second: seq<Event>)
    requires Play(b, first).Some?
    ensures Play(b, first + second) == Play(Play(b, first).value, second)
    decreases |first|
  {
    hide Enabled, After;
    if first == [] {
      assert first + second == second;
    } else {
      PlayJoin(After(b, first[0]), first[1..], second);
      assert (first + second)[1..] == first[1..] + second;
    }
  }

  lemma {:induction false} PlayOne(b: Browser, key: Key)
    requires !b.lanes.closed
    ensures Play(b, [Pressed(key)]) == Some(b.Press(key))
  {
    hide Browser.Press;
    PlayStep(b, Pressed(key), []);
    PlayNothing(b.Press(key));
    assert [Pressed(key)] + [] == [Pressed(key)];
  }

  lemma {:induction false} PlayThenKey(b: Browser, first: seq<Event>, key: Key)
    requires Play(b, first).Some? && !Play(b, first).value.lanes.closed
    ensures Play(b, first + [Pressed(key)]) == Some(Play(b, first).value.Press(key))
  {
    hide Browser.Press, Play;
    PlayJoin(b, first, [Pressed(key)]);
    PlayOne(Play(b, first).value, key);
  }

  // ----- Requests

  ghost predicate IsNew(s: L.State, w: nat, request: L.Request) {
    w < |s.workers| && s.workers[w].request == request && s.workers[w].phase == L.Working && s.Current(w)
  }

  /** The requests are made in this order and are current, what was asked for on the stopped lanes is stale, and nothing
      else about the lanes has changed. */
  ghost predicate Asks(before: L.State, after: L.State, requests: seq<L.Request>, stopped: set<L.Lane>) {
    && |after.workers| == |before.workers| + |requests| && after.workers[..|before.workers|] == before.workers
    && after.queue == before.queue && after.log == before.log && after.closed == before.closed
    && (forall i :: 0 <= i < |requests| ==> IsNew(after, |before.workers| + i, requests[i]))
    && (forall w: nat :: w < |before.workers| ==>
          (after.Current(w) <==> before.Current(w) && L.LaneOf(before.workers[w].request) !in stopped))
  }

  lemma RunAsksOne(s: L.State, request: L.Request)
    requires L.Sound(s) && !s.closed
    ensures Asks(s, s.Run(request), [request], {L.LaneOf(request)})
  {
  }

  lemma CancelStops(s: L.State, lane: L.Lane)
    requires L.Sound(s)
    ensures Asks(s, s.Cancel(lane), [], {lane})
  {
  }

  lemma AsksThen(s: L.State, t: L.State, u: L.State, first: seq<L.Request>, stopped: set<L.Lane>,
                 second: seq<L.Request>, more: set<L.Lane>)
    requires Asks(s, t, first, stopped) && Asks(t, u, second, more)
    requires forall i :: 0 <= i < |first| ==> L.LaneOf(first[i]) !in more
    ensures Asks(s, u, first + second, stopped + more)
  {
    var n, k := |s.workers|, |first|;
    assert u.workers[..n] == u.workers[..|t.workers|][..n];
    forall i | 0 <= i < |first + second| ensures IsNew(u, n + i, (first + second)[i]) {
      if i < k {
        assert IsNew(t, n + i, first[i]);
        assert u.workers[n + i] == u.workers[..|t.workers|][n + i];
      } else {
        assert IsNew(u, |t.workers| + (i - k), second[i - k]);
      }
    }
    forall w: nat | w < n ensures t.workers[w] == s.workers[w] {
      assert t.workers[w] == t.workers[..n][w];
    }
  }

  // ----- The cursor of the list

  /** The place within `n` rows that is nearest to `at`. */
  function Within(at: int, n: nat): nat {
    if at < 0 || n == 0 then 0 else if at < n then at else n - 1
  }

  /** Where steps end that are each held within `n` rows. */
  function Landed(at: int, deltas: seq<int>, n: nat): int
    decreases |deltas|
  {
    if deltas == [] then at else Landed(Within(at + deltas[0], n), deltas[1..], n)
  }

  lemma {:induction false} LandedOne(at: int, delta: int, n: nat)
    ensures Landed(at, [delta], n) == Within(at + delta, n)
  {
    assert [delta][1..] == [];
    assert Landed(Within(at + delta, n), [], n) == Within(at + delta, n);
  }

  /** Steps that stay within the rows add up. */
  lemma {:induction false} LandedAddsUp(at: int, deltas: seq<int>, n: nat)
    requires forall k :: 0 <= k <= |deltas| ==> 0 <= at + Sum(deltas[..k]) < n
    ensures Landed(at, deltas, n) == at + Sum(deltas)
    decreases |deltas|
  {
    if deltas == [] {
    } else {
      SumFront(deltas);
      forall k | 0 <= k <= |deltas[1..]| ensures 0 <= at + deltas[0] + Sum(deltas[1..][..k]) < n {
        SumFront(deltas[..k + 1]);
        assert deltas[..k + 1][1..] == deltas[1..][..k];
        assert 0 <= at + Sum(deltas[..k + 1]) < n;
      }
      assert 0 <= at + deltas[0] + Sum(deltas[1..][..0]) < n;
      LandedAddsUp(at + deltas[0], deltas[1..], n);
    }
  }

  function Sum(deltas: seq<int>): int {
    if deltas == [] then 0 else Sum(deltas[..|deltas| - 1]) + deltas[|deltas| - 1]
  }

  lemma {:induction false} SumFront(deltas: seq<int>)
    requires deltas != []
    ensures Sum(deltas) == deltas[0] + Sum(deltas[1..])
  {
    var last := |deltas| - 1;
    if last == 0 {
      assert deltas[..0] == [] && deltas[1..] == [];
    } else {
      SumFront(deltas[..last]);
      assert deltas[..last][1..] == deltas[1..][..last - 1];
    }
  }

  /** `shown` are the rows from `from` on whose chats are in `ids`, in their order; `spots` is where they stand. */
  ghost predicate IsPick(rows: seq<Row>, ids: set<string>, from: nat, spots: seq<nat>, shown: seq<Row>) {
    && |spots| == |shown|
    && (forall i, j :: 0 <= i < j < |spots| ==> spots[i] < spots[j])
    && (forall i :: 0 <= i < |spots| ==> from <= spots[i] < |rows| && shown[i] == rows[spots[i]])
    && (forall k: nat :: from <= k < |rows| ==> (k in spots <==> rows[k].chatId in ids))
  }

  /** The rows on screen: all of them, or while search results are shown those of the matching chats. */
  ghost predicate IsShown(list: ListState, shown: seq<Row>) {
    if list.searchMode == Results then exists spots :: IsPick(list.listing.rows, list.matches, 0, spots, shown)
    else shown == list.listing.rows
  }

  lemma PickBefore(rows: seq<Row>, ids: set<string>, from: nat, spots: seq<nat>, shown: seq<Row>)
    requires from < |rows| && IsPick(rows, ids, from + 1, spots, shown)
    ensures if rows[from].chatId in ids then IsPick(rows, ids, from, [from] + spots, [rows[from]] + shown)
            else IsPick(rows, ids, from, spots, shown)
  {
    if rows[from].chatId in ids {
      var more := [from] + spots;
      forall k: nat | from <= k < |rows| ensures k in more <==> rows[k].chatId in ids {
        assert k in spots ==> k in more;
        assert from in more;
      }
    }
  }

  lemma {:induction false} PickOf(rows: seq<Row>, ids: set<string>, from: nat) returns (spots: seq<nat>)
    requires from <= |rows|
    ensures IsPick(rows, ids, from, spots, RowsIn(rows[from..], ids))
    decreases |rows| - from
  {
    hide IsPick;
    if from == |rows| {
      NoPick(rows, ids);
      assert rows[from..] == [];
      return [];
    }
    spots := PickOf(rows, ids, from + 1);
    var rest := RowsIn(rows[from + 1..], ids);
    PickBefore(rows, ids, from, spots, rest);
    assert rows[from..][1..] == rows[from + 1..];
    if rows[from].chatId in ids {
      spots := [from] + spots;
      assert RowsIn(rows[from..], ids) == [rows[from]] + rest;
    } else {
      assert RowsIn(rows[from..], ids) == [] + rest == rest;
    }
  }

  lemma NoPick(rows: seq<Row>, ids: set<string>)
    ensures IsPick(rows, ids, |rows|, [], [])
  {
  }

  lemma ShownAre(list: ListState)
    ensures IsShown(list, list.VisibleRows())
  {
    hide RowsIn, IsPick;
    var spots := PickOf(list.listing.rows, list.matches, 0);
    assert list.listing.rows[0..] == list.listing.rows;
  }

  /** The row a key acts on when the cursor is at `at`: none while the rows are those of other query inputs, or there are
      none. */
  ghost predicate IsUnder(list: ListState, at: int, row: Option<Row>) {
    var rows := list.VisibleRows();
    if rows == [] || (list.pending && list.loaded != Scope(list.status, list.sort, Strip(list.filterText))) then row == None
    else row == Some(rows[Within(at, |rows|)])
  }

  /** The list in front, open, and not prompting. */
  ghost predicate OnList(b: Browser) {
    b.stack == [] && !b.prompting && !b.lanes.closed && L.Sound(b.lanes) && b.list.highlight >= 0
  }

  /** The browser after the cursor has moved: nothing but the cursor and the message has changed. */
  ghost function Moved(b: Browser, deltas: seq<int>): Browser {
    b.(list := b.list.(highlight := Landed(b.list.highlight, deltas, |b.list.VisibleRows()|),
                       message := if deltas == [] then b.list.message else None))
  }

  lemma MoveIs(b: Browser, delta: int)
    requires OnList(b)
    ensures b.Press(Move(delta)) == Moved(b, [delta])
  {
    hide L.Sound, RowsIn;
    var n := |b.list.VisibleRows()|;
    LandedOne(b.list.highlight, delta, n);
    SameRowsAt(b.list, b.list.(highlight := b.list.highlight + delta));
  }

  lemma {:induction false} MovesLand(b: Browser, deltas: seq<int>)
    requires OnList(b)
    ensures Play(b, Moves(deltas)) == Some(Moved(b, deltas)) && OnList(Moved(b, deltas))
    decreases |deltas|
  {
    hide L.Sound, Play, Browser.Press, RowsIn;
    if deltas == [] {
      PlayNothing(b);
      assert Moves(deltas) == [];
    } else {
      MoveIs(b, deltas[0]);
      var moved := Moved(b, [deltas[0]]);
      LandedOne(b.list.highlight, deltas[0], |b.list.VisibleRows()|);
      PlayStep(b, Pressed(Move(deltas[0])), Moves(deltas[1..]));
      assert Moves(deltas) == [Pressed(Move(deltas[0]))] + Moves(deltas[1..]);
      SameRowsAt(b.list, moved.list);
      MovesLand(moved, deltas[1..]);
    }
  }

  lemma SameRowsAt(list: ListState, other: ListState)
    requires other == list.(highlight := other.highlight, message := other.message)
    ensures other.VisibleRows() == list.VisibleRows()
  {
  }

  /** What is under the cursor is what the keys act on. */
  lemma UnderIsFocus(b: Browser, row: Option<Row>)
    requires OnList(b) && IsUnder(b.list, b.list.highlight, row)
    ensures b.Focus() == match row case None => None case Some(r) => Some((r.chatId, row))
  {
    hide L.Sound, RowsIn;
  }

  lemma {:induction false} UnderAfterMoves(b: Browser, deltas: seq<int>, row: Option<Row>)
    requires OnList(b) && IsUnder(b.list, Landed(b.list.highlight, deltas, |b.list.VisibleRows()|), row)
    ensures OnList(Moved(b, deltas)) && IsUnder(Moved(b, deltas).list, Moved(b, deltas).list.highlight, row)
  {
    hide L.Sound, RowsIn;
    MovesLand(b, deltas);
    SameRowsAt(b.list, Moved(b, deltas).list);
  }

  // ----- What a key opens

  /** The detail of a chat comes on top: with the window kept for this chat and generation, or else with a request for
      it, and with a request for its model. */
  ghost predicate ShowsDetail(before: Browser, after: Browser, chatId: string, row: Option<Row>) {
    var view := |before.views|;
    var generation := if row.Some? then row.value.generation else [];
    var kept := before.snapshot.Some? && before.snapshot.value.chatId == chatId && before.snapshot.value.generation == generation;
    var shown := Detail(chatId, row, if row.Some? then row.value.model else [],
                        if kept then Some(before.snapshot.value.window) else None, None, None);
    && after == before.(views := before.views + [shown], stack := before.stack + [view], lanes := after.lanes)
    && if kept then Asks(before.lanes, after.lanes, [L.RefreshModel(view, chatId)], {L.ModelLane})
       else Asks(before.lanes, after.lanes, [L.LoadTranscript(view, chatId, generation), L.RefreshModel(view, chatId)],
                 {L.TranscriptLane, L.ModelLane})
  }

  /** The lineage of a chat comes on top, with a request for it. */
  ghost predicate ShowsLineage(before: Browser, after: Browser, chatId: string) {
    var view := |before.views|;
    && after == before.(views := before.views + [Lineage(chatId, None, 0, None)], stack := before.stack + [view], lanes := after.lanes)
    && Asks(before.lanes, after.lanes, [L.LoadLineage(view)], {L.LineageLane})
  }

  lemma OpenShowsDetail(b: Browser, chatId: string, row: Option<Row>)
    requires L.Sound(b.lanes) && !b.lanes.closed
    ensures ShowsDetail(b, b.OpenDetail(chatId, row), chatId, row)
  {
    hide L.Sound, Asks, L.State.Run, L.State.Cancel;
    var view := |b.views|;
    var generation := if row.Some? then row.value.generation else [];
    var load, refresh := L.LoadTranscript(view, chatId, generation), L.RefreshModel(view, chatId);
    RunAsksOne(b.lanes, refresh);
    RunAsksOne(b.lanes, load);
    L.RunIsSound(b.lanes, load);
    StaysOpen(b.lanes, load);
    RunAsksOne(b.lanes.Run(load), refresh);
    AsksThen(b.lanes, b.lanes.Run(load), b.lanes.Run(load).Run(refresh), [load], {L.TranscriptLane}, [refresh], {L.ModelLane});
    assert [load] + [refresh] == [load, refresh] && {L.TranscriptLane} + {L.ModelLane} == {L.TranscriptLane, L.ModelLane};
    var detail := Detail(chatId, row, if row.Some? then row.value.model else [], None, None, None);
    var pushed := b.(views := b.views + [detail], stack := b.stack + [view]);
    assert b.OpenDetail(chatId, row) == pushed.LoadDetail(view);
    OpenedViews(b.views, detail);
    if b.snapshot.Some? && b.snapshot.value.chatId == chatId && b.snapshot.value.generation == generation {
      assert pushed.views[view := detail.(window := Some(b.snapshot.value.window))] == b.views + [detail.(window := Some(b.snapshot.value.window))];
    } else {
      assert pushed.views[view := detail.(error := None)] == b.views + [detail];
      assert b.OpenDetail(chatId, row) == pushed.(lanes := b.lanes.Run(load).Run(refresh));
    }
  }

  lemma StaysOpen(s: L.State, request: L.Request)
    ensures s.Run(request).closed == s.closed
  {
  }

  lemma OpenedViews(views: seq<View>, view: View)
    ensures forall v, w :: (views + [v])[|views| := w] == views + [w]
  {
  }

  lemma OpenShowsLineage(b: Browser, chatId: string)
    requires L.Sound(b.lanes) && !b.lanes.closed
    ensures ShowsLineage(b, b.OpenLineage(chatId), chatId)
  {
    hide L.Sound, Asks, L.State.Run;
    RunAsksOne(b.lanes, L.LoadLineage(|b.views|));
  }

  /** Steps through the list, then Space: the detail of the row the steps land on comes on top, and nothing happens
      where there is none. */
  lemma {:induction false} StepsThenSpace(b: Browser, deltas: seq<int>, row: Option<Row>)
    requires OnList(b) && (b.list.searchMode == Off || b.list.searchMode == Results)
    requires IsUnder(b.list, Landed(b.list.highlight, deltas, |b.list.VisibleRows()|), row)
    ensures
      match Play(b, Moves(deltas) + [SPACE])
      case None => false
      case Some(after) =>
        if row.Some? then ShowsDetail(Moved(b, deltas), after, row.value.chatId, row) else after == Moved(b, deltas)
  {
    hide L.Sound, Play, RowsIn, Browser.OpenDetail, IsUnder, Moves, ShowsDetail;
    var moved := Moved(b, deltas);
    MovesLand(b, deltas);
    PlayThenKey(b, Moves(deltas), Character(' ', true));
    UnderAfterMoves(b, deltas, row);
    UnderIsFocus(moved, row);
    if row.Some? {
      OpenShowsDetail(moved, row.value.chatId, row);
    }
  }

  /** Steps, then `l` while nothing is typed, or Ctrl-L: the lineage of the row's chat. */
  lemma {:induction false} StepsThenLineage(b: Browser, deltas: seq<int>, row: Option<Row>, key: Key)
    requires OnList(b)
    requires key == CtrlL || (key == Character('l', true) && b.list.filterText == [] && b.list.searchMode in {Off, Results})
    requires IsUnder(b.list, Landed(b.list.highlight, deltas, |b.list.VisibleRows()|), row)
    ensures
      match Play(b, Moves(deltas) + [Pressed(key)])
      case None => false
      case Some(after) =>
        if row.Some? then ShowsLineage(Moved(b, deltas), after, row.value.chatId) else after == Moved(b, deltas)
  {
    hide L.Sound, Play, RowsIn, Browser.OpenLineage, IsUnder, Moves, ShowsLineage;
    var moved := Moved(b, deltas);
    MovesLand(b, deltas);
    PlayThenKey(b, Moves(deltas), key);
    UnderAfterMoves(b, deltas, row);
    UnderIsFocus(moved, row);
    if row.Some? {
      OpenShowsLineage(moved, row.value.chatId);
    }
  }

  /** Steps, then `n` while nothing is typed, or Ctrl-N: the prompt for a fresh session, or why there is none. */
  lemma {:induction false} StepsThenStart(b: Browser, deltas: seq<int>, row: Option<Row>, key: Key)
    requires OnList(b)
    requires key == CtrlN || (key == Character('n', true) && b.list.filterText == [] && b.list.searchMode in {Off, Results})
    requires IsUnder(b.list, Landed(b.list.highlight, deltas, |b.list.VisibleRows()|), row)
    ensures
      var moved := Moved(b, deltas);
      Play(b, Moves(deltas) + [Pressed(key)])
      == Some(if row == None then moved
              else if row.value.blocked == None then moved.(prompting := true)
              else moved.(list := moved.list.(message := Some(row.value.chatId + ": " + row.value.blocked.value))))
  {
    hide L.Sound, Play, RowsIn, IsUnder, Moves;
    MovesLand(b, deltas);
    PlayThenKey(b, Moves(deltas), key);
    UnderAfterMoves(b, deltas, row);
    UnderIsFocus(Moved(b, deltas), row);
  }

  /** Steps, then Enter with no control in focus: the browser is left for the row's chat, or says why it cannot be
      entered again. */
  lemma {:induction false} StepsThenEnter(b: Browser, deltas: seq<int>, row: Option<Row>, blocked: Option<string>)
    requires OnList(b) && b.list.searchMode != Input && b.list.focus == None
    requires IsUnder(b.list, Landed(b.list.highlight, deltas, |b.list.VisibleRows()|), row)
    ensures
      var moved := Moved(b, deltas);
      Play(b, Moves(deltas) + [Pressed(Enter(blocked))])
      == Some(if row == None then moved
              else if blocked == None then moved.(lanes := moved.lanes.(closed := true))
              else moved.(list := moved.list.(message := Some(row.value.chatId + ": " + blocked.value))))
  {
    hide L.Sound, Play, RowsIn, IsUnder, Moves;
    MovesLand(b, deltas);
    PlayThenKey(b, Moves(deltas), Enter(blocked));
    UnderAfterMoves(b, deltas, row);
    UnderIsFocus(Moved(b, deltas), row);
  }
}
