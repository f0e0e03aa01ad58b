/** Named background lanes: the latest request of a lane wins, and results re-enter through the
    UI's first-in first-out queue. A worker checks that it is current before it posts, and the
    posted closure checks again when the UI thread runs it. */
module Lanes {
  import opened Options
  import opened BrowserViews

  datatype Lane = ListLane | SearchLane | TranscriptLane | ModelLane | LineageLane

  /** What a worker was asked to do; `view` is the view its closures captured. */
  datatype Request =
    | Query(scope: Scope)
    | Search(ids: seq<string>)
    | LoadTranscript(view: nat, chatId: string, generation: string)
    | RefreshModel(view: nat, chatId: string)
    | LoadLineage(view: nat)

  function LaneOf(request: Request): Lane {
    match request
    case Query(_) => ListLane
    case Search(_) => SearchLane
    case LoadTranscript(_, _, _) => TranscriptLane
    case RefreshModel(_, _) => ModelLane
    case LoadLineage(_) => LineageLane
  }

  datatype Outcome =
    | Listed(listing: Listing)
    | Found(matches: set<string>, unavailable: nat)
    | Loaded(window: Window)
    | Refreshed(model: Option<string>)
    | Traced(nodes: seq<Node>)
    | Raised(reason: string)

  datatype Callback =
    | Progress(worker: nat, scanned: nat, unavailable: nat)
    | Final(worker: nat, outcome: Outcome)

  /** A worker computes, checks that it is current, and only then hands over its callback. */
  datatype Phase = Working | Computed(outcome: Outcome) | Posting(callback: Callback) | Finished

  datatype Worker = Worker(token: nat, request: Request, phase: Phase)

  /** `log` records the callbacks the UI thread ran, oldest first. */
  datatype State = State(tokens: map<Lane, nat>, closed: bool, workers: seq<Worker>, queue: seq<Callback>,
                         log: seq<Callback>)
  {
    function Token(lane: Lane): nat {
      if lane in tokens then tokens[lane] else 0
    }

    /** `current()`: the request is its lane's newest and the lanes are open. */
    predicate Current(w: nat)
      requires w < |workers|
    {
      Token(LaneOf(workers[w].request)) == workers[w].token && !closed
    }

    function Cancel(lane: Lane): State {
      this.(tokens := tokens[lane := Token(lane) + 1])
    }

    function Run(request: Request): State {
      var token := Token(LaneOf(request)) + 1;
      this.(tokens := tokens[LaneOf(request) := token], workers := workers + [Worker(token, request, Working)])
    }

    function Close(): State {
      this.(closed := true)
    }

    function WithPhase(w: nat, phase: Phase): State
      requires w < |workers|
    {
      this.(workers := workers[w := workers[w].(phase := phase)])
    }

    /** The UI thread takes the oldest callback and runs it if its worker is still current. */
    function Take(): State
      requires queue != [] && queue[0].worker < |workers|
    {
      this.(queue := queue[1..], log := if Current(queue[0].worker) then log + [queue[0]] else log)
    }

    /** A worker's own step. */
    function Act(step: Step): State
      requires CanAct(step)
    {
      match step
      case Compute(w, outcome) => WithPhase(w, Computed(outcome))
      case Report(w, scanned, unavailable) =>
        if Current(w) then WithPhase(w, Posting(Progress(w, scanned, unavailable))) else this
      case Check(w) =>
        WithPhase(w, if Current(w) then Posting(Final(w, workers[w].phase.outcome)) else Finished)
      case Enqueue(w) =>
        var callback := workers[w].phase.callback;
        WithPhase(w, if callback.Final? then Finished else Working).(queue := queue + [callback])
      case Discard(w) =>
        WithPhase(w, if workers[w].phase.callback.Final? then Finished else Working)
    }

    predicate CanAct(step: Step) {
      match step
      case Compute(w, _) => w < |workers| && workers[w].phase == Working
      case Report(w, _, _) => w < |workers| && workers[w].phase == Working && workers[w].request.Search?
      case Check(w) => w < |workers| && workers[w].phase.Computed?
      case Enqueue(w) => w < |workers| && workers[w].phase.Posting?
      case Discard(w) => w < |workers| && workers[w].phase.Posting? && closed
    }
  }

  /** The steps of a worker: its work returns or raises, it reports progress, it checks that it is
      current before handing over the result, and it hands over what it checked. Once the browser has
      closed there may be no queue to take it any more, and what is handed over is lost. */
  datatype Step =
    | Compute(worker: nat, outcome: Outcome)
    | Report(worker: nat, scanned: nat, unavailable: nat)
    | Check(worker: nat)
    | Enqueue(worker: nat)
    | Discard(worker: nat)

  const NONE: State := State(map[], false, [], [], [])

  // ----- What every step keeps

  /** Later requests of a lane carry larger tokens, and none is above the lane's own. */
  ghost predicate Ordered(s: State) {
    && (forall w :: 0 <= w < |s.workers| ==> 0 < s.workers[w].token <= s.Token(LaneOf(s.workers[w].request)))
    && (forall v, w :: 0 <= v < w < |s.workers| && LaneOf(s.workers[v].request) == LaneOf(s.workers[w].request)
          ==> s.workers[v].token < s.workers[w].token)
  }

  /** A worker hands over its own callbacks. */
  ghost predicate OwnCallbacks(workers: seq<Worker>) {
    forall w :: 0 <= w < |workers| && workers[w].phase.Posting? ==> workers[w].phase.callback.worker == w
  }

  /** A result comes after everything else its worker handed over. */
  ghost predicate FinalsLast(callbacks: seq<Callback>) {
    forall i, j :: 0 <= i < j < |callbacks| && callbacks[i].worker == callbacks[j].worker ==> callbacks[i].Progress?
  }

  /** A worker whose result was handed over has finished. */
  ghost predicate Delivered(workers: seq<Worker>, callbacks: seq<Callback>) {
    forall i :: 0 <= i < |callbacks| ==>
      && callbacks[i].worker < |workers|
      && (callbacks[i].Final? ==> workers[callbacks[i].worker].phase == Finished)
  }

  ghost predicate Sound(s: State) {
    && Ordered(s)
    && OwnCallbacks(s.workers)
    && FinalsLast(s.log + s.queue)
    && Delivered(s.workers, s.log + s.queue)
  }

  lemma RunIsSound(s: State, request: Request)
    requires Sound(s)
    ensures Sound(s.Run(request))
  {
  }

  lemma CancelIsSound(s: State, lane: Lane)
    requires Sound(s)
    ensures Sound(s.Cancel(lane))
  {
  }

  lemma ActIsSound(s: State, step: Step)
    requires Sound(s) && s.CanAct(step)
    ensures Sound(s.Act(step))
  {
    var t := s.Act(step);
    var w := step.worker;
    assert |t.workers| == |s.workers|;
    assert forall v :: 0 <= v < |s.workers| ==> t.workers[v].token == s.workers[v].token && t.workers[v].request == s.workers[v].request;
    if step.Enqueue? {
      var callback := s.workers[w].phase.callback;
      assert t.log + t.queue == (s.log + s.queue) + [callback];
      AppendKeepsFinalsLast(s.workers, s.log + s.queue, callback);
    }
  }

  lemma AppendKeepsFinalsLast(workers: seq<Worker>, callbacks: seq<Callback>, callback: Callback)
    requires FinalsLast(callbacks) && Delivered(workers, callbacks)
    requires callback.worker < |workers| && workers[callback.worker].phase != Finished
    ensures FinalsLast(callbacks + [callback])
  {
  }

  lemma TakeIsSound(s: State)
    requires Sound(s) && s.queue != [] && (s.log + s.queue)[|s.log|].worker < |s.workers|
    ensures s.queue[0].worker < |s.workers| && Sound(s.Take())
  {
    var all, k := s.log + s.queue, |s.log|;
    var t := s.Take();
    if s.Current(s.queue[0].worker) {
      assert t.log + t.queue == all;
    } else {
      assert t.log + t.queue == all[..k] + all[k + 1..];
      DroppingKeeps(s.workers, all, k);
    }
  }

  lemma DroppingKeeps(workers: seq<Worker>, callbacks: seq<Callback>, k: nat)
    requires k < |callbacks| && FinalsLast(callbacks) && Delivered(workers, callbacks)
    ensures FinalsLast(callbacks[..k] + callbacks[k + 1..]) && Delivered(workers, callbacks[..k] + callbacks[k + 1..])
  {
    var rest := callbacks[..k] + callbacks[k + 1..];
    assert forall i :: 0 <= i < |rest| ==> rest[i] == callbacks[if i < k then i else i + 1];
  }

  // ----- Which requests are still on their way

  /** The worker's result has neither run nor been dropped. */
  ghost predicate Unfinished(s: State, w: nat)
    requires w < |s.workers|
  {
    s.workers[w].phase != Finished || exists i :: 0 <= i < |s.queue| && s.queue[i].Final? && s.queue[i].worker == w
  }

  ghost predicate Live(s: State, w: nat) {
    w < |s.workers| && s.Current(w) && Unfinished(s, w)
  }

  /** A request with the view it was made for. */
  datatype Job = QueryJob | SearchJob | TranscriptJob(view: nat) | ModelJob(view: nat) | LineageJob(view: nat)

  function JobOf(request: Request): Job {
    match request
    case Query(_) => QueryJob
    case Search(_) => SearchJob
    case LoadTranscript(view, _, _) => TranscriptJob(view)
    case RefreshModel(view, _) => ModelJob(view)
    case LoadLineage(view) => LineageJob(view)
  }

  function JobLane(job: Job): Lane {
    match job
    case QueryJob => ListLane
    case SearchJob => SearchLane
    case TranscriptJob(_) => TranscriptLane
    case ModelJob(_) => ModelLane
    case LineageJob(_) => LineageLane
  }

  /** Some unfinished current request does the job. */
  ghost predicate Busy(s: State, job: Job) {
    exists w: nat :: Live(s, w) && JobOf(s.workers[w].request) == job
  }

  lemma NewestIsUnique(s: State, v: nat, w: nat)
    requires Ordered(s) && v < |s.workers| && w < |s.workers|
    requires s.Current(v) && s.Current(w) && LaneOf(s.workers[v].request) == LaneOf(s.workers[w].request)
    ensures v == w
  {
  }

  lemma RunMakesBusy(s: State, request: Request, job: Job)
    requires Sound(s) && !s.closed
    ensures Busy(s.Run(request), JobOf(request))
    ensures JobLane(job) != LaneOf(request) ==> (Busy(s.Run(request), job) <==> Busy(s, job))
  {
    var t, n := s.Run(request), |s.workers|;
    assert Live(t, n);
    forall w: nat | w < n && LaneOf(s.workers[w].request) != LaneOf(request)
      ensures Live(t, w) <==> Live(s, w)
    {
    }
    BusyCarries(s, t, job);
    BusyCarries(t, s, job);
  }

  /** A job is busy in `t` when the workers that did it in `s` are live there. */
  lemma BusyCarries(s: State, t: State, job: Job)
    ensures (forall w: nat :: Live(s, w) && JobOf(s.workers[w].request) == job
               ==> Live(t, w) && t.workers[w].request == s.workers[w].request)
            ==> Busy(s, job) ==> Busy(t, job)
  {
    if (forall w: nat :: Live(s, w) && JobOf(s.workers[w].request) == job
          ==> Live(t, w) && t.workers[w].request == s.workers[w].request) && Busy(s, job) {
      var w: nat :| Live(s, w) && JobOf(s.workers[w].request) == job;
      assert Live(t, w);
    }
  }

  lemma CancelKeepsOthers(s: State, lane: Lane, job: Job)
    ensures JobLane(job) != lane ==> (Busy(s.Cancel(lane), job) <==> Busy(s, job))
  {
    var t := s.Cancel(lane);
    if JobLane(job) != lane {
      forall w: nat | w < |s.workers| && LaneOf(s.workers[w].request) != lane
        ensures Live(t, w) <==> Live(s, w)
      {
      }
      BusyCarries(s, t, job);
      BusyCarries(t, s, job);
    }
  }

  lemma ActKeepsLive(s: State, step: Step, w: nat)
    requires Sound(s) && s.CanAct(step) && w < |s.workers|
    ensures Live(s.Act(step), w) <==> Live(s, w)
  {
    var t := s.Act(step);
    assert t.Current(w) <==> s.Current(w);
    if step.Enqueue? {
      var callback := s.workers[step.worker].phase.callback;
      assert t.queue[|s.queue|] == callback;
      assert forall i :: 0 <= i < |s.queue| ==> t.queue[i] == s.queue[i];
    }
  }

  lemma ActKeepsBusy(s: State, step: Step, job: Job)
    requires Sound(s) && s.CanAct(step)
    ensures Busy(s.Act(step), job) <==> Busy(s, job)
  {
    var t := s.Act(step);
    forall w: nat | w < |s.workers| ensures Live(t, w) <==> Live(s, w) {
      ActKeepsLive(s, step, w);
    }
    assert forall w :: 0 <= w < |s.workers| ==> t.workers[w].request == s.workers[w].request;
    BusyCarries(s, t, job);
    BusyCarries(t, s, job);
  }

  lemma TakeKeepsBusy(s: State, job: Job)
    requires Sound(s) && s.queue != [] && s.queue[0].worker < |s.workers|
    requires !s.Current(s.queue[0].worker) || s.queue[0].Progress?
    ensures Busy(s.Take(), job) <==> Busy(s, job)
  {
    var t, u := s.Take(), s.queue[0].worker;
    assert forall i :: 0 <= i < |t.queue| ==> t.queue[i] == s.queue[i + 1];
    forall w: nat | w < |s.workers| && s.Current(w) ensures Unfinished(t, w) <==> Unfinished(s, w) {
      if Unfinished(s, w) && s.workers[w].phase == Finished {
        var i :| 0 <= i < |s.queue| && s.queue[i].Final? && s.queue[i].worker == w;
        assert t.queue[i - 1] == s.queue[i];
      }
    }
    BusyCarries(s, t, job);
    BusyCarries(t, s, job);
  }

  /** Running a result ends its lane's one busy job and touches no other lane's. */
  lemma TakeEndsBusy(s: State, job: Job)
    requires Sound(s) && s.queue != [] && s.queue[0].worker < |s.workers|
    requires s.Current(s.queue[0].worker) && s.queue[0].Final?
    ensures
      var done := JobOf(s.workers[s.queue[0].worker].request);
      if JobLane(job) == JobLane(done) then !Busy(s.Take(), job) && (Busy(s, job) <==> job == done)
      else Busy(s.Take(), job) <==> Busy(s, job)
  {
    var t, u := s.Take(), s.queue[0].worker;
    var done := JobOf(s.workers[u].request);
    assert forall i :: 0 <= i < |t.queue| ==> t.queue[i] == s.queue[i + 1];
    assert Live(s, u);
    TakenIsFinished(s);
    if JobLane(job) != JobLane(done) {
      forall w: nat | w < |s.workers| && w != u && Live(s, w) ensures Live(t, w) {
        if s.workers[w].phase == Finished {
          var i :| 0 <= i < |s.queue| && s.queue[i].Final? && s.queue[i].worker == w;
          assert t.queue[i - 1] == s.queue[i];
        }
      }
      BusyCarries(s, t, job);
      BusyCarries(t, s, job);
    } else {
      forall w: nat | w < |s.workers| && s.Current(w) && JobLane(JobOf(s.workers[w].request)) == JobLane(done) ensures w == u {
        NewestIsUnique(s, w, u);
      }
    }
  }

  lemma TakenIsFinished(s: State)
    requires Sound(s) && s.queue != [] && s.queue[0].worker < |s.workers|
    requires s.queue[0].Final?
    ensures !Unfinished(s.Take(), s.queue[0].worker)
  {
    var all, k, t := s.log + s.queue, |s.log|, s.Take();
    assert all[k] == s.queue[0];
    forall i | 0 <= i < |t.queue| ensures t.queue[i].worker != s.queue[0].worker {
      assert all[k + 1 + i] == t.queue[i];
    }
  }

  // ----- Whole runs

  /** What the UI thread does to the lanes, and what a worker does. */
  datatype Move = Start(request: Request) | Stop(lane: Lane) | CloseAll | Work(step: Step) | TakeNext

  predicate Allowed(s: State, move: Move) {
    match move
    case Start(_) => true
    case Stop(_) => true
    case CloseAll => true
    case Work(step) => s.CanAct(step)
    case TakeNext => s.queue != [] && s.queue[0].worker < |s.workers|
  }

  function After(s: State, move: Move): State
    requires Allowed(s, move)
  {
    match move
    case Start(request) => s.Run(request)
    case Stop(lane) => s.Cancel(lane)
    case CloseAll => s.Close()
    case Work(step) => s.Act(step)
    case TakeNext => s.Take()
  }

  /** The state a run ends in, when each of its moves can be made. */
  function Play(s: State, moves: seq<Move>): Option<State>
    decreases |moves|
  {
    if moves == [] then Some(s)
    else if !Allowed(s, moves[0]) then None
    else Play(After(s, moves[0]), moves[1..])
  }

  lemma MoveIsSound(s: State, move: Move)
    requires Sound(s) && Allowed(s, move)
    ensures Sound(After(s, move))
  {
    match move
    case Start(request) => RunIsSound(s, request);
    case Stop(lane) => CancelIsSound(s, lane);
    case CloseAll =>
    case Work(step) => ActIsSound(s, step);
    case TakeNext => TakeIsSound(s);
  }

  lemma {:induction false} RunsAreSound(s: State, moves: seq<Move>)
    requires Sound(s) && Play(s, moves).Some?
    ensures Sound(Play(s, moves).value)
    decreases |moves|
  {
    if moves != [] {
      MoveIsSound(s, moves[0]);
      RunsAreSound(After(s, moves[0]), moves[1..]);
    }
  }

  /** A superseded, cancelled or closed request stays so, and nothing of it runs any more. */
  lemma StaleMove(s: State, move: Move, w: nat)
    requires Sound(s) && Allowed(s, move) && w < |s.workers| && !s.Current(w)
    ensures
      var t := After(s, move);
      && w < |t.workers| && !t.Current(w)
      && |s.log| <= |t.log| && t.log[..|s.log|] == s.log
      && (forall k :: |s.log| <= k < |t.log| ==> t.log[k].worker != w)
  {
  }

  lemma {:induction false} StaleNeverRuns(s: State, moves: seq<Move>, w: nat)
    requires Sound(s) && w < |s.workers| && !s.Current(w) && Play(s, moves).Some?
    ensures
      var t := Play(s, moves).value;
      && w < |t.workers| && !t.Current(w)
      && |s.log| <= |t.log| && t.log[..|s.log|] == s.log
      && (forall k :: |s.log| <= k < |t.log| ==> t.log[k].worker != w)
    decreases |moves|
  {
    if moves != [] {
      var m, t := After(s, moves[0]), Play(s, moves).value;
      MoveIsSound(s, moves[0]);
      StaleMove(s, moves[0], w);
      StaleNeverRuns(m, moves[1..], w);
      LaterLog(s.log, m.log, t.log, w);
    }
  }

  lemma LaterLog(early: seq<Callback>, middle: seq<Callback>, late: seq<Callback>, w: nat)
    requires |early| <= |middle| <= |late| && middle[..|early|] == early && late[..|middle|] == middle
    requires forall k :: |early| <= k < |middle| ==> middle[k].worker != w
    requires forall k :: |middle| <= k < |late| ==> late[k].worker != w
    ensures late[..|early|] == early && forall k :: |early| <= k < |late| ==> late[k].worker != w
  {
    assert forall k :: 0 <= k < |middle| ==> late[k] == late[..|middle|][k] == middle[k];
    assert forall k :: 0 <= k < |early| ==> middle[k] == middle[..|early|][k] == early[k];
  }

  /** In every run a request gets at most one result, and no progress after it. */
  lemma {:induction false} OneResultEach(moves: seq<Move>, i: nat, j: nat)
    requires Play(NONE, moves).Some?
    requires i < j < |Play(NONE, moves).value.log|
    requires Play(NONE, moves).value.log[i].worker == Play(NONE, moves).value.log[j].worker
    ensures Play(NONE, moves).value.log[i].Progress?
  {
    var t := Play(NONE, moves).value;
    RunsAreSound(NONE, moves);
    assert (t.log + t.queue)[i] == t.log[i] && (t.log + t.queue)[j] == t.log[j];
  }

  // ----- Nothing current is lost

  /** A current request that is no longer on its way has had its result run. */
  ghost predicate NothingLost(s: State) {
    forall w: nat :: w < |s.workers| && s.Current(w) && !Unfinished(s, w) ==> HasResult(s.log, w)
  }

  ghost predicate HasResult(log: seq<Callback>, w: nat) {
    exists i :: 0 <= i < |log| && log[i].Final? && log[i].worker == w
  }

  lemma MoveLosesNothing(s: State, move: Move)
    requires Sound(s) && NothingLost(s) && Allowed(s, move)
    ensures NothingLost(After(s, move))
  {
    var t := After(s, move);
    forall w: nat | w < |t.workers| && t.Current(w) && !Unfinished(t, w) ensures HasResult(t.log, w) {
      assert w < |s.workers| && s.Current(w);
      if move.Work? {
        ActKeepsLive(s, move.step, w);
      } else if move.TakeNext? && Unfinished(s, w) {
        TakeLosesNothing(s, w);
      } else if move.TakeNext? {
        assert HasResult(s.log, w);
        var i :| 0 <= i < |s.log| && s.log[i].Final? && s.log[i].worker == w;
        assert t.log[i] == s.log[i];
      }
    }
  }

  lemma TakeLosesNothing(s: State, w: nat)
    requires s.queue != [] && s.queue[0].worker < |s.workers| && w < |s.workers|
    requires s.Current(w) && Unfinished(s, w) && !Unfinished(s.Take(), w)
    ensures HasResult(s.Take().log, w)
  {
    var t := s.Take();
    var i :| 0 <= i < |s.queue| && s.queue[i].Final? && s.queue[i].worker == w;
    assert s.queue == [s.queue[0]] + t.queue;
    assert t.log[|s.log|] == s.queue[0];
  }

  lemma {:induction false} RunsLoseNothing(s: State, moves: seq<Move>)
    requires Sound(s) && NothingLost(s) && Play(s, moves).Some?
    ensures NothingLost(Play(s, moves).value)
    decreases |moves|
  {
    if moves != [] {
      MoveIsSound(s, moves[0]);
      MoveLosesNothing(s, moves[0]);
      RunsLoseNothing(After(s, moves[0]), moves[1..]);
    }
  }

  /** Once the workers are done and the queue is empty, every request that is still its lane's
      newest has had its result run. */
  lemma {:induction false} NewestAlwaysRuns(moves: seq<Move>, w: nat)
    requires Play(NONE, moves).Some?
    requires Play(NONE, moves).value.queue == [] && w < |Play(NONE, moves).value.workers|
    requires Play(NONE, moves).value.workers[w].phase == Finished && Play(NONE, moves).value.Current(w)
    ensures HasResult(Play(NONE, moves).value.log, w)
  {
    RunsLoseNothing(NONE, moves);
  }

  /** How far a worker is from having handed over its result. */
  function Rank(phase: Phase): nat {
    match phase
    case Posting(Progress(_, _, _)) => 4
    case Working => 3
    case Computed(_) => 2
    case Posting(Final(_, _)) => 1
    case Finished => 0
  }

  /** The move that brings a live request's result nearer. */
  function Nearer(s: State, w: nat): Move
    requires w < |s.workers|
  {
    match s.workers[w].phase
    case Working => Work(Compute(w, Raised("")))
    case Computed(_) => Work(Check(w))
    case Posting(_) => Work(Enqueue(w))
    case Finished => TakeNext
  }

  lemma NearerStep(s: State, w: nat)
    requires Sound(s) && Live(s, w)
    ensures
      var move := Nearer(s, w);
      && Allowed(s, move)
      && var t := After(s, move);
         && Sound(t) && w < |t.workers| && t.Current(w)
         && (Live(t, w) || HasResult(t.log, w))
         && Rank(t.workers[w].phase) <= Rank(s.workers[w].phase)
         && (Rank(t.workers[w].phase) == Rank(s.workers[w].phase) ==> |t.queue| < |s.queue|)
  {
    var move := Nearer(s, w);
    if s.workers[w].phase == Finished {
      assert (s.log + s.queue)[|s.log|] == s.queue[0];
      MoveIsSound(s, move);
      if !Unfinished(s.Take(), w) {
        TakeLosesNothing(s, w);
      }
    } else {
      MoveIsSound(s, move);
      ActKeepsLive(s, move.step, w);
    }
  }

  /** A live request can always still have its result run, by steps of its worker and of the queue
      alone: nothing the user does is needed. */
  lemma {:induction false} LiveCanArrive(s: State, w: nat) returns (moves: seq<Move>)
    requires Sound(s) && Live(s, w)
    ensures forall i :: 0 <= i < |moves| ==> moves[i].Work? || moves[i].TakeNext?
    ensures Play(s, moves).Some? && HasResult(Play(s, moves).value.log, w)
    decreases Rank(s.workers[w].phase), |s.queue|
  {
    NearerStep(s, w);
    var move := Nearer(s, w);
    var t := After(s, move);
    if HasResult(t.log, w) {
      moves := [move];
      assert Play(t, []) == Some(t);
    } else {
      var rest := LiveCanArrive(t, w);
      moves := [move] + rest;
      assert moves[1..] == rest;
    }
  }

  // ----- The object

  /** The lanes as the program keeps them: fields updated in place. */
  class Lanes {
    var tokens: map<Lane, nat>
    var closed: bool
    var workers: seq<Worker>
    var queue: seq<Callback>
    var log: seq<Callback>

    function Now(): State
      reads this
    {
      State(tokens, closed, workers, queue, log)
    }

    ghost predicate Valid()
      reads this
    {
      Sound(Now()) && NothingLost(Now())
    }

    constructor ()
      ensures Valid() && Now() == NONE
    {
      tokens, closed, workers, queue, log := map[], false, [], [], [];
    }

    method Run(request: Request)
      requires Valid()
      modifies this
      ensures Valid() && Now() == old(Now()).Run(request)
    {
      MoveIsSound(Now(), Start(request));
      MoveLosesNothing(Now(), Start(request));
      var lane := LaneOf(request);
      var token := if lane in tokens then tokens[lane] else 0;
      token := token + 1;
      tokens := tokens[lane := token];
      workers := workers + [Worker(token, request, Working)];
    }

    method Cancel(lane: Lane)
      requires Valid()
      modifies this
      ensures Valid() && Now() == old(Now()).Cancel(lane)
    {
      MoveIsSound(Now(), Stop(lane));
      MoveLosesNothing(Now(), Stop(lane));
      var token := if lane in tokens then tokens[lane] else 0;
      tokens := tokens[lane := token + 1];
    }

    method Close()
      requires Valid()
      modifies this
      ensures Valid() && Now() == old(Now()).Close()
    {
      closed := true;
    }

    /** A worker's step, at any moment its phase allows it. */
    method Act(step: Step)
      requires Valid() && Now().CanAct(step)
      modifies this
      ensures Valid() && Now() == old(Now()).Act(step)
    {
      MoveIsSound(Now(), Work(step));
      MoveLosesNothing(Now(), Work(step));
      var w := step.worker;
      var isCurrent := (if LaneOf(workers[w].request) in tokens then tokens[LaneOf(workers[w].request)] else 0)
                       == workers[w].token && !closed;
      match step {
        case Compute(_, outcome) =>
          workers := workers[w := workers[w].(phase := Computed(outcome))];
        case Report(_, scanned, unavailable) =>
          if isCurrent {
            workers := workers[w := workers[w].(phase := Posting(Progress(w, scanned, unavailable)))];
          }
        case Check(_) =>
          var outcome := workers[w].phase.outcome;
          workers := workers[w := workers[w].(phase := if isCurrent then Posting(Final(w, outcome)) else Finished)];
        case Enqueue(_) =>
          var callback := workers[w].phase.callback;
          workers := workers[w := workers[w].(phase := if callback.Final? then Finished else Working)];
          queue := queue + [callback];
        case Discard(_) =>
          workers := workers[w := workers[w].(phase := if workers[w].phase.callback.Final? then Finished else Working)];
      }
    }

    /** The UI thread takes the oldest callback; `runs` says whether it is still current. */
    method Take() returns (callback: Callback, runs: bool)
      requires Valid() && queue != []
      modifies this
      ensures old(queue)[0].worker < |old(workers)| && Valid() && Now() == old(Now()).Take()
      ensures callback == old(queue)[0] && runs == old(Now()).Current(callback.worker)
      ensures runs ==> workers[callback.worker].request == old(workers)[callback.worker].request
    {
      TakeIsSound(Now());
      MoveLosesNothing(Now(), TakeNext);
      callback := queue[0];
      var worker := workers[callback.worker];
      runs := (if LaneOf(worker.request) in tokens then tokens[LaneOf(worker.request)] else 0) == worker.token && !closed;
      queue := queue[1..];
      if runs {
        log := log + [callback];
      }
    }
  }
}
