/** The artifact operations as the program runs them, on a host whose state file and listeners they
    update. What the outside answers is given to each operation. */
module ArtifactService {
  import opened Options
  import opened ArtifactStore
  import opened ArtifactServes
  import Slugs

  /** A port drawn at random and whether it could be bound. */
  datatype Draw = Draw(port: int, bindable: bool)

  predicate IsFree(draw: Draw, occupied: set<int>) {
    draw.port !in occupied && draw.bindable
  }

  /** The port of the first draw that is free. */
  function FirstFree(draws: seq<Draw>, occupied: set<int>): (port: Option<int>)
    ensures port == None <==> forall i :: 0 <= i < |draws| ==> !IsFree(draws[i], occupied)
    ensures port.Some? ==> exists i :: 0 <= i < |draws| && draws[i].port == port.value && IsFree(draws[i], occupied)
  {
    if draws == [] then None
    else if IsFree(draws[0], occupied) then Some(draws[0].port)
    else FirstFree(draws[1..], occupied)
  }

  /** `pick_port`: the first draw that is free. */
  method PickPort(occupied: set<int>, draws: seq<Draw>) returns (port: Option<int>)
    requires forall i :: 0 <= i < |draws| ==> PORT_MIN <= draws[i].port <= PORT_MAX
    ensures port == FirstFree(draws, occupied)
    ensures port == None <==> forall i :: 0 <= i < |draws| ==> !IsFree(draws[i], occupied)
    ensures port.Some? ==> port.value !in occupied && PORT_MIN <= port.value <= PORT_MAX
    ensures
      port.Some? ==> exists i :: 0 <= i < |draws| && draws[i] == Draw(port.value, true) && IsFree(draws[i], occupied)
                                 && forall k :: 0 <= k < i ==> !IsFree(draws[k], occupied)
  {
    for i := 0 to |draws|
      invariant forall k :: 0 <= k < i ==> !IsFree(draws[k], occupied)
      invariant FirstFree(draws[i..], occupied) == FirstFree(draws, occupied)
    {
      assert draws[i..][0] == draws[i] && draws[i..][1..] == draws[i + 1..];
      if IsFree(draws[i], occupied) {
        assert draws[i] == Draw(draws[i].port, true);
        return Some(draws[i].port);
      }
    }
    return None;
  }

  /** One attempt to launch a server: the ports drawn for it, the process, its birth time if it could
      be read, and whether it accepted connections in time. */
  datatype Try = Try(draws: seq<Draw>, pid: int, born: Option<real>, ready: bool)

  predicate IsTry(t: Try) {
    && |t.draws| == 20 && (forall i :: 0 <= i < |t.draws| ==> PORT_MIN <= t.draws[i].port <= PORT_MAX)
    && t.pid > 0 && (t.born.Some? ==> t.born.value > 0.0)
  }

  /** What the calls after the launch answer. */
  datatype Answers = Answers(registers: bool, hasUrl: bool, saves: bool, turnsOff: bool, savesAgain: bool)

  datatype StartError =
    | SweepFailed
    | PortInUse
    | NoFreePort
    | BadSlug(error: Slugs.SlugError)
    | NotReady
    | NotRecorded(serve: Serve, fate: Fate)

  datatype Launched = Launched(slug: string, port: int, pid: int, born: real)

  predicate AreTries(tries: seq<Try>) {
    forall i :: 0 <= i < |tries| ==> IsTry(tries[i])
  }

  /** The port of a try: the one asked for, or the first one drawn that is free. */
  function PortFor(port: Option<int>, t: Try, occupied: set<int>): (picked: Option<int>)
    requires (port.Some? ==> 1 <= port.value <= 65535) && IsTry(t)
    ensures picked.Some? ==> 1 <= picked.value <= 65535
    ensures picked.Some? && port == None ==> picked.value !in occupied
  {
    if port.Some? then port else FirstFree(t.draws, occupied)
  }

  /** Which server the tries launch, or what stops them: the first try whose server is ready, unless a
      try before it finds no port or no slug. */
  function LaunchOf(lowered: string, port: Option<int>, slugs: set<string>, occupied: set<int>, tries: seq<Try>)
    : Result<Launched, StartError>
    requires (port.Some? ==> 1 <= port.value <= 65535) && AreTries(tries)
    decreases |tries|
  {
    if tries == [] then Err(NotReady)
    else
      var picked := PortFor(port, tries[0], occupied);
      if picked == None then Err(NoFreePort)
      else
        match Slugs.DerivedSlug(lowered, slugs, picked.value)
        case Err(error) => Err(BadSlug(error))
        case Ok(slug) =>
          if tries[0].born.Some? && tries[0].ready then Ok(Launched(slug, picked.value, tries[0].pid, tries[0].born.value))
          else LaunchOf(lowered, port, slugs, occupied + {picked.value}, tries[1..])
  }

  /** What `register` and what follows it come to. */
  function FateOf(answers: Answers): Fate {
    if !answers.registers then NotRegistered
    else if answers.hasUrl && answers.saves then Stored
    else if answers.turnsOff then CleanedUp
    else if answers.savesAgain then Recovered
    else Orphaned
  }

  function Serving(template: Serve, l: Launched): Serve {
    template.(slug := l.slug, localPort := l.port, pid := l.pid, born := Some(l.born))
  }

  predicate IsReady(t: Try) {
    t.born.Some? && t.ready
  }

  /** The ways a launch ends. A server is that of the first try that is ready, on the port asked for or one that was
      free, under the slug for that port; a port that a try could not use is not tried again; none is launched for want
      of a ready one only if no try is; ports run out only when they are drawn; and a name without a letter or digit is
      refused as soon as a port is found. */
  lemma {:induction false} LaunchEnds(lowered: string, port: Option<int>, slugs: set<string>, occupied: set<int>, tries: seq<Try>)
    requires (port.Some? ==> 1 <= port.value <= 65535) && AreTries(tries)
    ensures
      var r := LaunchOf(lowered, port, slugs, occupied, tries);
      && (r.Ok? ==> exists i :: 0 <= i < |tries| && IsReady(tries[i]) && r.value.pid == tries[i].pid
                                 && tries[i].born == Some(r.value.born) && forall k :: 0 <= k < i ==> !IsReady(tries[k]))
      && (r.Ok? ==> if port.Some? then r.value.port == port.value else r.value.port !in occupied)
      && (r.Ok? ==> r.value.port > 0 && Slugs.DerivedSlug(lowered, slugs, r.value.port) == Ok(r.value.slug))
      && (r.Ok? && port == None && !IsReady(tries[0]) ==> FirstFree(tries[0].draws, occupied) != Some(r.value.port))
      && (r == Err(NotReady) ==> forall i :: 0 <= i < |tries| ==> !IsReady(tries[i]))
      && (r == Err(NoFreePort) ==> port == None)
      && (r.Err? ==> r.error == NotReady || r.error == NoFreePort || r.error.BadSlug?)
      && (tries != [] ==>
            (r == Err(BadSlug(Slugs.NoLetterOrNumber))
             <==> PortFor(port, tries[0], occupied).Some? && !Slugs.HasSlugChar(lowered)))
    decreases |tries|
  {
    hide Slugs.DerivedSlug, Slugs.HasSlugChar, FirstFree;
    if tries != [] {
      var picked := PortFor(port, tries[0], occupied);
      if picked.Some? {
        Slugs.RefusedIffNameless(lowered, slugs, picked.value);
        var slug := Slugs.DerivedSlug(lowered, slugs, picked.value);
        if slug.Ok? && !IsReady(tries[0]) {
          LaunchEnds(lowered, port, slugs, occupied + {picked.value}, tries[1..]);
          assert forall i :: 0 < i < |tries| ==> tries[i] == tries[1..][i - 1];
          assert forall i :: 0 <= i < |tries| - 1 ==> tries[1..][i] == tries[i + 1];
        }
      }
    }
  }

  function SlugsOf(serves: seq<Serve>): set<string> {
    set s | s in serves :: s.slug
  }

  function PortsOf(serves: seq<Serve>): set<int> {
    set s | s in serves :: s.localPort
  }

  class ArtifactHost {
    var file: Option<seq<Item>>
    var listeners: set<Listener>

    function Now(): Host
      reads this
    {
      Host(file, listeners)
    }

    constructor ()
      ensures Recorded(Now())
    {
      file, listeners := None, {};
    }

    /** `_sweep_expired_locked`; `ok` is false when saving fails. */
    method SweepExpired(now: int, calls: Calls, saves: bool) returns (removed: seq<Serve>, failed: seq<string>, ok: bool)
      modifies this
      ensures Now() == Do(old(Now()), SweepOp(now, calls, saves)) && ok == saves
      ensures removed == RemovedOf(Load(old(file)), now, calls)
      ensures
        forall s :: s in removed <==>
          s in Load(old(file)) && s.ttl.Some? && s.created + s.ttl.value < now && s.slug in calls.off && s.slug in calls.killed
      ensures
        forall s :: s in Load(old(file)) && s.ttl == None ==>
          s in Load(file) && (Public(s) in old(listeners) ==> Public(s) in listeners)
      ensures FailuresOf(Load(old(file)), now, calls, failed)
      ensures Recorded(old(Now())) ==> Recorded(Now())
    {
      hide IsExpired, Load, RemovedOf, TurnedOff, FailuresOf, ExpiredOf, WithoutSlugs, Sweep, Saved, Public, Recorded;
      if Recorded(Now()) {
        SweepKeepsRecorded(Now(), now, calls, saves);
      }
      SweptByFields(Now(), now, calls, saves);
      var serves := LoadServes(file);
      var expired := ExpiredOf(serves, now);
      removed, failed := [], [];
      SweepNothing(listeners, now, calls);
      var i := 0;
      while i < |expired|
        invariant i <= |expired| && file == old(file)
        invariant removed == RemovedOf(expired[..i], now, calls)
        invariant listeners == old(listeners) - TurnedOff(expired[..i], now, calls)
        invariant FailuresOf(expired[..i], now, calls, failed)
      {
        var serve := expired[i];
        assert expired[..i + 1] == expired[..i] + [serve];
        ExpiredAre(serves, now, serve);
        SweepOne(expired[..i], serve, old(listeners), now, calls, failed);
        if serve.slug !in calls.off {
          failed := failed + [serve.slug];
        } else {
          listeners := listeners - {Public(serve)};
          if serve.slug !in calls.killed {
            failed := failed + [serve.slug];
          } else {
            removed := removed + [serve];
          }
        }
        i := i + 1;
      }
      assert expired[..i] == expired;
      SweepIs(old(Now()), now, calls, saves, failed);
      if saves {
        var removedSlugs := set s | s in removed :: s.slug;
        file := Saved(WithoutSlugs(serves, removedSlugs));
      }
      ok := saves;
    }

    /** The launch loop of `start_serve`. */
    method Launch(lowered: string, port: Option<int>, serves: seq<Serve>, busy: set<int>, tries: seq<Try>)
      returns (r: Result<Launched, StartError>)
      requires Distinct(serves) && PortsOf(serves) <= busy && AreTries(tries)
      requires port.Some? ==> 1 <= port.value <= 65535 && port.value !in busy && |tries| == 1
      ensures r == LaunchOf(lowered, port, SlugsOf(serves), busy, tries)
      ensures
        r.Ok? ==>
          var l := r.value;
          && Slugs.IsValidSlug(l.slug) && 1 <= l.port <= 65535 && l.port !in busy && l.pid > 0 && l.born > 0.0
          && l.slug !in SlugsOf(serves)
    {
      hide Distinct, Slugs.DerivedSlug, Slugs.IsValidSlug, Slugs.HasSlugChar, Slugs.Suffix, Slugs.Base, Slugs.Candidate;
      var occupied := busy;
      var slugs := SlugsOf(serves);
      for i := 0 to |tries|
        invariant busy <= occupied && (i == 0 ==> occupied == busy)
        invariant AreTries(tries[i..])
        invariant LaunchOf(lowered, port, slugs, occupied, tries[i..]) == LaunchOf(lowered, port, slugs, busy, tries)
      {
        assert tries[i..][0] == tries[i] && tries[i..][1..] == tries[i + 1..];
        var localPort;
        if port.Some? {
          localPort := port.value;
        } else {
          var picked := PickPort(occupied, tries[i].draws);
          if picked == None {
            return Err(NoFreePort);
          }
          localPort := picked.value;
        }
        var slug, _ := Slugs.DeriveSlug(lowered, slugs, localPort);
        occupied := occupied + {localPort};
        if slug.Err? {
          return Err(BadSlug(slug.error));
        }
        if tries[i].born.Some? && tries[i].ready {
          return Ok(Launched(slug.value, localPort, tries[i].pid, tries[i].born.value));
        }
      }
      return Err(NotReady);
    }

    /** `start_serve`: what it comes to is decided by the answers, in this order. */
    method StartServe(now: int, calls: Calls, sweepSaves: bool, lowered: string, port: Option<int>, portFree: bool,
                      tailnet: set<int>, tries: seq<Try>, template: Serve, answers: Answers)
      returns (r: Result<Serve, StartError>)
      requires port.Some? ==> 1 <= port.value <= 65535
      requires |tries| == (if port.Some? then 1 else 3) && AreTries(tries)
      requires template.ttl.Some? ==> template.ttl.value > 0
      modifies this
      ensures
        var h := Sweep(old(Now()), now, calls, sweepSaves);
        var serves := Load(h.file);
        var busy := PortsOf(serves) + tailnet;
        var launched := LaunchOf(lowered, port, SlugsOf(serves), busy, tries);
        if !sweepSaves then r == Err(SweepFailed) && Now() == h
        else if port.Some? && (port.value in busy || !portFree) then r == Err(PortInUse) && Now() == h
        else if launched.Err? then r == Err(launched.error) && Now() == h
        else
          var serve, fate := Serving(template, launched.value), FateOf(answers);
          var op := StartOp(now, calls, serve, fate);
          && CanDo(old(Now()), op) && Now() == Do(old(Now()), op)
          && r == if fate == Stored then Ok(serve) else Err(NotRecorded(serve, fate))
      ensures Recorded(old(Now())) ==> (Recorded(Now()) <==> !(r.Err? && r.error.NotRecorded? && r.error.fate == Orphaned))
    {
      hide IsServe, Sweep, Finish, Recorded, Load, LaunchOf, AreTries, FateOf, Slugs.IsValidSlug;
      ghost var start := Now();
      if Recorded(start) {
        SweepKeepsRecorded(start, now, calls, sweepSaves);
      }
      var _, _, swept := SweepExpired(now, calls, sweepSaves);
      if !swept {
        return Err(SweepFailed);
      }
      var serves := LoadServes(file);
      LoadIsDistinct(file);
      var busy := PortsOf(serves) + tailnet;
      if port.Some? && (port.value in busy || !portFree) {
        return Err(PortInUse);
      }
      var launched := Launch(lowered, port, serves, busy, tries);
      if launched.Err? {
        LaunchEnds(lowered, port, SlugsOf(serves), busy, tries);
        return Err(launched.error);
      }
      var serve := Serving(template, launched.value);
      LaunchedIsNew(serve, serves);
      var fate := Register(serve, serves, answers);
      if Recorded(start) {
        DoKeepsRecorded(start, StartOp(now, calls, serve, fate));
      }
      r := if fate == Stored then Ok(serve) else Err(NotRecorded(serve, fate));
    }

    /** The end of `start_serve`: register, record, and on failure undo or record after all. */
    method Register(serve: Serve, serves: seq<Serve>, answers: Answers) returns (fate: Fate)
      requires serves == Load(file)
      modifies this
      ensures fate == FateOf(answers) && Now() == Finish(old(Now()), serve, fate)
    {
      if !answers.registers {
        return NotRegistered;
      }
      listeners := listeners + {Public(serve)};
      if answers.hasUrl && answers.saves {
        file := Saved(serves + [serve]);
        return Stored;
      }
      if answers.turnsOff {
        listeners := listeners - {Public(serve)};
        return CleanedUp;
      }
      if answers.savesAgain {
        file := Saved(serves + [serve]);
        return Recovered;
      }
      return Orphaned;
    }

    /** `stop_serve`; `raised` when the listener could not be removed, the process not be ended or the
        file not be saved. */
    method StopServe(ref: string, off: bool, killed: bool, saves: bool) returns (stopped: bool, raised: bool)
      modifies this
      ensures Now() == Do(old(Now()), StopOp(ref, off, killed, saves))
      ensures stopped <==> Named(Load(old(file)), ref).Some? && off && killed && saves
      ensures raised <==> !saves || (Named(Load(old(file)), ref).Some? && !(off && killed))
      ensures Recorded(old(Now())) ==> Recorded(Now())
    {
      hide Load, Recorded, Named, WithoutSlug;
      if Recorded(Now()) {
        StopKeepsRecorded(Now(), ref, off, killed, saves);
      }
      var serves := LoadServes(file);
      var named := Named(serves, ref);
      if named == None {
        if saves {
          file := Saved(serves);
        }
        return false, !saves;
      }
      if !off {
        return false, true;
      }
      listeners := listeners - {Public(named.value)};
      if !killed || !saves {
        return false, true;
      }
      file := Saved(WithoutSlug(serves, named.value.slug));
      return true, false;
    }
  }

  /** What a sweep removes and what it leaves alone, in the serves' own fields. */
  lemma {:induction false} SweptByFields(h: Host, now: int, calls: Calls, saved: bool)
    ensures
      forall s :: s in RemovedOf(Load(h.file), now, calls) <==>
        s in Load(h.file) && s.ttl.Some? && s.created + s.ttl.value < now && s.slug in calls.off && s.slug in calls.killed
    ensures
      forall s :: s in Load(h.file) && s.ttl == None ==>
        && s in Load(Sweep(h, now, calls, saved).file)
        && (Public(s) in h.listeners ==> Public(s) in Sweep(h, now, calls, saved).listeners)
  {
    hide IsServe;
    var serves := Load(h.file);
    LoadIsDistinct(h.file);
    KeptIsDistinct(serves, now, calls);
    LoadAfterSave(KeptOf(serves, now, calls));
    forall s, t | s in serves && t in serves && s.slug == t.slug ensures s == t {
      SameSlugIsSame(serves, s, t);
    }
  }

  /** The sweep reports a slug as failed when its serve is expired and one of the calls failed. */
  predicate FailsFor(s: Serve, now: int, calls: Calls, slug: string) {
    s.slug == slug && IsExpired(s, now) && !(slug in calls.off && slug in calls.killed)
  }

  ghost predicate FailuresOf(serves: seq<Serve>, now: int, calls: Calls, failed: seq<string>) {
    forall slug :: slug in failed <==> exists s :: s in serves && FailsFor(s, now, calls, slug)
  }

  function ExpiredOf(serves: seq<Serve>, now: int): seq<Serve> {
    if serves == [] then []
    else (if IsExpired(serves[0], now) then [serves[0]] else []) + ExpiredOf(serves[1..], now)
  }

  function WithoutSlugs(serves: seq<Serve>, slugs: set<string>): seq<Serve> {
    if serves == [] then []
    else (if serves[0].slug in slugs then [] else [serves[0]]) + WithoutSlugs(serves[1..], slugs)
  }

  lemma {:induction false} ExpiredAre(serves: seq<Serve>, now: int, s: Serve)
    ensures s in ExpiredOf(serves, now) <==> s in serves && IsExpired(s, now)
  {
    if serves != [] {
      ExpiredAre(serves[1..], now, s);
    }
  }

  lemma {:induction false} SweepNothing(listeners: set<Listener>, now: int, calls: Calls)
    ensures RemovedOf([], now, calls) == [] && listeners - TurnedOff([], now, calls) == listeners
    ensures FailuresOf([], now, calls, [])
  {
  }

  /** One round of the sweep's loop. */
  lemma {:induction false} SweepOne(done: seq<Serve>, serve: Serve, listeners: set<Listener>, now: int, calls: Calls, failed: seq<string>)
    requires IsExpired(serve, now) && FailuresOf(done, now, calls, failed)
    ensures
      RemovedOf(done + [serve], now, calls)
      == RemovedOf(done, now, calls) + (if serve.slug in calls.off && serve.slug in calls.killed then [serve] else [])
    ensures
      listeners - TurnedOff(done + [serve], now, calls)
      == listeners - TurnedOff(done, now, calls) - (if serve.slug in calls.off then {Public(serve)} else {})
    ensures
      FailuresOf(done + [serve], now, calls,
                 if serve.slug in calls.off && serve.slug in calls.killed then failed else failed + [serve.slug])
  {
    hide IsExpired;
    RemovedSnoc(done, serve, now, calls);
    TurnedOffGrows(done, serve, now, calls);
    FailuresGrow(done, serve, now, calls, failed);
  }

  lemma {:induction false} RemovedSnoc(serves: seq<Serve>, serve: Serve, now: int, calls: Calls)
    ensures
      RemovedOf(serves + [serve], now, calls)
      == RemovedOf(serves, now, calls) + (if IsRemoved(serve, now, calls) then [serve] else [])
  {
    hide IsRemoved;
    if serves == [] {
      assert [serve][1..] == [];
    } else {
      RemovedSnoc(serves[1..], serve, now, calls);
      assert (serves + [serve])[1..] == serves[1..] + [serve];
    }
  }

  lemma FailuresGrow(serves: seq<Serve>, serve: Serve, now: int, calls: Calls, failed: seq<string>)
    requires FailuresOf(serves, now, calls, failed)
    ensures
      FailuresOf(serves + [serve], now, calls, if FailsFor(serve, now, calls, serve.slug) then failed + [serve.slug] else failed)
  {
    var after := if FailsFor(serve, now, calls, serve.slug) then failed + [serve.slug] else failed;
    forall slug ensures slug in after <==> exists s :: s in serves + [serve] && FailsFor(s, now, calls, slug) {
      if s :| s in serves && FailsFor(s, now, calls, slug) {
        assert s in serves + [serve];
      }
      if FailsFor(serve, now, calls, slug) {
        assert serve in serves + [serve];
      }
    }
  }

  lemma TurnedOffGrows(serves: seq<Serve>, serve: Serve, now: int, calls: Calls)
    ensures
      TurnedOff(serves + [serve], now, calls)
      == TurnedOff(serves, now, calls) + (if IsExpired(serve, now) && serve.slug in calls.off then {Public(serve)} else {})
  {
    hide IsExpired, Public;
    var all := serves + [serve];
    forall listener ensures listener in TurnedOff(all, now, calls)
        <==> listener in TurnedOff(serves, now, calls) || (IsExpired(serve, now) && serve.slug in calls.off && listener == Public(serve)) {
      if s :| s in serves && IsExpired(s, now) && s.slug in calls.off && Public(s) == listener {
        assert s in all;
      }
      if IsExpired(serve, now) && serve.slug in calls.off && listener == Public(serve) {
        assert serve in all;
      }
    }
  }

  /** Sweeping the expired serves alone sweeps them all. */
  lemma {:induction false} SweepIs(h: Host, now: int, calls: Calls, saved: bool, failed: seq<string>)
    requires FailuresOf(ExpiredOf(Load(h.file), now), now, calls, failed)
    ensures
      var serves := Load(h.file);
      var expired := ExpiredOf(serves, now);
      var removed := RemovedOf(expired, now, calls);
      && removed == RemovedOf(serves, now, calls) && FailuresOf(serves, now, calls, failed)
      && Sweep(h, now, calls, saved)
         == Host(if saved then Saved(WithoutSlugs(serves, set s | s in removed :: s.slug)) else h.file,
                 h.listeners - TurnedOff(expired, now, calls))
  {
    hide FailsFor, Load, IsExpired, Public;
    var serves := Load(h.file);
    var expired := ExpiredOf(serves, now);
    RemovedAreExpired(serves, now, calls);
    LoadIsDistinct(h.file);
    KeptByRemoved(serves, serves, now, calls);
    forall s ensures s in expired <==> s in serves && IsExpired(s, now) {
      ExpiredAre(serves, now, s);
    }
    assert TurnedOff(expired, now, calls) == TurnedOff(serves, now, calls);
    ExpiredFail(serves, now, calls, failed);
  }

  lemma {:induction false} ExpiredFail(serves: seq<Serve>, now: int, calls: Calls, failed: seq<string>)
    requires FailuresOf(ExpiredOf(serves, now), now, calls, failed)
    ensures FailuresOf(serves, now, calls, failed)
  {
    forall s ensures s in ExpiredOf(serves, now) <==> s in serves && IsExpired(s, now) {
      ExpiredAre(serves, now, s);
    }
  }

  lemma {:induction false} RemovedAreExpired(serves: seq<Serve>, now: int, calls: Calls)
    ensures RemovedOf(ExpiredOf(serves, now), now, calls) == RemovedOf(serves, now, calls)
  {
    if serves != [] {
      RemovedAreExpired(serves[1..], now, calls);
      if IsExpired(serves[0], now) {
        assert ExpiredOf(serves, now)[1..] == ExpiredOf(serves[1..], now);
      } else {
        assert ExpiredOf(serves, now) == ExpiredOf(serves[1..], now);
      }
    }
  }

  lemma {:induction false} KeptByRemoved(all: seq<Serve>, serves: seq<Serve>, now: int, calls: Calls)
    requires Distinct(all) && (forall k :: 0 <= k < |serves| ==> serves[k] in all)
    ensures WithoutSlugs(serves, set s | s in RemovedOf(all, now, calls) :: s.slug) == KeptOf(serves, now, calls)
  {
    if serves != [] {
      KeptByRemoved(all, serves[1..], now, calls);
      SlugOfRemoved(all, serves[0], now, calls);
    }
  }

  /** With distinct slugs, a serve has the slug of a removed one only if it is that one. */
  lemma {:induction false} SlugOfRemoved(all: seq<Serve>, serve: Serve, now: int, calls: Calls)
    requires Distinct(all) && serve in all
    ensures serve.slug in (set s | s in RemovedOf(all, now, calls) :: s.slug) <==> IsRemoved(serve, now, calls)
  {
    hide IsServe, IsRemoved;
    KeptIsDistinct(all, now, calls);
    forall s | s in all && s.slug == serve.slug ensures s == serve {
      SameSlugIsSame(all, s, serve);
    }
  }

  lemma LaunchedIsNew(serve: Serve, serves: seq<Serve>)
    requires Slugs.IsValidSlug(serve.slug) && 1 <= serve.localPort <= 65535 && serve.pid > 0
    requires serve.born.Some? && serve.born.value > 0.0 && (serve.ttl.Some? ==> serve.ttl.value > 0)
    requires forall i :: 0 <= i < |serves| ==> serves[i].slug != serve.slug && serves[i].localPort != serve.localPort
    ensures IsNew(serve, serves)
  {
  }
}
