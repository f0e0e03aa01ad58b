/** Starting, stopping and sweeping artifact serves while every call to the outside may fail. The
    host is the state file and the listeners registered with Tailscale. */
module ArtifactServes {
  import opened Options
  import opened ArtifactStore
  import Slugs

  const FUNNEL_PORT: int := 10000
  const PORT_MIN: int := 49152
  const PORT_MAX: int := 65535

  datatype Listener = Listener(port: int, slug: string)

  datatype Host = Host(file: Option<seq<Item>>, listeners: set<Listener>)

  /** `tailnet_port` */
  function TailnetPort(localPort: int, funnel: bool): int {
    if funnel then FUNNEL_PORT else localPort
  }

  function Public(serve: Serve): Listener {
    Listener(TailnetPort(serve.localPort, serve.funnel), serve.slug)
  }

  /** `is_expired` */
  predicate IsExpired(serve: Serve, now: int) {
    serve.ttl.Some? && serve.created + serve.ttl.value < now
  }

  // ----- What every step keeps

  ghost predicate RecordedIn(serves: seq<Serve>, listener: Listener) {
    exists i :: 0 <= i < |serves| && Public(serves[i]) == listener
  }

  /** Every registered listener is that of a recorded serve. */
  ghost predicate Recorded(h: Host) {
    forall listener :: listener in h.listeners ==> RecordedIn(Load(h.file), listener)
  }

  // ----- Sweeping

  /** The outcomes of the calls for each serve by its slug: the listeners Tailscale removes and the
      processes that can be ended. */
  datatype Calls = Calls(off: set<string>, killed: set<string>)

  predicate IsRemoved(serve: Serve, now: int, calls: Calls) {
    IsExpired(serve, now) && serve.slug in calls.off && serve.slug in calls.killed
  }

  function RemovedOf(serves: seq<Serve>, now: int, calls: Calls): seq<Serve> {
    if serves == [] then []
    else (if IsRemoved(serves[0], now, calls) then [serves[0]] else []) + RemovedOf(serves[1..], now, calls)
  }

  function KeptOf(serves: seq<Serve>, now: int, calls: Calls): seq<Serve> {
    if serves == [] then []
    else (if IsRemoved(serves[0], now, calls) then [] else [serves[0]]) + KeptOf(serves[1..], now, calls)
  }

  function TurnedOff(serves: seq<Serve>, now: int, calls: Calls): set<Listener> {
    set s | s in serves && IsExpired(s, now) && s.slug in calls.off :: Public(s)
  }

  /** A sweep: the listeners that went, and the file unless saving failed. */
  function Sweep(h: Host, now: int, calls: Calls, saved: bool): Host {
    var serves := Load(h.file);
    Host(if saved then Saved(KeptOf(serves, now, calls)) else h.file, h.listeners - TurnedOff(serves, now, calls))
  }

  lemma {:induction false} KeptHolds(serves: seq<Serve>, now: int, calls: Calls, s: Serve)
    ensures s in KeptOf(serves, now, calls) <==> s in serves && !IsRemoved(s, now, calls)
    ensures s in RemovedOf(serves, now, calls) <==> s in serves && IsRemoved(s, now, calls)
  {
    hide IsRemoved;
    if serves != [] {
      KeptHolds(serves[1..], now, calls, s);
    }
  }

  /** No serve of a list has a given slug, or none a given port. */
  ghost predicate Differs(serves: seq<Serve>, s: Serve) {
    forall k :: 0 <= k < |serves| ==> serves[k].slug != s.slug && serves[k].localPort != s.localPort
  }

  lemma DistinctCons(s: Serve, serves: seq<Serve>)
    ensures Distinct([s] + serves) <==> IsServe(s) && Distinct(serves) && Differs(serves, s)
  {
    hide IsServe;
    var all := [s] + serves;
    assert forall k :: 0 <= k < |serves| ==> all[k + 1] == serves[k];
    if Distinct(all) {
      assert all[0] == s;
    }
  }

  lemma DiffersWithin(part: seq<Serve>, serves: seq<Serve>, s: Serve)
    requires Differs(serves, s) && forall k :: 0 <= k < |part| ==> part[k] in serves
    ensures Differs(part, s)
  {
  }

  lemma {:induction false} KeptIsDistinct(serves: seq<Serve>, now: int, calls: Calls)
    requires Distinct(serves)
    ensures Distinct(KeptOf(serves, now, calls))
    ensures forall s :: s in KeptOf(serves, now, calls) <==> s in serves && !IsRemoved(s, now, calls)
    ensures forall s :: s in RemovedOf(serves, now, calls) <==> s in serves && IsRemoved(s, now, calls)
  {
    hide IsServe, IsRemoved, Distinct, Differs;
    forall s ensures
        (s in KeptOf(serves, now, calls) <==> s in serves && !IsRemoved(s, now, calls))
        && (s in RemovedOf(serves, now, calls) <==> s in serves && IsRemoved(s, now, calls)) {
      KeptHolds(serves, now, calls, s);
    }
    if serves != [] {
      assert serves == [serves[0]] + serves[1..];
      DistinctCons(serves[0], serves[1..]);
      KeptIsDistinct(serves[1..], now, calls);
      DiffersWithin(KeptOf(serves[1..], now, calls), serves[1..], serves[0]);
      DistinctCons(serves[0], KeptOf(serves[1..], now, calls));
      assert IsRemoved(serves[0], now, calls) ==> KeptOf(serves, now, calls) == KeptOf(serves[1..], now, calls);
    } else {
      NoneAreDistinct();
    }
  }

  lemma NoneAreDistinct()
    ensures Distinct([])
  {
  }

  /** The removed and the kept make up the loaded list, each in its order: where the kept are saved,
      loading gives them back, and the removed are the expired ones whose calls succeeded. */
  lemma {:induction false} SweepPartitions(h: Host, now: int, calls: Calls)
    ensures
      var serves := Load(h.file);
      var removed, kept := RemovedOf(serves, now, calls), KeptOf(serves, now, calls);
      && Merges(serves, removed, kept)
      && (forall s :: s in removed ==> IsExpired(s, now))
      && Load(Sweep(h, now, calls, true).file) == kept
  {
    var serves := Load(h.file);
    LoadIsDistinct(h.file);
    KeptIsDistinct(serves, now, calls);
    LoadAfterSave(KeptOf(serves, now, calls));
    FiltersMerge(serves, now, calls);
  }

  /** The list is an interleaving of two others. */
  ghost predicate Merges(all: seq<Serve>, a: seq<Serve>, b: seq<Serve>) {
    if all == [] then a == b == []
    else (a != [] && a[0] == all[0] && Merges(all[1..], a[1..], b)) || (b != [] && b[0] == all[0] && Merges(all[1..], a, b[1..]))
  }

  lemma {:induction false} FiltersMerge(serves: seq<Serve>, now: int, calls: Calls)
    ensures Merges(serves, RemovedOf(serves, now, calls), KeptOf(serves, now, calls))
  {
    if serves != [] {
      FiltersMerge(serves[1..], now, calls);
      var removed, kept := RemovedOf(serves, now, calls), KeptOf(serves, now, calls);
      if IsRemoved(serves[0], now, calls) {
        assert removed[1..] == RemovedOf(serves[1..], now, calls) && kept == KeptOf(serves[1..], now, calls);
      } else {
        assert kept[1..] == KeptOf(serves[1..], now, calls) && removed == RemovedOf(serves[1..], now, calls);
      }
    }
  }

  lemma RecordedAt(serves: seq<Serve>, s: Serve)
    requires s in serves
    ensures RecordedIn(serves, Public(s))
  {
    var i :| 0 <= i < |serves| && serves[i] == s;
    assert Public(serves[i]) == Public(s);
  }

  lemma SweepKeepsRecorded(h: Host, now: int, calls: Calls, saved: bool)
    requires Recorded(h)
    ensures Recorded(Sweep(h, now, calls, saved))
  {
    var serves, kept := Load(h.file), KeptOf(Load(h.file), now, calls);
    LoadIsDistinct(h.file);
    KeptIsDistinct(serves, now, calls);
    LoadAfterSave(kept);
    forall listener | listener in Sweep(h, now, calls, true).listeners ensures RecordedIn(kept, listener) {
      assert RecordedIn(serves, listener);
      var i :| 0 <= i < |serves| && Public(serves[i]) == listener;
      assert serves[i] in serves;
      RecordedAt(kept, serves[i]);
    }
  }

  // ----- Starting

  /** How a launched serve ends up: registration fails; it is registered and recorded; recording fails
      and the listener is removed again; that fails too and the record is saved after all; or not even that. */
  datatype Fate = NotRegistered | Stored | CleanedUp | Recovered | Orphaned

  predicate IsNew(serve: Serve, serves: seq<Serve>) {
    IsServe(serve) && forall i :: 0 <= i < |serves| ==> serves[i].slug != serve.slug && serves[i].localPort != serve.localPort
  }

  function Finish(h: Host, serve: Serve, fate: Fate): Host {
    var recorded := Saved(Load(h.file) + [serve]);
    match fate
    case NotRegistered => h
    case Stored => Host(recorded, h.listeners + {Public(serve)})
    case CleanedUp => Host(h.file, h.listeners + {Public(serve)} - {Public(serve)})
    case Recovered => Host(recorded, h.listeners + {Public(serve)})
    case Orphaned => Host(h.file, h.listeners + {Public(serve)})
  }

  lemma NewStaysDistinct(serves: seq<Serve>, serve: Serve)
    requires Distinct(serves) && IsNew(serve, serves)
    ensures Distinct(serves + [serve]) && Load(Saved(serves + [serve])) == serves + [serve]
  {
    LoadAfterSave(serves + [serve]);
  }

  /** Starting keeps every listener recorded exactly when the listener is not left behind with its
      record unsaved. */
  lemma FinishKeepsRecorded(h: Host, serve: Serve, fate: Fate)
    requires Recorded(h) && IsNew(serve, Load(h.file))
    ensures Recorded(Finish(h, serve, fate)) <==> fate != Orphaned
  {
    hide IsServe;
    var serves := Load(h.file);
    LoadIsDistinct(h.file);
    NewStaysDistinct(serves, serve);
    RecordedAt(serves + [serve], serve);
    assert !RecordedIn(serves, Public(serve));
    forall listener | RecordedIn(serves, listener) ensures RecordedIn(serves + [serve], listener) {
      var i :| 0 <= i < |serves| && Public(serves[i]) == listener;
      assert (serves + [serve])[i] == serves[i];
    }
    if fate == Orphaned {
      assert Public(serve) in Finish(h, serve, fate).listeners;
    }
  }

  // ----- Stopping

  /** The first serve a reference names, by its slug or its port. */
  function Named(serves: seq<Serve>, ref: string): Option<Serve> {
    if serves == [] then None
    else if serves[0].slug == ref || (serves[0].localPort >= 0 && Slugs.Decimal(serves[0].localPort) == ref) then Some(serves[0])
    else Named(serves[1..], ref)
  }

  function WithoutSlug(serves: seq<Serve>, slug: string): seq<Serve> {
    if serves == [] then []
    else (if serves[0].slug == slug then [] else [serves[0]]) + WithoutSlug(serves[1..], slug)
  }

  /** Stopping: nothing goes unless its listener does, and its record goes last. */
  function Stop(h: Host, ref: string, off: bool, killed: bool, saved: bool): Host {
    var serves := Load(h.file);
    match Named(serves, ref)
    case None => if saved then Host(Saved(serves), h.listeners) else h
    case Some(serve) =>
      if !off then h
      else Host(if killed && saved then Saved(WithoutSlug(serves, serve.slug)) else h.file, h.listeners - {Public(serve)})
  }

  lemma {:induction false} NamedIsThere(serves: seq<Serve>, ref: string)
    ensures Named(serves, ref).Some? ==> Named(serves, ref).value in serves
  {
    if serves != [] {
      NamedIsThere(serves[1..], ref);
    }
  }

  lemma {:induction false} WithoutSlugIs(serves: seq<Serve>, slug: string, s: Serve)
    ensures s in WithoutSlug(serves, slug) <==> s in serves && s.slug != slug
  {
    if serves != [] {
      WithoutSlugIs(serves[1..], slug, s);
    }
  }

  lemma {:induction false} WithoutSlugHolds(serves: seq<Serve>, slug: string)
    requires Distinct(serves)
    ensures Distinct(WithoutSlug(serves, slug))
    ensures forall s :: s in WithoutSlug(serves, slug) <==> s in serves && s.slug != slug
  {
    hide IsServe, Distinct, Differs;
    forall s ensures s in WithoutSlug(serves, slug) <==> s in serves && s.slug != slug {
      WithoutSlugIs(serves, slug, s);
    }
    if serves != [] {
      assert serves == [serves[0]] + serves[1..];
      DistinctCons(serves[0], serves[1..]);
      WithoutSlugHolds(serves[1..], slug);
      DiffersWithin(WithoutSlug(serves[1..], slug), serves[1..], serves[0]);
      DistinctCons(serves[0], WithoutSlug(serves[1..], slug));
      assert serves[0].slug == slug ==> WithoutSlug(serves, slug) == WithoutSlug(serves[1..], slug);
    } else {
      NoneAreDistinct();
    }
  }

  lemma StopKeepsRecorded(h: Host, ref: string, off: bool, killed: bool, saved: bool)
    requires Recorded(h)
    ensures Recorded(Stop(h, ref, off, killed, saved))
  {
    hide IsServe;
    var serves := Load(h.file);
    LoadIsDistinct(h.file);
    LoadAfterSave(serves);
    var named := Named(serves, ref);
    if named.Some? {
      NamedIsThere(serves, ref);
      var kept := WithoutSlug(serves, named.value.slug);
      WithoutSlugHolds(serves, named.value.slug);
      LoadAfterSave(kept);
      forall listener | listener in h.listeners && listener != Public(named.value) ensures RecordedIn(kept, listener) {
        assert RecordedIn(serves, listener);
        var i :| 0 <= i < |serves| && Public(serves[i]) == listener;
        SameSlugIsSame(serves, serves[i], named.value);
        RecordedAt(kept, serves[i]);
      }
    }
  }

  lemma SameSlugIsSame(serves: seq<Serve>, a: Serve, b: Serve)
    requires Distinct(serves) && a in serves && b in serves
    ensures a.slug == b.slug ==> a == b
  {
    var i :| 0 <= i < |serves| && serves[i] == a;
    var j :| 0 <= j < |serves| && serves[j] == b;
  }

  // ----- Whole runs

  datatype Op =
    | SweepOp(now: int, calls: Calls, saved: bool)
    | StartOp(now: int, calls: Calls, serve: Serve, fate: Fate)
    | StopOp(ref: string, off: bool, killed: bool, saved: bool)

  /** A start sweeps first; it goes on only with the sweep saved, and what it starts is new. */
  ghost predicate CanDo(h: Host, op: Op) {
    op.StartOp? ==> IsNew(op.serve, Load(Sweep(h, op.now, op.calls, true).file))
  }

  function Do(h: Host, op: Op): Host {
    match op
    case SweepOp(now, calls, saved) => Sweep(h, now, calls, saved)
    case StartOp(now, calls, serve, fate) => Finish(Sweep(h, now, calls, true), serve, fate)
    case StopOp(ref, off, killed, saved) => Stop(h, ref, off, killed, saved)
  }

  lemma DoKeepsRecorded(h: Host, op: Op)
    requires Recorded(h) && CanDo(h, op)
    ensures Recorded(Do(h, op)) <==> !(op.StartOp? && op.fate == Orphaned)
  {
    hide Recorded, IsNew;
    match op
    case SweepOp(now, calls, saved) => SweepKeepsRecorded(h, now, calls, saved);
    case StartOp(now, calls, serve, fate) =>
      SweepKeepsRecorded(h, now, calls, true);
      FinishKeepsRecorded(Sweep(h, now, calls, true), serve, fate);
    case StopOp(ref, off, killed, saved) => StopKeepsRecorded(h, ref, off, killed, saved);
  }

  ghost predicate CanRun(h: Host, ops: seq<Op>)
    decreases |ops|
  {
    ops == [] || (CanDo(h, ops[0]) && CanRun(Do(h, ops[0]), ops[1..]))
  }

  function Run(h: Host, ops: seq<Op>): Host
    decreases |ops|
  {
    if ops == [] then h else Run(Do(h, ops[0]), ops[1..])
  }

  /** Across any run in which no listener is orphaned, however else the calls fail, every registered
      listener is recorded, and the records have distinct slugs and ports. */
  lemma {:induction false} RunsKeepRecorded(h: Host, ops: seq<Op>)
    requires Recorded(h) && CanRun(h, ops)
    requires forall i :: 0 <= i < |ops| ==> !(ops[i].StartOp? && ops[i].fate == Orphaned)
    ensures Recorded(Run(h, ops)) && Distinct(Load(Run(h, ops).file))
    decreases |ops|
  {
    hide Recorded, CanDo, Do;
    if ops == [] {
      LoadIsDistinct(h.file);
    } else {
      DoKeepsRecorded(h, ops[0]);
      RunsKeepRecorded(Do(h, ops[0]), ops[1..]);
    }
  }
}
