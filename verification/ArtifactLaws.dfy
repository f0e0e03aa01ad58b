/** The artifact operations in the serves' own fields and the answers of the calls. */
module ArtifactLaws {
  import opened Options
  import opened ArtifactStore
  import opened ArtifactServes
  import opened ArtifactService
  import opened SlugWords
  import Slugs

  // ----- What is loaded

  /** The fields of an item that counts as a serve. */
  predicate IsWellFormed(item: Item) {
    && item.Fields?
    && 1 <= |item.serve.slug| <= 64 && Joined(Words(item.serve.slug)) == item.serve.slug
    && item.serve.localPort >= 1 && item.serve.localPort < 65536
    && item.serve.pid >= 1
    && !(item.serve.ttl.Some? && item.serve.ttl.value <= 0)
    && !(item.serve.born.Some? && item.serve.born.value <= 0.0)
  }

  /** An item is taken when no item taken before it has its slug or its port. */
  predicate Picked(items: seq<Item>, i: nat)
    requires i < |items|
    decreases i
  {
    && IsWellFormed(items[i])
    && forall k :: 0 <= k < i && Picked(items, k) ==>
         items[k].serve.slug != items[i].serve.slug && items[k].serve.localPort != items[i].serve.localPort
  }

  function PickedOf(items: seq<Item>, n: nat): seq<Serve>
    requires n <= |items|
  {
    if n == 0 then [] else PickedOf(items, n - 1) + if Picked(items, n - 1) then [items[n - 1].serve] else []
  }

  lemma ServeFields(item: Item)
    ensures item.Fields? && IsServe(item.serve) <==> IsWellFormed(item)
  {
    hide Slugs.IsValidSlug, Words, Joined;
    if item.Fields? {
      SlugsAreWords(item.serve.slug);
      NoWordsInNothing(item.serve.slug);
    }
  }

  lemma {:induction false} NoWordsInNothing(slug: string)
    ensures slug != [] && Joined(Words(slug)) == slug ==> Words(slug) != []
    ensures slug == [] ==> Words(slug) == []
  {
  }

  /** The slugs and ports of what is taken before `n`. */
  ghost predicate AreTaken(items: seq<Item>, n: nat, slugs: set<string>, ports: set<int>)
    requires n <= |items|
  {
    && (forall slug :: slug in slugs <==> exists k :: 0 <= k < n && Picked(items, k) && items[k].serve.slug == slug)
    && (forall port :: port in ports <==> exists k :: 0 <= k < n && Picked(items, k) && items[k].serve.localPort == port)
  }

  lemma TakenIsPicked(items: seq<Item>, n: nat, slugs: set<string>, ports: set<int>)
    requires n < |items| && AreTaken(items, n, slugs, ports)
    ensures Taken(items[n], slugs, ports) <==> Picked(items, n)
    ensures Picked(items, n) ==> items[n].Fields?
    ensures
      if Picked(items, n) then AreTaken(items, n + 1, slugs + {items[n].serve.slug}, ports + {items[n].serve.localPort})
      else AreTaken(items, n + 1, slugs, ports)
  {
    hide IsServe, IsWellFormed;
    ServeFields(items[n]);
  }

  lemma {:induction false} ReadPicks(items: seq<Item>, n: nat, slugs: set<string>, ports: set<int>)
    requires n <= |items| && AreTaken(items, n, slugs, ports)
    ensures PickedOf(items, n) + Read(items[n..], slugs, ports) == PickedOf(items, |items|)
    decreases |items| - n
  {
    hide AreTaken, Taken, Picked;
    if n < |items| {
      TakenIsPicked(items, n, slugs, ports);
      assert items[n..][0] == items[n] && items[n..][1..] == items[n + 1..];
      if Picked(items, n) {
        ReadPicks(items, n + 1, slugs + {items[n].serve.slug}, ports + {items[n].serve.localPort});
      } else {
        ReadPicks(items, n + 1, slugs, ports);
      }
    }
  }

  /** What a file gives: its well-formed items in order, each unless an earlier one that is taken has its slug or
      its port. */
  lemma LoadPicks(file: Option<seq<Item>>)
    ensures Load(file) == if file == None then [] else PickedOf(file.value, |file.value|)
  {
    if file.Some? {
      var items := file.value;
      assert AreTaken(items, 0, {}, {});
      ReadPicks(items, 0, {}, {});
      assert items[0..] == items && PickedOf(items, 0) == [];
    }
  }

  // ----- Listeners

  /** A funnel serve listens on the one port that is open to the internet, any other on its own. */
  lemma PublicIs(serve: Serve)
    ensures Public(serve).slug == serve.slug
    ensures serve.funnel ==> Public(serve).port == 10000
    ensures !serve.funnel ==> Public(serve).port == serve.localPort
  {
  }

  // ----- Stopping

  /** A reference names a serve by its slug or by its port in decimals; the first such serve. */
  lemma {:induction false} NamedIs(serves: seq<Serve>, ref: string)
    requires Distinct(serves)
    ensures
      match Named(serves, ref)
      case None => forall s :: s in serves ==> s.slug != ref && Slugs.Decimal(s.localPort) != ref
      case Some(s) => s in serves && (s.slug == ref || Slugs.Decimal(s.localPort) == ref)
    ensures
      forall i :: 0 <= i < |serves| && (serves[i].slug == ref || Slugs.Decimal(serves[i].localPort) == ref)
                  && (forall k :: 0 <= k < i ==> serves[k].slug != ref && Slugs.Decimal(serves[k].localPort) != ref)
                  ==> Named(serves, ref) == Some(serves[i])
  {
    hide Slugs.Decimal;
    if serves != [] {
      assert Distinct(serves[1..]);
      NamedIs(serves[1..], ref);
      forall i | 0 < i < |serves| && (serves[i].slug == ref || Slugs.Decimal(serves[i].localPort) == ref)
                 && (forall k :: 0 <= k < i ==> serves[k].slug != ref && Slugs.Decimal(serves[k].localPort) != ref)
        ensures Named(serves, ref) == Some(serves[i])
      {
        assert serves[1..][i - 1] == serves[i];
        assert forall k :: 0 <= k < i - 1 ==> serves[1..][k] == serves[k + 1];
      }
    }
  }

  /** Stopping a serve takes its listener away if that call succeeds, and its record if all calls do; nothing
      else changes. */
  lemma {:induction false} StopMeans(h: Host, ref: string, off: bool, killed: bool, saved: bool, s: Serve)
    requires s in Load(h.file)
    ensures
      var after, named := Stop(h, ref, off, killed, saved), Named(Load(h.file), ref) == Some(s);
      && (s in Load(after.file) <==> !(named && off && killed && saved))
      && (Public(s) in after.listeners <==> Public(s) in h.listeners && !(named && off))
    ensures forall t :: t in Load(Stop(h, ref, off, killed, saved).file) ==> t in Load(h.file)
    ensures !saved ==> Stop(h, ref, off, killed, saved).file == h.file
    ensures saved && Named(Load(h.file), ref) == None ==> Stop(h, ref, off, killed, saved).file == Saved(Load(h.file))
  {
    hide IsServe;
    var serves := Load(h.file);
    LoadIsDistinct(h.file);
    LoadAfterSave(serves);
    var named := Named(serves, ref);
    if named.Some? {
      NamedIsThere(serves, ref);
      SameSlugIsSame(serves, s, named.value);
      WithoutSlugHolds(serves, named.value.slug);
      LoadAfterSave(WithoutSlug(serves, named.value.slug));
    }
  }

  // ----- Starting

  /** How a start ends, by the answers of its calls: whether the new listener stands, and whether it is recorded. */
  lemma FinishMeans(h: Host, serve: Serve, answers: Answers)
    requires IsNew(serve, Load(h.file)) && Public(serve) !in h.listeners
    ensures
      var after := Finish(h, serve, FateOf(answers));
      var fine := answers.hasUrl && answers.saves;
      && (Public(serve) in after.listeners <==> answers.registers && (fine || !answers.turnsOff))
      && (serve in Load(after.file) <==> answers.registers && (fine || (!answers.turnsOff && answers.savesAgain)))
      && (forall s :: s != serve ==> (s in Load(after.file) <==> s in Load(h.file)))
      && (forall l :: l != Public(serve) ==> (l in after.listeners <==> l in h.listeners))
    ensures FateOf(answers) == Stored <==> answers.registers && answers.hasUrl && answers.saves
  {
    hide IsServe;
    LoadIsDistinct(h.file);
    NewStaysDistinct(Load(h.file), serve);
    assert serve !in Load(h.file);
  }

  /** A started serve has what its server was launched with, and everything else as asked for. */
  lemma ServingMeans(template: Serve, l: Launched)
    ensures
      var serve := Serving(template, l);
      && serve.slug == l.slug && serve.localPort == l.port && serve.pid == l.pid && serve.born == Some(l.born)
      && serve.dir == template.dir && serve.workId == template.workId && serve.created == template.created
      && serve.ttl == template.ttl && serve.funnel == template.funnel
  {
  }

  // ----- Sweeping

  /** A sweep in the serves' own fields: one goes when it has a ttl, its time is over, and both calls for it
      succeed; its listener goes with the first of them; one without a ttl stays. */
  lemma {:induction false} SweepMeans(h: Host, now: int, calls: Calls, saved: bool, s: Serve)
    requires s in Load(h.file)
    ensures
      var after := Sweep(h, now, calls, saved);
      var over := s.ttl.Some? && now > s.created + s.ttl.value;
      && (s in RemovedOf(Load(h.file), now, calls) <==> over && s.slug in calls.off && s.slug in calls.killed)
      && (s in Load(after.file) <==> !(saved && over && s.slug in calls.off && s.slug in calls.killed))
      && (Public(s) in after.listeners <==> Public(s) in h.listeners && !(over && s.slug in calls.off))
    ensures forall t :: t in Load(Sweep(h, now, calls, saved).file) ==> t in Load(h.file)
  {
    hide IsServe;
    var serves := Load(h.file);
    LoadIsDistinct(h.file);
    KeptIsDistinct(serves, now, calls);
    LoadAfterSave(KeptOf(serves, now, calls));
    if Public(s) in TurnedOff(serves, now, calls) {
      var t :| t in serves && IsExpired(t, now) && t.slug in calls.off && Public(t) == Public(s);
      SameSlugIsSame(serves, s, t);
    }
  }

  // ----- Candidates

  /** A further candidate is the start of the base, the port, and from the second attempt on its number, with dashes
      between; as much of the base as fits into 64 characters. */
  lemma {:induction false} CandidateMeans(base: string, port: nat, attempt: nat)
    requires Slugs.IsDashed(base) && |Slugs.Suffix(port, attempt)| < 63
    ensures Slugs.Suffix(port, attempt) == if attempt == 1 then Slugs.Decimal(port) else Slugs.Decimal(port) + "-" + Slugs.Decimal(attempt)
    ensures
      var suffix, room := Slugs.Suffix(port, attempt), 63 - |Slugs.Suffix(port, attempt)|;
      exists n: nat :: FrontFits(base, n, room) && Slugs.Candidate(base, port, attempt) == base[..n] + "-" + suffix
  {
    hide Slugs.Suffix, Slugs.Decimal;
    SuffixMeans(port, attempt);
    var room := 63 - |Slugs.Suffix(port, attempt)|;
    var front := Slugs.Front(base, room);
    if room < |base| && front[room - 1] == '-' {
      assert room > 1 && base[room - 2] != '-';
      assert front[..room - 1][room - 2] == base[room - 2];
      assert Slugs.StripRight(front) == front[..room - 1] == base[..room - 1];
      assert FrontFits(base, room - 1, room);
    } else if room < |base| {
      assert FrontFits(base, room, room);
    } else {
      assert base[..|base|] == base && FrontFits(base, |base|, room);
    }
  }

  lemma {:induction false} SuffixMeans(port: nat, attempt: nat)
    ensures Slugs.Suffix(port, attempt) == if attempt == 1 then Slugs.Decimal(port) else Slugs.Decimal(port) + "-" + Slugs.Decimal(attempt)
  {
  }

  /** A slice up to `n`: at most the whole, and a negative `n` leaves that many characters out. */
  lemma FrontIs(s: string, n: int)
    ensures
      var kept := if n < 0 then |s| + n else if n < |s| then n else |s|;
      Slugs.Front(s, n) == if kept <= 0 then [] else s[..kept]
  {
  }

  /** The first `n` characters of a base are what is kept of it in some room: all, or what fits without a dash at
      the end. */
  predicate FrontFits(base: string, n: nat, room: nat) {
    n <= |base| && if |base| <= room then n == |base| else n == room || (n + 1 == room && base[n] == '-')
  }
}
