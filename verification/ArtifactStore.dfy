/** The artifact state file: which of its items are serves, and reading back what was saved. */
module ArtifactStore {
  import opened Options
  import Slugs

  /** `created` is the creation time in seconds. */
  datatype Serve = Serve(slug: string, localPort: int, dir: string, workId: Option<string>, created: int,
                         ttl: Option<int>, funnel: bool, pid: int, born: Option<real>)

  /** An item of the file: something that is no serve at all, or one with fields of the right types. */
  datatype Item = Junk | Fields(serve: Serve)

  /** `_serve_from_json` */
  predicate IsServe(serve: Serve) {
    && Slugs.IsValidSlug(serve.slug)
    && 1 <= serve.localPort <= 65535
    && (serve.ttl.Some? ==> serve.ttl.value > 0)
    && serve.pid > 0
    && (serve.born.Some? ==> serve.born.value > 0.0)
  }

  /** The serve of an item that names a new slug and a new port. */
  predicate Taken(item: Item, slugs: set<string>, ports: set<int>) {
    item.Fields? && IsServe(item.serve) && item.serve.slug !in slugs && item.serve.localPort !in ports
  }

  function Read(items: seq<Item>, slugs: set<string>, ports: set<int>): seq<Serve> {
    if items == [] then []
    else if Taken(items[0], slugs, ports) then
      [items[0].serve] + Read(items[1..], slugs + {items[0].serve.slug}, ports + {items[0].serve.localPort})
    else Read(items[1..], slugs, ports)
  }

  /** `load_serves`; a missing or damaged file has none. */
  function Load(file: Option<seq<Item>>): seq<Serve> {
    if file.Some? then Read(file.value, {}, {}) else []
  }

  /** `save_serves` */
  function Saved(serves: seq<Serve>): Option<seq<Item>> {
    Some(seq(|serves|, i requires 0 <= i < |serves| => Fields(serves[i])))
  }

  ghost predicate Distinct(serves: seq<Serve>) {
    && (forall i :: 0 <= i < |serves| ==> IsServe(serves[i]))
    && (forall i, j :: 0 <= i < j < |serves| ==> serves[i].slug != serves[j].slug && serves[i].localPort != serves[j].localPort)
  }

  ghost predicate Avoids(serves: seq<Serve>, slugs: set<string>, ports: set<int>) {
    forall i :: 0 <= i < |serves| ==> serves[i].slug !in slugs && serves[i].localPort !in ports
  }

  lemma {:induction false} ReadIsDistinct(items: seq<Item>, slugs: set<string>, ports: set<int>)
    ensures Distinct(Read(items, slugs, ports)) && Avoids(Read(items, slugs, ports), slugs, ports)
  {
    hide IsServe;
    if items != [] {
      if Taken(items[0], slugs, ports) {
        ReadIsDistinct(items[1..], slugs + {items[0].serve.slug}, ports + {items[0].serve.localPort});
      } else {
        ReadIsDistinct(items[1..], slugs, ports);
      }
    }
  }

  /** Whatever the file holds, what is loaded are serves, no two of one slug or one port. */
  lemma LoadIsDistinct(file: Option<seq<Item>>)
    ensures Distinct(Load(file))
  {
    if file.Some? {
      ReadIsDistinct(file.value, {}, {});
    }
  }

  /** An item is left out only when it is no serve, or an earlier one has its slug or its port. */
  lemma {:induction false} ReadSkipsNothingElse(items: seq<Item>, slugs: set<string>, ports: set<int>, i: nat)
    requires i < |items| && items[i].Fields? && IsServe(items[i].serve)
    ensures
      var s := items[i].serve;
      var loaded := Read(items, slugs, ports);
      s in loaded || s.slug in slugs || s.localPort in ports
      || exists k :: 0 <= k < |loaded| && (loaded[k].slug == s.slug || loaded[k].localPort == s.localPort)
  {
    hide IsServe;
    var s, loaded := items[i].serve, Read(items, slugs, ports);
    if Taken(items[0], slugs, ports) {
      assert loaded[0] == items[0].serve;
      if i > 0 {
        var rest := Read(items[1..], slugs + {items[0].serve.slug}, ports + {items[0].serve.localPort});
        ReadSkipsNothingElse(items[1..], slugs + {items[0].serve.slug}, ports + {items[0].serve.localPort}, i - 1);
        assert forall k :: 0 <= k < |rest| ==> loaded[k + 1] == rest[k];
      }
    } else if i > 0 {
      ReadSkipsNothingElse(items[1..], slugs, ports, i - 1);
    }
  }

  lemma {:induction false} ReadBack(serves: seq<Serve>, slugs: set<string>, ports: set<int>)
    requires Distinct(serves) && Avoids(serves, slugs, ports)
    ensures Read(Saved(serves).value, slugs, ports) == serves
  {
    hide IsServe;
    if serves != [] {
      assert Saved(serves).value[1..] == Saved(serves[1..]).value;
      ReadBack(serves[1..], slugs + {serves[0].slug}, ports + {serves[0].localPort});
    }
  }

  /** Saved serves load back exactly when they are serves of distinct slugs and ports. */
  lemma LoadAfterSave(serves: seq<Serve>)
    ensures Load(Saved(serves)) == serves <==> Distinct(serves)
  {
    if Distinct(serves) {
      ReadBack(serves, {}, {});
    }
    LoadIsDistinct(Saved(serves));
  }

  /** The loop of `load_serves`. */
  method LoadServes(file: Option<seq<Item>>) returns (serves: seq<Serve>)
    ensures serves == Load(file)
  {
    serves := [];
    if file == None {
      return;
    }
    var items := file.value;
    var slugs: set<string>, ports: set<int> := {}, {};
    var i := 0;
    while i < |items|
      invariant i <= |items|
      invariant serves + Read(items[i..], slugs, ports) == Load(file)
    {
      var item := items[i];
      assert items[i..][0] == item && items[i..][1..] == items[i + 1..];
      if Taken(item, slugs, ports) {
        serves := serves + [item.serve];
        slugs, ports := slugs + {item.serve.slug}, ports + {item.serve.localPort};
      }
      i := i + 1;
    }
  }
}
