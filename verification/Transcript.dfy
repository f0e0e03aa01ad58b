/** A parsed transcript revealed in contiguous windows, and the detail view that scrolls it.
    Scrolling the window is scrolling the whole transcript. */
module Transcript {
  import opened Options

  const PAGE: nat := 24

  /** `body` is what an entry says; a setup entry is never shown. */
  datatype Entry<B> = Entry(index: nat, setup: bool, body: B)

  datatype Line = Line(style: string, text: string)

  function Min(a: int, b: int): int {
    if a < b then a else b
  }

  function Max(a: int, b: int): int {
    if a < b then b else a
  }

  ghost predicate Indexed<B>(all: seq<Entry<B>>) {
    forall i :: 0 <= i < |all| ==> all[i].index == i
  }

  /** The entries of a stretch that are shown: `select_session_log_window` without the setup entries. */
  function Shown<B>(all: seq<Entry<B>>, lo: nat, hi: nat): seq<Entry<B>>
    requires lo <= hi <= |all|
    decreases hi - lo
  {
    if lo == hi then []
    else (if all[lo].setup then [] else [all[lo]]) + Shown(all, lo + 1, hi)
  }

  function PageAt<B>(all: seq<Entry<B>>, at: nat): seq<Entry<B>>
    requires at + PAGE <= |all|
  {
    Shown(all, at, at + PAGE)
  }

  /** No page is made of setup entries alone. */
  ghost predicate NoEmptyPage<B>(all: seq<Entry<B>>) {
    forall at :: 0 <= at && at + PAGE <= |all| ==> PageAt(all, at) != []
  }

  lemma {:induction false} ShownSplits<B>(all: seq<Entry<B>>, lo: nat, mid: nat, hi: nat)
    requires lo <= mid <= hi <= |all|
    ensures Shown(all, lo, hi) == Shown(all, lo, mid) + Shown(all, mid, hi)
    decreases mid - lo
  {
    if lo < mid {
      ShownSplits(all, lo + 1, mid, hi);
    }
  }

  /** What is shown starts at the first entry shown, and ends with the last. */
  lemma {:induction false} ShownStarts<B>(all: seq<Entry<B>>, lo: nat, hi: nat)
    requires lo <= hi <= |all| && Indexed(all)
    ensures
      var shown := Shown(all, lo, hi);
      shown != [] ==> lo <= shown[0].index < hi && shown == Shown(all, shown[0].index, hi)
    decreases hi - lo
  {
    if lo < hi && all[lo].setup {
      ShownStarts(all, lo + 1, hi);
    }
  }

  lemma {:induction false} ShownEnds<B>(all: seq<Entry<B>>, lo: nat, hi: nat)
    requires lo <= hi <= |all| && Indexed(all)
    ensures
      var shown := Shown(all, lo, hi);
      shown != [] ==> lo <= shown[|shown| - 1].index < hi && shown == Shown(all, lo, shown[|shown| - 1].index + 1)
    decreases hi - lo
  {
    if lo < hi {
      ShownEnds(all, lo + 1, hi);
      var rest := Shown(all, lo + 1, hi);
      if rest == [] {
        assert Shown(all, lo + 1, lo + 1) == [];
      }
    }
  }

  // ----- Paging

  /** Where the window starts after the page before `lo` is read. */
  function StartAfter<B>(page: seq<Entry<B>>, lo: nat): nat {
    if page == [] then 0 else Min(lo, page[0].index) as nat
  }

  /** Where it ends after the page from its end on is read. */
  function EndAfter<B>(page: seq<Entry<B>>, total: nat): nat {
    if page == [] then total else page[|page| - 1].index + 1
  }

  function PageBefore<B>(all: seq<Entry<B>>, before: nat): seq<Entry<B>>
    requires before <= |all|
  {
    Shown(all, Max(before - PAGE, 0) as nat, before)
  }

  function PageFrom<B>(all: seq<Entry<B>>, start: nat): seq<Entry<B>>
    requires start <= |all|
  {
    Shown(all, start, Min(start + PAGE, |all|) as nat)
  }

  /** A page joins a window that shows all of `[lo, hi)` without a gap exactly when it shows something or
      nothing beyond it does. */
  lemma OlderPage<B>(all: seq<Entry<B>>, lo: nat, hi: nat)
    requires 0 < lo <= hi <= |all| && Indexed(all)
    ensures
      var page := PageBefore(all, lo);
      var start := StartAfter(page, lo);
      && start < lo
      && page + Shown(all, lo, hi) == Shown(all, if page == [] then lo else start, hi)
      && (page + Shown(all, lo, hi) == Shown(all, start, hi) <==> page != [] || Shown(all, 0, lo) == [])
  {
    var page := PageBefore(all, lo);
    ShownStarts(all, Max(lo - PAGE, 0) as nat, lo);
    hide Shown;
    ShownSplits(all, StartAfter(page, lo), lo, hi);
    if page == [] {
      assert page + Shown(all, lo, hi) == Shown(all, lo, hi);
    }
  }

  lemma NewerPage<B>(all: seq<Entry<B>>, lo: nat, hi: nat)
    requires lo <= hi < |all| && Indexed(all)
    ensures
      var page := PageFrom(all, hi);
      var end := EndAfter(page, |all|);
      && hi < end <= |all|
      && Shown(all, lo, hi) + page == Shown(all, lo, if page == [] then hi else end)
      && (Shown(all, lo, hi) + page == Shown(all, lo, end) <==> page != [] || Shown(all, hi, |all|) == [])
  {
    var page := PageFrom(all, hi);
    ShownEnds(all, hi, Min(hi + PAGE, |all|) as nat);
    hide Shown;
    ShownSplits(all, lo, hi, EndAfter(page, |all|));
    if page == [] {
      assert Shown(all, lo, hi) + page == Shown(all, lo, hi);
    }
  }

  /** Which it does on every transcript without a page of setup entries. */
  lemma {:induction false} OlderPageShows<B>(all: seq<Entry<B>>, lo: nat)
    requires lo <= |all| && NoEmptyPage(all)
    ensures PageBefore(all, lo) != [] || Shown(all, 0, lo) == []
  {
    if lo >= PAGE {
      assert PageAt(all, lo - PAGE) != [];
    }
  }

  lemma {:induction false} NewerPageShows<B>(all: seq<Entry<B>>, hi: nat)
    requires hi <= |all| && NoEmptyPage(all)
    ensures PageFrom(all, hi) != [] || Shown(all, hi, |all|) == []
  {
    if hi + PAGE <= |all| {
      assert PageAt(all, hi) != [];
    }
  }

  lemma {:induction false} SetupShowsNothing<B>(all: seq<Entry<B>>, lo: nat, hi: nat)
    requires lo <= hi <= |all| && forall i :: lo <= i < hi ==> all[i].setup
    ensures Shown(all, lo, hi) == []
    decreases hi - lo
  {
    if lo < hi {
      SetupShowsNothing(all, lo + 1, hi);
    }
  }

  /** A window `[lo, hi)` at the start or the end of the transcript that shows the stretch from `first` to
      `last`: all of it, unless a page of setup entries alone made it leap to the other end. */
  ghost predicate Spans<B>(all: seq<Entry<B>>, lo: nat, hi: nat, first: nat, last: nat) {
    && lo <= first <= last <= hi <= |all| && (lo == 0 || hi == |all|)
    && (lo < first ==> lo == 0 && hi == |all| && PageBefore(all, first) == [])
    && (last < hi ==> lo == 0 && hi == |all| && PageFrom(all, last) == [])
  }

  /** A window shows all of `[lo, hi)` exactly when nothing it leapt over is shown; on transcripts of one
      page, and on those without a page of setup entries, it always does. */
  lemma {:induction false} SpansShowAll<B>(all: seq<Entry<B>>, lo: nat, hi: nat, first: nat, last: nat)
    requires Spans(all, lo, hi, first, last)
    ensures Shown(all, first, last) == Shown(all, lo, hi) <==> Shown(all, lo, first) == [] && Shown(all, last, hi) == []
    ensures lo > 0 || hi < |all| || |all| <= PAGE || NoEmptyPage(all) ==> Shown(all, first, last) == Shown(all, lo, hi)
  {
    ShownSplits(all, lo, first, hi);
    ShownSplits(all, first, last, hi);
    if NoEmptyPage(all) {
      OlderPageShows(all, first);
      NewerPageShows(all, last);
    }
  }

  /** `TranscriptWindow`: the entries `[lo, hi)` of a snapshot. */
  class Window<B> {
    const all: seq<Entry<B>>
    var lo: nat
    var hi: nat
    var entries: seq<Entry<B>>
    ghost var first: nat
    ghost var last: nat

    ghost predicate Valid()
      reads this
    {
      Indexed(all) && Spans(all, lo, hi, first, last) && entries == Shown(all, first, last)
    }

    /** The window has every entry of its stretch that is shown. */
    ghost predicate Gapless()
      reads this
    {
      lo <= hi <= |all| && entries == Shown(all, lo, hi)
    }

    constructor (all: seq<Entry<B>>)
      requires Indexed(all)
      ensures Valid() && Gapless() && this.all == all && hi == |all|
    {
      this.all := all;
      lo, hi, entries, first, last := |all|, |all|, [], |all|, |all|;
      new;
      JumpBottom();
    }

    predicate HasOlder()
      reads this
    {
      lo > 0
    }

    predicate HasNewer()
      reads this
    {
      hi < |all|
    }

    method Older() returns (added: nat)
      requires Valid()
      modifies this
      ensures Valid() && hi == old(hi)
      ensures
        if old(lo) == 0 then lo == 0 && entries == old(entries) && added == 0
        else
          var page := PageBefore(all, old(lo));
          && lo == StartAfter(page, old(lo)) < old(lo) && entries == page + old(entries) && added == |page|
          && (Gapless() <==> page != [] || Shown(all, 0, old(lo)) == [])
    {
      if !HasOlder() {
        return 0;
      }
      hide Shown;
      var page := PageBefore(all, lo);
      OlderPage(all, lo, hi);
      first := if page == [] then lo else StartAfter(page, lo);
      lo := StartAfter(page, lo);
      entries := page + entries;
      added := |page|;
    }

    method Newer() returns (added: nat)
      requires Valid()
      modifies this
      ensures Valid() && lo == old(lo)
      ensures
        if old(hi) == |all| then hi == |all| && entries == old(entries) && added == 0
        else
          var page := PageFrom(all, old(hi));
          && hi == EndAfter(page, |all|) > old(hi) && entries == old(entries) + page && added == |page|
          && (Gapless() <==> page != [] || Shown(all, old(hi), |all|) == [])
    {
      if !HasNewer() {
        return 0;
      }
      hide Shown;
      var page := PageFrom(all, hi);
      NewerPage(all, lo, hi);
      last := if page == [] then hi else EndAfter(page, |all|);
      hi := EndAfter(page, |all|);
      entries := entries + page;
      added := |page|;
    }

    method JumpBottom()
      requires Indexed(all)
      modifies this
      ensures Valid() && Gapless() && hi == |all| && |all| - lo <= PAGE && entries == PageBefore(all, |all|)
    {
      entries := PageBefore(all, |all|);
      ShownStarts(all, Max(|all| - PAGE, 0) as nat, |all|);
      hi := |all|;
      lo := if entries == [] then |all| else entries[0].index;
      first, last := lo, hi;
    }

    method JumpTop()
      requires Indexed(all)
      modifies this
      ensures Valid() && Gapless() && lo == 0 && hi <= PAGE && entries == PageFrom(all, 0)
    {
      entries := PageFrom(all, 0);
      ShownEnds(all, 0, Min(PAGE, |all|) as nat);
      lo := 0;
      hi := if entries == [] then 0 else entries[|entries| - 1].index + 1;
      first, last := lo, hi;
    }
  }

  // ----- Lines

  /** The lines of entries, each drawn by `render` for a width. */
  function Lines<B>(render: (Entry<B>, nat) -> seq<Line>, entries: seq<Entry<B>>, width: nat): seq<Line> {
    if entries == [] then [] else render(entries[0], width) + Lines(render, entries[1..], width)
  }

  lemma {:induction false} LinesAppend<B>(render: (Entry<B>, nat) -> seq<Line>, a: seq<Entry<B>>, b: seq<Entry<B>>, width: nat)
    ensures Lines(render, a + b, width) == Lines(render, a, width) + Lines(render, b, width)
  {
    if a == [] {
      assert a + b == b;
    } else {
      LinesAppend(render, a[1..], b, width);
      assert (a + b)[1..] == a[1..] + b;
    }
  }

  /** How many lines a stretch of the transcript has. */
  ghost function Count<B>(render: (Entry<B>, nat) -> seq<Line>, all: seq<Entry<B>>, lo: nat, hi: nat, width: nat): nat
    requires lo <= hi <= |all|
  {
    |Lines(render, Shown(all, lo, hi), width)|
  }

  lemma CountSplits<B>(render: (Entry<B>, nat) -> seq<Line>, all: seq<Entry<B>>, lo: nat, mid: nat, hi: nat, width: nat)
    requires lo <= mid <= hi <= |all|
    ensures Count(render, all, lo, hi, width) == Count(render, all, lo, mid, width) + Count(render, all, mid, hi, width)
  {
    ShownSplits(all, lo, mid, hi);
    LinesAppend(render, Shown(all, lo, mid), Shown(all, mid, hi), width);
  }

  lemma {:induction false} LinesOfNone<B>(render: (Entry<B>, nat) -> seq<Line>, width: nat)
    ensures Lines(render, [], width) == []
  {
  }

  lemma {:induction false} LinesSnoc<B>(render: (Entry<B>, nat) -> seq<Line>, entries: seq<Entry<B>>, i: nat, width: nat)
    requires i < |entries|
    ensures Lines(render, entries[..i + 1], width) == Lines(render, entries[..i], width) + render(entries[i], width)
  {
    LinesAppend(render, entries[..i], [entries[i]], width);
    assert entries[..i + 1] == entries[..i] + [entries[i]];
    assert Lines(render, [entries[i]], width) == render(entries[i], width) + Lines(render, [], width);
  }

  /** A first line kept on the transcript, or at its end if the body is taller. */
  function Clamped(line: int, count: nat, height: nat): nat {
    Max(0, Min(line, Max(0, count - height))) as nat
  }

  lemma ClampedAtEnd(line: int, count: nat, height: nat)
    ensures Clamped(line, count, height) == Max(0, count - height) <==> line + height >= count || count <= height
  {
  }

  lemma CountOfNothing<B>(render: (Entry<B>, nat) -> seq<Line>, all: seq<Entry<B>>, at: nat, width: nat)
    requires at <= |all|
    ensures Count(render, all, at, at, width) == 0
  {
  }

  /** Keeping a line in the loaded stretch keeps it in the transcript, for a line that is not above the
      stretch and below which there is nothing or no need to look: exactly when the stretch fills the body
      or nothing stands above it. */
  lemma Lands(above: nat, loaded: nat, rest: nat, height: nat, line: int)
    requires line >= 0 || above == 0
    requires rest == 0 || (above == 0 && line <= Max(0, loaded - height))
    ensures
      above + Max(0, Min(line, Max(0, loaded - height))) == Clamped(above + line, above + loaded + rest, height)
      <==> loaded >= height || above == 0
  {
  }

  /** How the body moves over a transcript: `pre` and `post` lines are loaded in front of the `loaded0` and
      behind them. */
  lemma Moves(above0: nat, loaded0: nat, first0: nat, pre: nat, post: nat, above: nat, loaded: nat, rest: nat, height: nat,
              delta: int)
    requires above0 == above + pre && loaded == pre + loaded0 + post
    requires pre + first0 + delta >= 0 || above == 0
    requires rest == 0 || (above == 0 && pre + first0 + delta <= Max(0, loaded - height))
    requires (first0 + delta >= 0 ==> pre == 0) && (above0 > 0 ==> post == 0)
    ensures
      above + Clamped(pre + first0 + delta, loaded, height) == Clamped(above0 + first0 + delta, above + loaded + rest, height)
      <==> loaded >= height || above == 0
    ensures loaded0 >= height || above0 == 0 ==> loaded >= height || above == 0
    ensures !(loaded0 >= height || above0 == 0) && delta >= 0 ==> !(loaded >= height || above == 0)
  {
    Lands(above, loaded, rest, height, pre + first0 + delta);
  }

  /** Lines drawn for a width, and the window they were drawn from. */
  datatype Flat = Flat(width: nat, lo: nat, hi: nat, lines: seq<Line>)

  /** `DetailState`: what is scrolled, and its caches. */
  class DetailView<B> {
    const render: (Entry<B>, nat) -> seq<Line>
    const window: Window<B>
    /** The first visible line of the window; `None` pins the newest line to the bottom. */
    var top: Option<nat>
    var cache: map<(nat, nat), seq<Line>>
    var flat: Option<Flat>

    /** The lines are those of a stretch that a window `[lo, hi)` can show. */
    ghost predicate Drawn(f: Flat) {
      exists first, last :: Spans(window.all, f.lo, f.hi, first, last) && f.lines == Lines(render, Shown(window.all, first, last), f.width)
    }

    /** The caches hold what drawing again would give. They speak of the transcript and not of the
        window, so they stay right while another view scrolls the same window. */
    ghost predicate Valid()
      reads this
    {
      && (forall key :: key in cache ==> key.0 < |window.all| && cache[key] == render(window.all[key.0], key.1))
      && (flat.Some? ==> Drawn(flat.value))
    }

    /** If the lines were drawn from a window with the bounds of now, it showed what it does now. */
    ghost predicate Fresh()
      reads this, window
    {
      flat.Some? && flat.value.lo == window.lo && flat.value.hi == window.hi
      ==> flat.value.lines == Lines(render, window.entries, flat.value.width)
    }

    /** Which can only fail where a page of setup entries alone made a window leap, and never in a window
        that came to show all of its stretch by a jump. */
    lemma FlatIsFresh()
      requires Valid() && window.Valid()
      requires NoEmptyPage(window.all) || (window.Gapless() && (window.lo > 0 || window.hi < |window.all| || |window.all| <= PAGE))
      ensures Fresh()
    {
      hide Lines, Shown, NoEmptyPage;
      SpansShowAll(window.all, window.lo, window.hi, window.first, window.last);
      if flat.Some? && flat.value.lo == window.lo && flat.value.hi == window.hi {
        var first, last :| Spans(window.all, flat.value.lo, flat.value.hi, first, last)
                           && flat.value.lines == Lines(render, Shown(window.all, first, last), flat.value.width);
        SpansShowAll(window.all, flat.value.lo, flat.value.hi, first, last);
      }
    }

    constructor (render: (Entry<B>, nat) -> seq<Line>, window: Window<B>)
      ensures Valid() && Fresh() && this.render == render && this.window == window && top == None
    {
      this.render, this.window, top, cache, flat := render, window, None, map[], None;
    }

    ghost function Visible(width: nat): seq<Line>
      reads window
    {
      Lines(render, window.entries, width)
    }

    /** Lines for the width and the window's bounds are kept. */
    predicate Keeps(width: nat)
      reads this, window
    {
      flat.Some? && flat.value.width == width && flat.value.lo == window.lo && flat.value.hi == window.hi
    }

    /** `lines`: the kept lines, or all of the window's drawn. */
    method GetLines(width: nat) returns (out: seq<Line>)
      requires Valid() && window.Valid()
      modifies `cache, `flat
      ensures Valid() && out == if old(Keeps(width)) then old(flat).value.lines else Visible(width)
      ensures flat == Some(Flat(width, window.lo, window.hi, out))
      ensures old(Fresh()) ==> Fresh() && out == Visible(width)
    {
      hide Lines, Shown, NoEmptyPage, Spans;
      if flat.Some? && flat.value.width == width && flat.value.lo == window.lo && flat.value.hi == window.hi {
        return flat.value.lines;
      }
      out := [];
      LinesOfNone(render, width);
      var i := 0;
      while i < |window.entries|
        invariant i <= |window.entries| && Valid() && flat == old(flat)
        invariant out == Lines(render, window.entries[..i], width)
      {
        var entry := window.entries[i];
        EntryIsKnown(i);
        if (entry.index, width) !in cache {
          cache := cache[(entry.index, width) := render(entry, width)];
        }
        LinesSnoc(render, window.entries, i, width);
        out := out + cache[(entry.index, width)];
        i := i + 1;
      }
      assert window.entries[..i] == window.entries;
      WindowIsDrawn(Flat(width, window.lo, window.hi, out));
      flat := Some(Flat(width, window.lo, window.hi, out));
    }

    lemma WindowIsDrawn(f: Flat)
      requires window.Valid() && f.lo == window.lo && f.hi == window.hi && f.lines == Visible(f.width)
      ensures Drawn(f)
    {
      assert Spans(window.all, f.lo, f.hi, window.first, window.last);
    }

    lemma EntryIsKnown(i: nat)
      requires window.Valid() && i < |window.entries|
      ensures window.entries[i].index < |window.all| && window.entries[i] == window.all[window.entries[i].index]
    {
      ShownAt(window.all, window.first, window.last, i);
    }

    ghost function First(width: nat, height: nat): nat
      reads `top, window
    {
      var limit := Max(0, |Visible(width)| - height);
      if top == None then limit as nat else Min(top.value, limit) as nat
    }

    /** `first_line` */
    method FirstLine(width: nat, height: nat) returns (line: nat)
      requires Valid() && window.Valid()
      modifies `cache, `flat
      ensures Valid() && (old(Fresh()) ==> Fresh() && line == First(width, height))
    {
      hide Lines, Shown, NoEmptyPage, Spans, DetailView.Drawn;
      var lines := GetLines(width);
      var limit := Max(0, |lines| - height);
      line := if top == None then limit else Max(0, Min(top.value, limit));
    }

    /** How many lines the transcript has. */
    ghost function Total(width: nat): nat {
      Count(render, window.all, 0, |window.all|, width)
    }

    /** How many of them stand above the window. */
    ghost function Above(width: nat): nat
      requires window.Valid()
      reads window
    {
      Count(render, window.all, 0, window.lo, width)
    }

    /** The line of the whole transcript at the top of the body. */
    ghost function Absolute(width: nat, height: nat): nat
      requires window.Valid()
      reads `top, window
    {
      Above(width) + First(width, height)
    }

    /** The loaded lines fill the body, or nothing stands above them. */
    ghost predicate Fills(width: nat, height: nat)
      requires window.Valid()
      reads window
    {
      |Visible(width)| >= height || Above(width) == 0
    }

    /** One round of the first loop of `scroll`: an older page, and how many lines it adds. */
    method ReadOlder(width: nat) returns (added: int, ghost page: seq<Line>)
      requires Valid() && window.Valid() && window.lo > 0
      modifies `cache, `flat, window
      ensures Valid() && window.Valid() && Fresh() && window.hi == old(window.hi) && window.lo < old(window.lo)
      ensures Visible(width) == page + old(Visible(width)) && (old(Fresh()) ==> added == |page|)
      ensures window.Gapless() ==> old(Above(width)) == Above(width) + |page|
    {
      hide Lines, Shown, NoEmptyPage, Count, Spans, DetailView.Drawn;
      var lines := GetLines(width);
      ghost var lo := window.lo;
      OlderJoins(width);
      var _ := window.Older();
      page := Lines(render, PageBefore(window.all, lo), width);
      if window.Gapless() {
        AboveMoves(lo, width);
      }
      var more := GetLines(width);
      added := |more| - |lines|;
    }

    /** The first loop of `scroll`: older pages while the line is above the window; `pre` are their lines. */
    method ReachUp(line: int, width: nat) returns (at: int, ghost pre: seq<Line>)
      requires Valid() && window.Valid()
      modifies `cache, `flat, window
      ensures Valid() && window.Valid() && (old(Fresh()) ==> Fresh())
      ensures window.hi == old(window.hi) && window.lo <= old(window.lo)
      ensures old(Fresh()) ==> Visible(width) == pre + old(Visible(width)) && at == line + |pre|
      ensures window.Gapless() ==> old(Above(width)) == Above(width) + |pre|
      ensures at >= 0 || window.lo == 0
      ensures line >= 0 || old(window.lo) == 0 ==> at == line && window.lo == old(window.lo) && pre == []
    {
      hide *;
      at, pre := line, [];
      NothingInFront(width);
      while at < 0 && window.HasOlder()
        invariant Valid() && window.Valid() && (old(Fresh()) ==> Fresh())
        invariant window.hi == old(window.hi) && window.lo <= old(window.lo)
        invariant Visible(width) == pre + old(Visible(width)) && (old(Fresh()) ==> at == line + |pre|)
        invariant window.Gapless() ==> old(Above(width)) == Above(width) + |pre|
        invariant line >= 0 || old(window.lo) == 0 ==> at == line && window.lo == old(window.lo) && pre == []
        decreases window.lo
      {
        OlderMeans();
        OlderJoins(width);
        var added, page := ReadOlder(width);
        at := at + added;
        pre := page + pre;
      }
      OlderMeans();
    }

    lemma OlderMeans()
      ensures window.HasOlder() <==> window.lo > 0
    {
    }

    lemma NothingInFront(width: nat)
      ensures Visible(width) == [] + Visible(width)
    {
    }

    /** A window that has older entries shows all of its stretch; the page before it comes in front. */
    lemma {:induction false} OlderJoins(width: nat)
      requires window.Valid() && window.lo > 0
      ensures window.Gapless()
      ensures Lines(render, PageBefore(window.all, window.lo) + window.entries, width)
              == Lines(render, PageBefore(window.all, window.lo), width) + Visible(width)
    {
      hide Lines, Shown, NoEmptyPage;
      SpansShowAll(window.all, window.lo, window.hi, window.first, window.last);
      LinesAppend(render, PageBefore(window.all, window.lo), window.entries, width);
    }

    /** What comes in front without a gap are the lines between. */
    lemma {:induction false} AboveMoves(lo: nat, width: nat)
      requires window.Valid() && window.lo < lo <= window.hi && window.lo == StartAfter(PageBefore(window.all, lo), lo)
      requires PageBefore(window.all, lo) != [] || Shown(window.all, 0, lo) == []
      ensures Count(render, window.all, 0, lo, width) == Above(width) + |Lines(render, PageBefore(window.all, lo), width)|
    {
      hide Lines, NoEmptyPage;
      ShownStarts(window.all, Max(lo - PAGE, 0) as nat, lo);
      ShownSplits(window.all, 0, window.lo, lo);
      CountSplits(render, window.all, 0, window.lo, lo, width);
    }

    /** What is loaded, where the window shows all of its stretch. */
    lemma LoadedIs(width: nat)
      requires window.Valid()
      ensures window.Gapless() ==> |Visible(width)| == Count(render, window.all, window.lo, window.hi, width)
      ensures NoEmptyPage(window.all) || window.lo > 0 || window.hi < |window.all| ==> window.Gapless()
    {
      hide Lines, Shown, NoEmptyPage;
      SpansShowAll(window.all, window.lo, window.hi, window.first, window.last);
    }

    /** The second loop of `scroll`: newer pages while the body reaches past the window; `post` are their
        lines. */
    method ReachDown(at: int, delta: int, width: nat, height: nat) returns (ghost post: seq<Line>)
      requires Valid() && window.Valid()
      modifies `cache, `flat, window
      ensures Valid() && window.Valid() && (old(Fresh()) ==> Fresh())
      ensures window.lo == old(window.lo) && window.hi >= old(window.hi) && Above(width) == old(Above(width))
      ensures old(Fresh()) ==> Visible(width) == old(Visible(width)) + post
      ensures old(window.hi) == |window.all| ==> post == []
      ensures
        if delta > 0 then old(Fresh()) ==> !window.HasNewer() || at + height < |Visible(width)|
        else window.hi == old(window.hi) && post == []
      ensures old(Fresh()) && at + height < old(|Visible(width)|) ==> window.hi == old(window.hi) && post == []
      ensures window.Gapless() ==> old(window.Gapless())
    {
      hide Lines, Shown, NoEmptyPage, Count, Spans, DetailView.Drawn;
      post := [];
      var lines := GetLines(width);
      assert Visible(width) == old(Visible(width)) + post;
      while delta > 0 && window.HasNewer() && at + height >= |lines|
        invariant Valid() && window.Valid() && (old(Fresh()) ==> Fresh() && |lines| == |Visible(width)|)
        invariant window.lo == old(window.lo) && window.hi >= old(window.hi)
        invariant Visible(width) == old(Visible(width)) + post
        invariant delta <= 0 || old(window.hi) == |window.all| ==> window.hi == old(window.hi) && post == []
        invariant old(Fresh()) && at + height < old(|Visible(width)|) ==> window.hi == old(window.hi) && post == []
        invariant flat.Some? && flat.value.hi == window.hi && (window.Gapless() ==> old(window.Gapless()))
        decreases |window.all| - window.hi
      {
        ghost var hi, shown := window.hi, Visible(width);
        NewerJoins(width);
        var _ := window.Newer();
        ghost var page := Lines(render, PageFrom(window.all, hi), width);
        assert Visible(width) == shown + page;
        lines := GetLines(width);
        post := post + page;
      }
    }

    lemma {:induction false} NewerJoins(width: nat)
      requires window.Valid() && window.hi < |window.all|
      ensures window.Gapless()
      ensures Lines(render, window.entries + PageFrom(window.all, window.hi), width)
              == Visible(width) + Lines(render, PageFrom(window.all, window.hi), width)
    {
      hide Lines, Shown, NoEmptyPage;
      SpansShowAll(window.all, window.lo, window.hi, window.first, window.last);
      LinesAppend(render, window.entries, PageFrom(window.all, window.hi), width);
    }

    /** `scroll`: pages are loaded in front of the lines and behind them, and over all of these the body
        moves by `delta`, kept on them. Where the window then shows all of its stretch, the body moves as
        if the whole transcript were there, exactly when the lines loaded in the end fill it or nothing
        stands above them. That is so if it was so before; and if it was not, the loaded lines stay short
        when the body moves down. */
    method Scroll(delta: int, width: nat, height: nat) returns (ghost pre: seq<Line>, ghost post: seq<Line>)
      requires Valid() && window.Valid()
      modifies this, window
      ensures Valid() && window.Valid() && (old(Fresh()) ==> Fresh())
      ensures window.lo <= old(window.lo) && old(window.hi) <= window.hi
      ensures
        old(Fresh()) ==>
          && Visible(width) == pre + old(Visible(width)) + post
          && First(width, height) == Clamped(|pre| + old(First(width, height)) + delta, |Visible(width)|, height)
      ensures old(Fresh()) && old(First(width, height)) + delta >= 0 ==> window.lo == old(window.lo) && pre == []
      ensures
        old(Fresh()) && (delta <= 0 || old(First(width, height)) + delta + height < old(|Visible(width)|)) ==>
          window.hi == old(window.hi) && post == []
      ensures
        old(Fresh()) ==>
          (top == None <==> window.hi == |window.all| && First(width, height) == Max(0, |Visible(width)| - height))
      ensures
        old(Fresh()) && window.Gapless() ==>
          && (Absolute(width, height) == Clamped(old(Absolute(width, height)) + delta, Total(width), height)
              <==> Fills(width, height))
          && (old(Fills(width, height)) ==> Fills(width, height))
          && (!old(Fills(width, height)) && delta >= 0 ==> !Fills(width, height))
    {
      hide *;
      ghost var loaded0, above0 := |Visible(width)|, Above(width);
      WindowIs();
      Stretches(width);
      FirstIsWithin(width, height);
      FillsMeans(width, height);
      var first := FirstLine(width, height);
      var at;
      at, pre := ReachUp(first + delta, width);
      post := ReachDown(at, delta, width, height);
      var lines := GetLines(width);
      LoadedIs(width);
      WindowIs();
      NewerMeans();
      Stretches(width);
      Place(at, |lines|, width, height);
      ClampedAtEnd(at, |lines|, height);
      FillsMeans(width, height);
      if old(Fresh()) && window.Gapless() {
        var rest := Count(render, window.all, window.hi, |window.all|, width);
        MaxIs(loaded0 - height);
        MaxIs(|lines| - height);
        Moves(above0, loaded0, first, |pre|, |post|, Above(width), |lines|, rest, height, delta);
      }
    }

    /** The end of `scroll`: the line kept on the loaded lines, or pinned to the bottom. */
    method Place(line: int, count: nat, width: nat, height: nat)
      requires Valid() && window.Valid()
      modifies `top
      ensures Valid() && (old(Fresh()) ==> Fresh())
      ensures Visible(width) == old(Visible(width)) && Above(width) == old(Above(width))
      ensures count == |Visible(width)| ==> First(width, height) == Clamped(line, count, height)
      ensures top == None <==> (line + height >= count || count <= height) && window.hi == |window.all|
    {
      hide Lines, Shown, NoEmptyPage, Count, Spans, DetailView.Drawn;
      WindowIs();
      ClampedAtEnd(line, count, height);
      var limit := Max(0, count - height);
      var at := Max(0, Min(line, limit));
      top := if at >= limit && !window.HasNewer() then None else Some(at);
    }

    lemma FirstIsWithin(width: nat, height: nat)
      ensures First(width, height) <= Max(0, |Visible(width)| - height) && Max(0, |Visible(width)| - height) >= 0
    {
    }

    lemma FillsMeans(width: nat, height: nat)
      requires window.Valid()
      ensures Fills(width, height) <==> |Visible(width)| >= height || Above(width) == 0
      ensures Absolute(width, height) == Above(width) + First(width, height)
    {
    }

    lemma NewerMeans()
      requires window.Valid()
      ensures window.HasNewer() <==> window.hi < |window.all|
    {
    }

    lemma MaxIs(n: int)
      ensures Max(0, n) == if n < 0 then 0 else n
    {
    }

    lemma WindowIs()
      requires window.Valid()
      ensures window.lo <= window.hi <= |window.all| && (window.lo == 0 || window.hi == |window.all|)
    {
    }

    /** The loaded stretch and what is above and below it make up the transcript. */
    lemma Stretches(width: nat)
      requires window.Valid()
      ensures
        Total(width)
        == Above(width) + Count(render, window.all, window.lo, window.hi, width) + Count(render, window.all, window.hi, |window.all|, width)
      ensures window.lo == 0 ==> Above(width) == 0
      ensures window.hi == |window.all| ==> Count(render, window.all, window.hi, |window.all|, width) == 0
    {
      hide Lines, NoEmptyPage;
      CountSplits(render, window.all, 0, window.lo, |window.all|, width);
      CountSplits(render, window.all, window.lo, window.hi, |window.all|, width);
      CountOfNothing(render, window.all, 0, width);
      CountOfNothing(render, window.all, |window.all|, width);
    }

    /** `jump` */
    method Jump(toTop: bool, width: nat, height: nat)
      requires Valid() && window.Valid()
      modifies this, window
      ensures Valid() && window.Valid() && window.Gapless() && Fresh()
      ensures toTop ==> Absolute(width, height) == 0
      ensures !toTop ==> (Absolute(width, height) == Max(0, Total(width) - height) <==> Fills(width, height))
    {
      hide Lines, Shown;
      if toTop {
        window.JumpTop();
        top := Some(0);
        CountOfNothing(render, window.all, 0, width);
      } else {
        window.JumpBottom();
        CountSplits(render, window.all, 0, window.lo, window.hi, width);
        top := None;
      }
      FlatIsFresh();
    }
  }

  /** An entry on screen is the transcript's entry of its own index. */
  lemma {:induction false} ShownAt<B>(all: seq<Entry<B>>, lo: nat, hi: nat, i: nat)
    requires lo <= hi <= |all| && Indexed(all) && i < |Shown(all, lo, hi)|
    ensures
      var entry := Shown(all, lo, hi)[i];
      lo <= entry.index < hi && entry == all[entry.index] && !entry.setup
    decreases hi - lo
  {
    if all[lo].setup {
      ShownAt(all, lo + 1, hi, i);
    } else if i > 0 {
      ShownAt(all, lo + 1, hi, i - 1);
    }
  }
}
