/** The section loop of the parser, run on printed sections: it gives the sections back. */
module SectionLoop {
  import opened Options
  import opened PyText
  import opened ChangelogHeadings
  import opened ChangelogNotes
  import opened AcceptedNotes

  // ----- Headings

  /** A line that nothing in the scanner reacts to. */
  predicate IsInert(line: string) {
    && line != [] && line[0] == '#' && !IsSpace(line[|line| - 1])
    && forall i :: 0 <= i < |line| ==> line[i] != '`' && line[i] != '<'
  }

  /** A section name is letters and blanks between letters. */
  predicate IsNameLike(name: string) {
    && name != [] && !IsSpace(name[0]) && !IsSpace(name[|name| - 1])
    && forall i :: 0 <= i < |name| ==> name[i] == ' ' || 'A' <= name[i] <= 'Z' || 'a' <= name[i] <= 'z'
  }

  lemma SectionNamesAreNames()
    ensures forall name :: name in SECTION_ORDER ==> IsNameLike(name)
  {
    forall k | 0 <= k < |SECTION_ORDER| ensures IsNameLike(SECTION_ORDER[k]) {}
  }

  function SectionHeading(name: string): string {
    "### " + name
  }

  lemma HeadingOfPrefix(level: nat, hashes: string, title: string)
    requires 1 <= level <= 6 && |hashes| == level && forall i :: 0 <= i < level ==> hashes[i] == '#'
    requires title != [] && !IsSpace(title[0]) && !IsSpace(title[|title| - 1])
    ensures HeadingOf(hashes + [' '] + title) == Some(Heading(level, title))
  {
    var s := hashes + [' '] + title;
    LeadOfPrefix(level, '#', s);
    assert s[level..] == [' '] + title;
    assert ([' '] + title)[1..] == title;
    assert LStrip([' '] + title) == title;
  }

  lemma SectionHeadingFacts(name: string)
    requires IsNameLike(name)
    ensures IsInert(SectionHeading(name))
    ensures HeadingOf(SectionHeading(name)) == Some(Heading(3, name))
    ensures Strip(SectionHeading(name)) == SectionHeading(name)
    ensures !LeftoverPlaceholder(SectionHeading(name))
  {
    var s := SectionHeading(name);
    assert s == "###" + [' '] + name;
    HeadingOfPrefix(3, "###", name);
    assert IsInert(s);
    RStripStripped(s);
    HeadingIsStripped(s);
    InertIsNoPlaceholder(s);
  }

  lemma InertIsNoPlaceholder(s: string)
    requires IsInert(s)
    ensures !LeftoverPlaceholder(s)
  {
    assert !StartsWith(s, "- ");
    assert Fold(s[0]) == '#';
  }

  // ----- The states of the loop

  /** The states of the section loop, one before each line and one at the end. */
  ghost predicate IsTrace(tr: seq<State>, visible: seq<string>, clean: seq<string>, first: nat) {
    && |visible| == |clean| && |tr| == |visible| + 1 && tr[0] == START
    && forall i :: 0 <= i < |visible| ==> Follows(tr, visible, clean, first, i)
  }

  ghost predicate Follows(tr: seq<State>, visible: seq<string>, clean: seq<string>, first: nat, i: nat)
    requires i < |visible| == |clean| && |tr| == |visible| + 1
  {
    tr[i + 1] == Step(tr[i], visible[i], clean[i], first + i)
  }

  lemma {:induction false} TraceOf(visible: seq<string>, clean: seq<string>, first: nat) returns (tr: seq<State>)
    requires |visible| == |clean|
    ensures IsTrace(tr, visible, clean, first) && tr[|visible|] == Steps(START, visible, clean, first)
  {
    hide Step;
    if visible == [] {
      tr := [START];
    } else {
      var n := |visible| - 1;
      var front := TraceOf(visible[..n], clean[..n], first);
      tr := front + [Step(front[n], visible[n], clean[n], first + n)];
      ExtendTrace(front, tr, visible, clean, first);
    }
  }

  lemma ExtendTrace(front: seq<State>, tr: seq<State>, visible: seq<string>, clean: seq<string>, first: nat)
    requires |visible| == |clean| > 0
    requires IsTrace(front, visible[..|visible| - 1], clean[..|visible| - 1], first)
    requires |tr| == |visible| + 1 && tr[..|visible|] == front && Follows(tr, visible, clean, first, |visible| - 1)
    ensures IsTrace(tr, visible, clean, first)
  {
    hide Step;
    var n := |visible| - 1;
    assert tr[0] == tr[..|visible|][0];
    forall i | 0 <= i < n ensures Follows(tr, visible, clean, first, i) {
      assert Follows(front, visible[..n], clean[..n], first, i);
      assert tr[i] == tr[..|visible|][i] && tr[i + 1] == tr[..|visible|][i + 1];
    }
  }

  /** A section has just been opened. */
  predicate JustOpened(st: State) {
    st.name.Some? && st.body == [] && !st.started && !st.hasBullet && !st.unknown
  }

  lemma BulletFirstPrefix(visible: seq<string>, n: nat)
    requires n <= |visible| && (BulletFirst(visible) || AllBlank(visible))
    ensures BulletFirst(visible[..n]) || AllBlank(visible[..n])
  {
    if !AllBlank(visible) {
      var at :| 0 <= at < |visible| && StartsWith(Strip(visible[at]), "- ") && BlankTo(visible, at);
      if at < n {
        assert visible[..n][at] == visible[at] && BlankTo(visible[..n], at);
      }
    }
  }

  /** After blank lines only a bullet can come first. */
  lemma FirstIsBullet(visible: seq<string>, n: nat)
    requires n < |visible| && BulletFirst(visible) && BlankTo(visible, n) && Strip(visible[n]) != []
    ensures StartsWith(Strip(visible[n]), "- ")
  {
    var at :| 0 <= at < |visible| && StartsWith(Strip(visible[at]), "- ") && BlankTo(visible, at);
    assert Strip(visible[at]) != [];
  }

  /** The loop, having opened a section in state `open`, has gathered these lines. */
  ghost predicate Gathered(open: State, st: State, lines: seq<string>, text: bool) {
    && st.sections == open.sections && st.seen == open.seen && st.name == open.name && st.problems == open.problems
    && st.body == lines && st.started == text && st.hasBullet == text && !st.unknown
  }

  lemma GatherLine(open: State, st: State, visible: seq<string>, lines: seq<string>, n: nat, line: nat)
    requires JustOpened(open) && n < |visible| == |lines|
    requires Gathered(open, st, lines[..n], !BlankTo(visible, n))
    requires IsPlain(visible[n]) && BulletFirst(visible)
    ensures Gathered(open, Step(st, visible[n], lines[n], line), lines[..n + 1], !BlankTo(visible, n + 1))
  {
    assert lines[..n + 1] == lines[..n] + [lines[n]];
    if Strip(visible[n]) != [] && BlankTo(visible, n) {
      FirstIsBullet(visible, n);
    }
  }

  /** The views `views` and lines `lines` stand at position `p`. */
  ghost predicate StandAt(visible: seq<string>, clean: seq<string>, p: nat, views: seq<string>, lines: seq<string>) {
    && |views| == |lines| && p + |lines| <= |visible| == |clean|
    && forall i :: 0 <= i < |lines| ==> visible[p + i] == views[i] && clean[p + i] == lines[i]
  }

  /** The loop gathers the lines of a good body as they are. */
  lemma {:induction false} BodyTrace(tr: seq<State>, visible: seq<string>, clean: seq<string>, first: nat,
                                     p: nat, views: seq<string>, lines: seq<string>, j: nat)
    requires IsTrace(tr, visible, clean, first) && StandAt(visible, clean, p, views, lines) && j <= |lines|
    requires JustOpened(tr[p]) && GoodText(views)
    ensures Gathered(tr[p], tr[p + j], lines[..j], !BlankTo(views, j))
  {
    hide Step, Strip;
    if j > 0 {
      BodyTrace(tr, visible, clean, first, p, views, lines, j - 1);
      assert Follows(tr, visible, clean, first, p + (j - 1));
      GatherLine(tr[p], tr[p + (j - 1)], views, lines, j - 1, first + (p + (j - 1)));
    }
  }

  /** The state inside the last of the given sections, all its lines read. */
  ghost predicate Inside(st: State, sections: seq<Section>) {
    && sections != []
    && var last := sections[|sections| - 1];
       && st.sections == sections[..|sections| - 1] && st.seen == SectionNames(sections)
       && st.name == Some(last.name) && st.body == last.lines
       && st.started && st.hasBullet && !st.unknown && st.problems == []
  }

  lemma TrimOfGood(lines: seq<string>)
    requires GoodEnds(lines)
    ensures Trim(lines) == lines && Trim(lines + [[]]) == lines
  {
    assert (lines + [[]])[0] == lines[0];
    assert (lines + [[]])[..|lines|] == lines;
    assert Strip([]) == [];
  }

  /** A blank line and the next section's heading close a section and open the next. */
  lemma NextSection(st: State, sections: seq<Section>, name: string, blankLine: nat, line: nat)
    requires Inside(st, sections) && GoodEnds(sections[|sections| - 1].lines)
    requires name in SECTION_ORDER && name !in SectionNames(sections)
    ensures
      var next := Step(Step(st, [], [], blankLine), SectionHeading(name), SectionHeading(name), line);
      && JustOpened(next) && next.sections == sections && next.seen == SectionNames(sections) + [name]
      && next.name == Some(name) && next.problems == []
  {
    var last := sections[|sections| - 1];
    TrimOfGood(last.lines);
    SectionNamesAreNames();
    SectionHeadingFacts(name);
    var blank := Step(st, [], [], blankLine);
    assert Strip([]) == [];
    assert blank == st.(body := last.lines + [[]]);
    assert sections == sections[..|sections| - 1] + [last];
    assert Finish(blank).sections == sections;
  }

  lemma BodyIsNotBlank(visible: seq<string>)
    requires BulletFirst(visible)
    ensures !AllBlank(visible)
  {
    var at :| 0 <= at < |visible| && StartsWith(Strip(visible[at]), "- ") && BlankTo(visible, at);
    assert Strip(visible[at]) != [];
  }

  lemma NamesOfFront(sections: seq<Section>)
    requires sections != []
    ensures
      var n := |sections| - 1;
      && SectionNames(sections[..n]) == SectionNames(sections)[..n]
      && SectionNames(sections) == SectionNames(sections[..n]) + [sections[n].name]
  {}

  lemma FrontIsDistinct(names: seq<string>, last: string)
    requires Distinct(names + [last])
    ensures Distinct(names) && last !in names
  {
    var all := names + [last];
    forall i | 0 <= i < |names| ensures names[i] != last {
      assert all[i] != all[|names|];
    }
    forall i, j | 0 <= i < j < |names| ensures names[i] != names[j] {
      assert all[i] != all[j];
    }
  }

  // ----- Printed sections and what the scanner shows of them

  /** A section with the visible view of its lines. */
  datatype Shown = Shown(section: Section, views: seq<string>)

  ghost predicate GoodShown(shown: Shown) {
    && shown.section.name in SECTION_ORDER && |shown.views| == |shown.section.lines|
    && GoodEnds(shown.section.lines) && GoodText(shown.views)
  }

  ghost predicate AllGoodShown(shown: seq<Shown>) {
    && shown != [] && Distinct(SectionNames(SectionsOf(shown)))
    && forall i :: 0 <= i < |shown| ==> GoodShown(shown[i])
  }

  function SectionsOf(shown: seq<Shown>): (sections: seq<Section>)
    ensures |sections| == |shown|
  {
    seq(|shown|, i requires 0 <= i < |shown| => shown[i].section)
  }

  /** The blank line before every section but the first. */
  function Gap(n: nat): seq<string> {
    if n > 0 then [[]] else []
  }

  /** The visible view of printed sections. */
  function ShowViews(shown: seq<Shown>): seq<string> {
    if shown == [] then []
    else
      var n := |shown| - 1;
      ShowViews(shown[..n]) + Gap(n) + ([SectionHeading(shown[n].section.name)] + shown[n].views)
  }

  /** The lines of printed sections. */
  function ShowLines(shown: seq<Shown>): seq<string> {
    if shown == [] then []
    else
      var n := |shown| - 1;
      ShowLines(shown[..n]) + Gap(n) + ([SectionHeading(shown[n].section.name)] + shown[n].section.lines)
  }

  lemma {:induction false} SameLength(shown: seq<Shown>)
    requires forall i :: 0 <= i < |shown| ==> GoodShown(shown[i])
    ensures |ShowViews(shown)| == |ShowLines(shown)|
  {
    if shown != [] {
      SameLength(shown[..|shown| - 1]);
    }
  }

  lemma FrontOfShown(shown: seq<Shown>)
    requires AllGoodShown(shown)
    ensures
      var n := |shown| - 1;
      && SectionsOf(shown)[..n] == SectionsOf(shown[..n]) && SectionsOf(shown)[n] == shown[n].section
      && (n > 0 ==> AllGoodShown(shown[..n]) && shown[n].section.name !in SectionNames(SectionsOf(shown[..n])))
      && SectionNames(SectionsOf(shown)) == SectionNames(SectionsOf(shown[..n])) + [shown[n].section.name]
  {
    hide GoodShown;
    var n := |shown| - 1;
    assert SectionsOf(shown)[..n] == SectionsOf(shown[..n]);
    NamesOfFront(SectionsOf(shown));
    FrontIsDistinct(SectionNames(SectionsOf(shown[..n])), shown[n].section.name);
  }

  lemma PartsStand(front: seq<string>, gap: seq<string>, heading: string, body: seq<string>, all: seq<string>)
    requires front + gap + ([heading] + body) <= all
    ensures
      var q := |front| + |gap|;
      && front <= all && q + 1 + |body| <= |all|
      && (forall i :: 0 <= i < |gap| ==> all[|front| + i] == gap[i])
      && all[q] == heading
      && (forall i :: 0 <= i < |body| ==> all[q + 1 + i] == body[i])
  {
    var parts := front + gap + ([heading] + body);
    assert forall i :: 0 <= i < |parts| ==> all[i] == parts[i];
    assert forall i :: 0 <= i < |front| ==> all[i] == front[i];
    forall i | 0 <= i < |body| ensures all[|front| + |gap| + 1 + i] == body[i] {
      assert parts[|front| + |gap| + 1 + i] == body[i];
    }
  }

  lemma {:induction false} LastShown(shown: seq<Shown>)
    requires shown != []
    ensures
      var n := |shown| - 1;
      var heading := SectionHeading(shown[n].section.name);
      && ShowViews(shown) == ShowViews(shown[..n]) + Gap(n) + ([heading] + shown[n].views)
      && ShowLines(shown) == ShowLines(shown[..n]) + Gap(n) + ([heading] + shown[n].section.lines)
  {
    hide SectionHeading, Gap;
  }

  /** Where the parts of the last section stand. */
  lemma LastStands(shown: seq<Shown>, visible: seq<string>, clean: seq<string>)
    requires shown != [] && GoodShown(shown[|shown| - 1]) && |ShowViews(shown[..|shown| - 1])| == |ShowLines(shown[..|shown| - 1])|
    requires ShowViews(shown) <= visible && ShowLines(shown) <= clean && |visible| == |clean|
    ensures
      var n := |shown| - 1;
      var heading := SectionHeading(shown[n].section.name);
      var p := |ShowLines(shown[..n])|;
      var q := p + |Gap(n)|;
      && ShowViews(shown[..n]) <= visible && ShowLines(shown[..n]) <= clean
      && |ShowLines(shown)| == q + 1 + |shown[n].views|
      && (n > 0 ==> visible[p] == [] && clean[p] == [])
      && q < |visible| && visible[q] == heading && clean[q] == heading
      && StandAt(visible, clean, q + 1, shown[n].views, shown[n].section.lines)
  {
    hide ShowViews, ShowLines, SectionHeading, GoodEnds, GoodText;
    var n := |shown| - 1;
    var heading := SectionHeading(shown[n].section.name);
    LastShown(shown);
    PartsStand(ShowViews(shown[..n]), Gap(n), heading, shown[n].views, visible);
    PartsStand(ShowLines(shown[..n]), Gap(n), heading, shown[n].section.lines, clean);
    if n > 0 {
      GapStands(visible, |ShowViews(shown[..n])|);
      GapStands(clean, |ShowLines(shown[..n])|);
    }
  }

  lemma GapStands(all: seq<string>, p: nat)
    requires p < |all| && forall i :: 0 <= i < |Gap(1)| ==> all[p + i] == Gap(1)[i]
    ensures all[p] == []
  {
    assert all[p + 0] == Gap(1)[0];
  }

  /** The section `name` has just been opened behind the given ones. */
  ghost predicate OpenedAfter(st: State, done: seq<Section>, name: string) {
    && JustOpened(st) && st.sections == done && st.seen == SectionNames(done) + [name]
    && st.name == Some(name) && st.problems == []
  }

  lemma OpenFirst(name: string, line: nat)
    requires name in SECTION_ORDER
    ensures OpenedAfter(Step(START, SectionHeading(name), SectionHeading(name), line), [], name)
  {
    SectionNamesAreNames();
    SectionHeadingFacts(name);
  }

  lemma OpenNext(st: State, sections: seq<Section>, name: string, blankLine: nat, line: nat)
    requires Inside(st, sections) && GoodEnds(sections[|sections| - 1].lines)
    requires name in SECTION_ORDER && name !in SectionNames(sections)
    ensures OpenedAfter(Step(Step(st, [], [], blankLine), SectionHeading(name), SectionHeading(name), line), sections, name)
  {
    NextSection(st, sections, name, blankLine, line);
  }

  lemma ReadSection(tr: seq<State>, visible: seq<string>, clean: seq<string>, first: nat, p: nat, shown: Shown, done: seq<Section>)
    requires IsTrace(tr, visible, clean, first) && GoodShown(shown)
    requires StandAt(visible, clean, p, shown.views, shown.section.lines)
    requires OpenedAfter(tr[p], done, shown.section.name)
    ensures Inside(tr[p + |shown.views|], done + [shown.section])
  {
    var lines := shown.section.lines;
    BodyTrace(tr, visible, clean, first, p, shown.views, lines, |lines|);
    BodyIsNotBlank(shown.views);
    assert lines[..|lines|] == lines;
    NamesOfFront(done + [shown.section]);
    assert (done + [shown.section])[..|done|] == done;
  }

  lemma GoodEndsOfLast(shown: seq<Shown>)
    requires AllGoodShown(shown)
    ensures GoodEnds(SectionsOf(shown)[|shown| - 1].lines)
  {
    assert GoodShown(shown[|shown| - 1]);
  }

  lemma NextTrace(tr: seq<State>, visible: seq<string>, clean: seq<string>, first: nat, p: nat, done: seq<Section>, name: string)
    requires IsTrace(tr, visible, clean, first) && p + 1 < |visible|
    requires Inside(tr[p], done) && GoodEnds(done[|done| - 1].lines)
    requires visible[p] == [] && clean[p] == []
    requires visible[p + 1] == SectionHeading(name) && clean[p + 1] == SectionHeading(name)
    requires name in SECTION_ORDER && name !in SectionNames(done)
    ensures OpenedAfter(tr[p + 2], done, name)
  {
    assert Follows(tr, visible, clean, first, p);
    assert Follows(tr, visible, clean, first, p + 1);
    OpenNext(tr[p], done, name, first + p, first + (p + 1));
  }

  lemma FirstTrace(tr: seq<State>, visible: seq<string>, clean: seq<string>, first: nat, name: string)
    requires IsTrace(tr, visible, clean, first) && |visible| > 0 && name in SECTION_ORDER
    requires visible[0] == clean[0] == SectionHeading(name)
    ensures OpenedAfter(tr[1], [], name)
  {
    hide Step, OpenedAfter;
    assert Follows(tr, visible, clean, first, 0);
    OpenFirst(name, first);
  }

  /** One printed section behind the ones already read. */
  lemma ReadNext(tr: seq<State>, visible: seq<string>, clean: seq<string>, first: nat, p: nat, q: nat,
                 done: seq<Section>, next: Shown, e: nat, all: seq<Section>)
    requires IsTrace(tr, visible, clean, first) && GoodShown(next) && q < |visible|
    requires e == q + 1 + |next.views| && all != [] && all[..|all| - 1] == done && all[|all| - 1] == next.section
    requires q == (if done == [] then 0 else p + 1)
    requires done != [] ==> Inside(tr[p], done) && GoodEnds(done[|done| - 1].lines) && visible[p] == clean[p] == []
    requires next.section.name !in SectionNames(done)
    requires visible[q] == clean[q] == SectionHeading(next.section.name)
    requires StandAt(visible, clean, q + 1, next.views, next.section.lines)
    ensures Inside(tr[e], all)
  {
    hide Inside, OpenedAfter, GoodEnds, GoodText, HeadingOf, Strip, Distinct, Follows, Step;
    var name := next.section.name;
    if done == [] {
      FirstTrace(tr, visible, clean, first, name);
    } else {
      NextTrace(tr, visible, clean, first, p, done, name);
    }
    ReadSection(tr, visible, clean, first, q + 1, next, done);
    InsideSame(tr[e], all, done, next.section);
  }

  /** Reading printed sections ends inside the last one, all before it gathered. */
  lemma {:induction false} SectionsTrace(tr: seq<State>, visible: seq<string>, clean: seq<string>, first: nat, shown: seq<Shown>)
    requires IsTrace(tr, visible, clean, first) && AllGoodShown(shown)
    requires ShowViews(shown) <= visible && ShowLines(shown) <= clean
    ensures |ShowLines(shown)| <= |visible| && Inside(tr[|ShowLines(shown)|], SectionsOf(shown))
  {
    hide Step, Inside, StandAt, Follows, GoodEnds, GoodText, Distinct, SectionHeading;
    var n := |shown| - 1;
    var p := |ShowLines(shown[..n])|;
    SameLength(shown[..n]);
    LastStands(shown, visible, clean);
    FrontOfShown(shown);
    if n > 0 {
      SectionsTrace(tr, visible, clean, first, shown[..n]);
      GoodEndsOfLast(shown[..n]);
    }
    ReadNext(tr, visible, clean, first, p, p + |Gap(n)|, SectionsOf(shown[..n]), shown[n],
             |ShowLines(shown)|, SectionsOf(shown));
  }

  lemma InsideSame(st: State, all: seq<Section>, front: seq<Section>, last: Section)
    requires all != [] && all[..|all| - 1] == front && all[|all| - 1] == last
    requires Inside(st, front + [last])
    ensures Inside(st, all)
  {
    assert all == front + [last];
  }

  lemma {:induction false} StepsOfShown(shown: seq<Shown>, first: nat)
    requires AllGoodShown(shown)
    ensures |ShowViews(shown)| == |ShowLines(shown)|
    ensures Inside(Steps(START, ShowViews(shown), ShowLines(shown), first), SectionsOf(shown))
  {
    SameLength(shown);
    var tr := TraceOf(ShowViews(shown), ShowLines(shown), first);
    SectionsTrace(tr, ShowViews(shown), ShowLines(shown), first, shown);
  }

  // ----- The checks on printed sections

  /** A visible line of a printed section. */
  ghost predicate IsSectionLine(visible: string) {
    IsPlain(visible) || exists name :: name in SECTION_ORDER && visible == SectionHeading(name)
  }

  lemma HeadAndViews(shown: Shown)
    requires GoodShown(shown)
    ensures
      var views := [SectionHeading(shown.section.name)] + shown.views;
      forall i :: 0 <= i < |views| ==> IsSectionLine(views[i])
  {
    assert IsSectionLine(SectionHeading(shown.section.name));
  }

  lemma GapLines(n: nat)
    ensures forall i :: 0 <= i < |Gap(n)| ==> IsSectionLine(Gap(n)[i])
  {
    assert Strip([]) == [];
  }

  ghost predicate AllSectionLines(views: seq<string>) {
    forall i :: 0 <= i < |views| ==> IsSectionLine(views[i])
  }

  lemma SectionLinesInARow(a: seq<string>, b: seq<string>)
    requires AllSectionLines(a) && AllSectionLines(b)
    ensures AllSectionLines(a + b)
  {}

  lemma {:induction false} ShownLines(shown: seq<Shown>)
    requires forall i :: 0 <= i < |shown| ==> GoodShown(shown[i])
    ensures AllSectionLines(ShowViews(shown))
    ensures shown != [] ==> ShowViews(shown) != [] && ShowViews(shown)[0] == SectionHeading(shown[0].section.name)
  {
    if shown != [] {
      var n := |shown| - 1;
      ShownLines(shown[..n]);
      HeadAndViews(shown[n]);
      GapLines(n);
      var body := [SectionHeading(shown[n].section.name)] + shown[n].views;
      SectionLinesInARow(ShowViews(shown[..n]), Gap(n));
      SectionLinesInARow(ShowViews(shown[..n]) + Gap(n), body);
      assert ShowViews(shown) == ShowViews(shown[..n]) + Gap(n) + body;
    }
  }

  lemma {:induction false} NoHolesNoPlaceholders(visible: seq<string>, skip: Option<nat>, first: nat)
    requires forall i :: 0 <= i < |visible| && skip != Some(i) ==> !IsHole(visible[i])
    ensures Placeholders(visible, skip, first) == []
  {
    if visible != [] {
      NoHolesNoPlaceholders(visible[..|visible| - 1], skip, first);
    }
  }

  lemma SectionLineIsNoHole(visible: string)
    requires IsSectionLine(visible)
    ensures !IsHole(visible)
  {
    if !IsPlain(visible) {
      var name :| name in SECTION_ORDER && visible == SectionHeading(name);
      SectionNamesAreNames();
      SectionHeadingFacts(name);
    }
  }

  lemma FinishInside(st: State, sections: seq<Section>)
    requires Inside(st, sections) && GoodEnds(sections[|sections| - 1].lines)
    ensures Finish(st).sections == sections && Finish(st).problems == []
  {
    var last := sections[|sections| - 1];
    TrimOfGood(last.lines);
    assert sections == sections[..|sections| - 1] + [last];
  }

  /** The parser's branch for sections. */
  lemma {:induction false} SectionBranch(views: seq<string>, lines: seq<string>, heading: nat, st: State)
    requires |views| == |lines| && TextFrom(views, 0) == Some(0) && !StartsWith(Strip(views[0]), "None.")
    requires Placeholders(views, None, heading + 1) == []
    requires st == Finish(Steps(START, views, lines, heading + 1)) && st.problems == []
    ensures ParseContent(views, lines, heading) == (Notes(st.sections, None), [])
  {}

  lemma {:induction false} StartsWithHeading(views: seq<string>, name: string)
    requires views != [] && name in SECTION_ORDER && views[0] == SectionHeading(name)
    ensures TextFrom(views, 0) == Some(0) && !StartsWith(Strip(views[0]), "None.")
  {
    hide HeadingOf, Strip, IsInert, LeftoverPlaceholder, IsNameLike;
    SectionNamesAreNames();
    SectionHeadingFacts(name);
    assert SectionHeading(name)[0] == '#';
  }

  lemma {:induction false} NoHolesInSectionLines(views: seq<string>, first: nat)
    requires AllSectionLines(views)
    ensures Placeholders(views, None, first) == []
  {
    forall i | 0 <= i < |views| ensures !IsHole(views[i]) {
      SectionLineIsNoHole(views[i]);
    }
    NoHolesNoPlaceholders(views, None, first);
  }

  lemma {:induction false} ChecksOfShown(shown: seq<Shown>, first: nat)
    requires AllGoodShown(shown)
    ensures ShowViews(shown) != [] && TextFrom(ShowViews(shown), 0) == Some(0)
    ensures !StartsWith(Strip(ShowViews(shown)[0]), "None.")
    ensures Placeholders(ShowViews(shown), None, first) == []
  {
    ShownLines(shown);
    StartsWithHeading(ShowViews(shown), shown[0].section.name);
    NoHolesInSectionLines(ShowViews(shown), first);
  }

  /** The parser reads printed sections as the sections. */
  lemma {:induction false} ContentOfShown(shown: seq<Shown>, heading: nat)
    requires AllGoodShown(shown)
    ensures |ShowViews(shown)| == |ShowLines(shown)|
    ensures ParseContent(ShowViews(shown), ShowLines(shown), heading) == (Notes(SectionsOf(shown), None), [])
  {
    ChecksOfShown(shown, heading + 1);
    StepsOfShown(shown, heading + 1);
    var n := |shown| - 1;
    FrontOfShown(shown);
    var st := Steps(START, ShowViews(shown), ShowLines(shown), heading + 1);
    FinishInside(st, SectionsOf(shown));
    SectionBranch(ShowViews(shown), ShowLines(shown), heading, Finish(st));
  }
}
