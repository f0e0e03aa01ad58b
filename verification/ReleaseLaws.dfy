/** Rendering a release and extracting it again. */
module ReleaseLaws {
  import opened Options
  import opened PyText
  import opened ChangelogHeadings
  import opened ChangelogNotes
  import opened ChangelogScan
  import opened ScanLaws
  import opened AcceptedNotes
  import opened ChangelogRelease
  import opened ReleaseViews
  import opened PrintThenParse
  import SectionLoop
  import SectionCuts
  import MergeAccepts
  import ParseAccepts
  import InlineCode

  // ----- The file

  /** A changelog file ready for a release: no block is left open, the anchor is there, leaves
      prose behind it, and has nothing but blank lines below it. */
  ghost predicate WellFormed(lines: seq<string>) {
    && IssueOf(lines) == None && AnchorFrom(Visible(Prose, lines), 0).Some?
    && var anchor := AnchorFrom(Visible(Prose, lines), 0).value;
       && ModeAfter(Prose, lines[..anchor + 1]) == Prose
       && TextFrom(lines[..BlockEnd(Visible(Prose, lines), anchor)], anchor + 1) == None
  }

  // ----- The rendered block

  lemma {:induction false} LabelOfVersion(version: string, rest: string)
    requires forall i :: 0 <= i < |version| ==> version[i] != ']'
    ensures UntilBracket(version + [']'] + rest) == Some(version)
  {
    if version == [] {
      assert version + [']'] + rest == [']'] + rest;
    } else {
      assert (version + [']'] + rest)[1..] == version[1..] + [']'] + rest;
      assert version == [version[0]] + version[1..];
      LabelOfVersion(version[1..], rest);
    }
  }

  lemma ReleaseHeadingFacts(version: string, date: string)
    requires IsVersion(version) && IsDate(date)
    ensures
      var h := ReleaseHeading(version, date);
      && SectionLoop.IsInert(h) && IsTopHeading(h) && ReleaseLabel(h) == Some(version)
      && Strip(h) != []
  {
    ReleaseHeadingIsInert(version, date);
    var h := ReleaseHeading(version, date);
    var title := "[" + version + "] - " + date;
    assert h == "##" + [' '] + title;
    SectionLoop.HeadingOfPrefix(2, "##", title);
    ReleaseTitle(version, date);
    RStripStripped(h);
    HeadingIsStripped(h);
  }

  lemma ReleaseHeadingIsInert(version: string, date: string)
    requires IsVersion(version) && IsDate(date)
    ensures SectionLoop.IsInert(ReleaseHeading(version, date))
  {
    var h := ReleaseHeading(version, date);
    assert h == "## [" + version + ("] - " + date);
    forall i | 0 <= i < |h| ensures h[i] != '`' && h[i] != '<' {
      if 4 <= i < 4 + |version| {
        assert h[i] == version[i - 4] && IsVersionChar(version[i - 4]);
      } else if i >= 8 + |version| {
        assert h[i] == date[i - (8 + |version|)];
      }
    }
    assert h[|h| - 1] == date[9];
  }

  lemma ReleaseTitle(version: string, date: string)
    requires IsVersion(version) && IsDate(date)
    ensures
      var title := "[" + version + "] - " + date;
      && title[0] == '[' && !IsSpace(title[|title| - 1]) && UntilBracket(title[1..]) == Some(version)
  {
    var title := "[" + version + "] - " + date;
    assert title[|title| - 1] == date[9];
    assert title[1..] == version + [']'] + (" - " + date);
    forall i | 0 <= i < |version| ensures version[i] != ']' {
      assert IsVersionChar(version[i]);
    }
    LabelOfVersion(version, " - " + date);
  }

  lemma {:induction false} GoodEndsOfPrinted(sections: seq<Section>)
    requires GoodSections(sections)
    ensures GoodEnds(PrintSections(sections))
  {
    var lines, n := PrintSections(sections), |sections| - 1;
    SectionLoop.SectionNamesAreNames();
    SectionLoop.SectionHeadingFacts(sections[0].name);
    FirstPrinted(sections);
    assert GoodBody(sections[n].lines);
    assert lines[|lines| - 1] == sections[n].lines[|sections[n].lines| - 1];
  }

  lemma {:induction false} FirstPrinted(sections: seq<Section>)
    requires sections != []
    ensures PrintSections(sections) != [] && PrintSections(sections)[0] == SectionLoop.SectionHeading(sections[0].name)
  {
    if |sections| > 1 {
      FirstPrinted(sections[..|sections| - 1]);
    }
  }

  /** Printed notes read as themselves, hold no `#` or `##` heading and start and end with text. */
  lemma PrintFacts(notes: Notes)
    requires Accepted(notes)
    ensures ReadsAsItself(PrintNotes(notes)) && GoodEnds(PrintNotes(notes))
    ensures forall i :: 0 <= i < |PrintNotes(notes)| ==> !IsTopHeading(Visible(Prose, PrintNotes(notes))[i])
  {
    match notes.noneLine
    case Some(line) =>
      ScanOfOne(Prose, line);
      NoneIsNoHeading(line);
    case None =>
      var sections := notes.sections;
      ScanPrinted(sections);
      GoodShownOf(sections);
      SectionLoop.ShownLines(ShownOf(sections));
      AllRStripped(Prose, PrintSections(sections));
      NoTopHeadings(Visible(Prose, PrintSections(sections)));
      GoodEndsOfPrinted(sections);
  }

  lemma NoneIsNoHeading(line: string)
    requires GoodNone(line)
    ensures HeadingOf(ScanLine(Prose, line).visible) == None
  {
    hide ScanLine, Strip, RStrip, PlaceholderOnly, IsNoneLine;
    var view := ScanLine(Prose, line).visible;
    VisibleIsRStripped(Prose, line);
    if HeadingOf(view).Some? {
      HeadingIsStripped(view);
    }
  }

  /** The release heading and what follows it. */
  function HeadedBlock(notes: Notes, version: string, date: string): seq<string> {
    [ReleaseHeading(version, date)] + [[]] + PrintNotes(notes) + [[]]
  }

  lemma HeadedBlockReads(notes: Notes, version: string, date: string)
    requires Accepted(notes) && IsVersion(version) && IsDate(date)
    ensures
      var block := HeadedBlock(notes, version, date);
      && ReadsAsItself(block)
      && Visible(Prose, block) ==
           [ReleaseHeading(version, date)] + [[]] + Visible(Prose, PrintNotes(notes)) + [[]]
  {
    var h := [ReleaseHeading(version, date)];
    ReleaseHeadingFacts(version, date);
    InertScansAsItself(ReleaseHeading(version, date));
    ScanOfOne(Prose, ReleaseHeading(version, date));
    PrintFacts(notes);
    ScanBlank();
    ReadsInARow(h, [[]]);
    ReadsInARow(h + [[]], PrintNotes(notes));
    ReadsInARow(h + [[]] + PrintNotes(notes), [[]]);
  }

  /** Extraction from the rendered block alone. */
  lemma {:induction false} ExtractFromBlock(notes: Notes, views: seq<string>, version: string, date: string)
    requires IsVersion(version) && IsDate(date) && |views| == |PrintNotes(notes)| && GoodEnds(PrintNotes(notes))
    requires forall i :: 0 <= i < |views| ==> !IsTopHeading(views[i])
    ensures
      var block := HeadedBlock(notes, version, date);
      var visible := [ReleaseHeading(version, date)] + [[]] + views + [[]];
      && LabelFrom(visible, version, 0) == Some(0)
      && ExtractViews(block, visible, version) == Ok(PrintNotes(notes))
      && forall w :: w != version ==> LabelFrom(visible, w, 0) == None
  {
    hide Trim, PrintNotes, Strip;
    var block, visible := HeadedBlock(notes, version, date), [ReleaseHeading(version, date)] + [[]] + views + [[]];
    ReleaseHeadingFacts(version, date);
    NothingBelow(visible, views, ReleaseHeading(version, date));
    NoTopHeading(visible, 1);
    forall w | w != version ensures LabelFrom(visible, w, 0) == None {
      NoLabels(visible, w, 1);
    }
    assert block[1..|block|] == [[]] + (PrintNotes(notes) + [[]]);
    TrimOfPrinted(PrintNotes(notes));
  }

  lemma NothingBelow(visible: seq<string>, views: seq<string>, h: string)
    requires visible == [h] + [[]] + views + [[]] && forall i :: 0 <= i < |views| ==> !IsTopHeading(views[i])
    ensures forall i :: 1 <= i < |visible| ==> !IsTopHeading(visible[i])
  {
    assert HeadingOf([]) == None;
    forall i | 1 <= i < |visible| ensures !IsTopHeading(visible[i]) {
      if 2 <= i < 2 + |views| {
        assert visible[i] == views[i - 2];
      } else {
        assert visible[i] == [];
      }
    }
  }

  lemma TrimOfPrinted(lines: seq<string>)
    requires GoodEnds(lines)
    ensures Trim([[]] + (lines + [[]])) == lines
  {
    assert Strip([]) == [];
    TrimPrepend([[]], lines + [[]]);
    SectionLoop.TrimOfGood(lines);
  }

  // ----- Blank lines in the scanner

  lemma RawBlankLine(line: string)
    requires Strip(line) == []
    ensures ScanLine(Prose, line) == Scanned([], [], Prose, false)
  {
    ParseAccepts.BlankStrips(line);
    ParseAccepts.BlankOpensNoFence(line);
    BlankHasNoTicks(line);
    InlineCode.MaskPlain(line);
    forall i ensures !StandsAt(line, "<!--", i) {
      if 0 <= i <= |line| - 4 {
        assert line[i..i + 4][0] == line[i];
      }
    }
    PlainProse(line);
    RStripBlank(line);
  }

  ghost predicate AllEmpty(views: seq<string>) {
    forall i :: 0 <= i < |views| ==> views[i] == []
  }

  lemma {:induction false} RawBlankLines(lines: seq<string>)
    requires AllBlankLines(lines)
    ensures ModeAfter(Prose, lines) == Prose && AllEmpty(Visible(Prose, lines))
  {
    if lines != [] {
      var n := |lines| - 1;
      RawBlankLines(lines[..n]);
      RawBlankLine(lines[n]);
      ScanOneMore(Prose, lines, n);
      assert lines[..n + 1] == lines;
      EmptyInARow(Visible(Prose, lines[..n]), ScannedAt(Prose, lines, n).visible);
    }
  }

  lemma EmptyInARow(views: seq<string>, view: string)
    requires AllEmpty(views) && view == []
    ensures AllEmpty(views + [view])
  {}

  lemma EmptyLineKeepsMode(mode: Mode)
    ensures ScanLine(mode, []).next == mode && ScanLine(mode, []).visible == []
  {
    InlineCode.MaskPlain([]);
    ScanOfNothing(Prose);
    assert Strip([]) == [];
  }

  lemma {:induction false} EmptyLines(mode: Mode, lines: seq<string>)
    requires AllEmpty(lines)
    ensures ModeAfter(mode, lines) == mode && AllEmpty(Visible(mode, lines))
  {
    if lines != [] {
      var n := |lines| - 1;
      EmptyLines(mode, lines[..n]);
      EmptyLineKeepsMode(mode);
      ScanOneMore(mode, lines, n);
      assert lines[..n + 1] == lines;
      EmptyInARow(Visible(mode, lines[..n]), ScannedAt(mode, lines, n).visible);
    }
  }

  lemma {:induction false} DropSplits(lines: seq<string>) returns (rest: seq<string>)
    ensures lines == DropTrailingEmpty(lines) + rest && AllEmpty(rest)
  {
    rest := [];
    if lines != [] && lines[|lines| - 1] == [] {
      rest := DropSplits(lines[..|lines| - 1]);
      assert lines == lines[..|lines| - 1] + [[]];
      rest := rest + [[]];
    }
  }

  /** Dropping empty lines at the end leaves the mode, and drops empty views only. */
  lemma DropEmptyEnd(lines: seq<string>) returns (rest: seq<string>, views: seq<string>)
    ensures lines == DropTrailingEmpty(lines) + rest && AllEmpty(rest) && AllEmpty(views) && |views| == |rest|
    ensures ModeAfter(Prose, DropTrailingEmpty(lines)) == ModeAfter(Prose, lines)
    ensures Visible(Prose, lines) == Visible(Prose, DropTrailingEmpty(lines)) + views
  {
    rest := DropSplits(lines);
    var kept := DropTrailingEmpty(lines);
    views := Visible(ModeAfter(Prose, kept), rest);
    ScanComposes(Prose, kept, rest);
    EmptyLines(ModeAfter(Prose, kept), rest);
  }

  // ----- The file in three parts: down to the anchor, the blank lines below it, the rest

  /** The parts of a well-formed file with their views. */
  ghost predicate IsSplit(lines: seq<string>, top: seq<string>, gap: seq<string>, gapViews: seq<string>, rest: seq<string>) {
    && lines == top + gap + rest && AllBlankLines(gap) && AllEmpty(gapViews) && |gapViews| == |gap|
    && ModeAfter(Prose, top) == Prose && ModeAfter(Prose, rest) == Prose
    && Visible(Prose, lines) == Visible(Prose, top) + gapViews + Visible(Prose, rest)
    && StartsBlock(Visible(Prose, rest))
    && top != [] && IsUnreleased(Visible(Prose, top)[|top| - 1])
    && AnchorFrom(Visible(Prose, top), 0) == Some(|top| - 1)
  }

  lemma {:induction false} AnchorInPrefix(visible: seq<string>, n: nat, from: nat)
    requires from <= n <= |visible| && AnchorFrom(visible, from).Some? && AnchorFrom(visible, from).value < n
    ensures AnchorFrom(visible[..n], from) == AnchorFrom(visible, from)
    decreases n - from
  {
    if !IsUnreleased(visible[from]) {
      AnchorInPrefix(visible, n, from + 1);
    }
  }

  lemma {:induction false} AnchorInLonger(a: seq<string>, b: seq<string>, from: nat)
    requires from <= |a| && AnchorFrom(a, from).Some?
    ensures AnchorFrom(a + b, from) == AnchorFrom(a, from)
    decreases |a| - from
  {
    assert (a + b)[from] == a[from];
    if !IsUnreleased(a[from]) {
      AnchorInLonger(a, b, from + 1);
    }
  }

  lemma BlankBelow(lines: seq<string>, anchor: nat, end: nat)
    requires anchor < end <= |lines| && TextFrom(lines[..end], anchor + 1) == None
    ensures AllBlankLines(lines[anchor + 1..end])
  {
    SectionCuts.TextFromFacts(lines[..end], anchor + 1);
    var gap := lines[anchor + 1..end];
    forall i | 0 <= i < |gap| ensures Strip(gap[i]) == [] {
      assert gap[i] == lines[..end][anchor + 1 + i];
    }
  }

  lemma ThreeParts(lines: seq<string>, i: nat, j: nat)
    requires i <= j <= |lines|
    ensures lines == lines[..i] + lines[i..j] + lines[j..]
  {}

  lemma SplitFile(lines: seq<string>)
    returns (top: seq<string>, gap: seq<string>, gapViews: seq<string>, rest: seq<string>)
    requires WellFormed(lines)
    ensures IsSplit(lines, top, gap, gapViews, rest)
    ensures
      var visible := Visible(Prose, lines);
      var anchor := AnchorFrom(visible, 0).value;
      top == lines[..anchor + 1] && rest == lines[BlockEnd(visible, anchor)..]
  {
    var visible := Visible(Prose, lines);
    var anchor := AnchorFrom(visible, 0).value;
    var end := BlockEnd(visible, anchor);
    top, gap, rest := lines[..anchor + 1], lines[anchor + 1..end], lines[end..];
    gapViews := Visible(Prose, gap);
    ThreeParts(lines, anchor + 1, end);
    BlankBelow(lines, anchor, end);
    RawBlankLines(gap);
    ScanComposes(Prose, top, gap);
    ScanComposes(Prose, top + gap, rest);
    RestStartsBlock(visible, top + gap, rest, end);
    VisibleOfPrefix(Prose, lines, anchor + 1);
    AnchorInPrefix(visible, anchor + 1, 0);
  }

  lemma RestStartsBlock(visible: seq<string>, front: seq<string>, rest: seq<string>, end: nat)
    requires |front| == end <= |visible| && visible == Visible(Prose, front) + Visible(Prose, rest)
    requires end < |visible| ==> IsTopHeading(visible[end])
    ensures StartsBlock(Visible(Prose, rest))
  {
    if Visible(Prose, rest) != [] {
      assert visible[end] == Visible(Prose, rest)[0];
    }
  }

  lemma EmptyIsBlank(lines: seq<string>)
    requires AllEmpty(lines)
    ensures AllBlankLines(lines) && NoHeadings(lines)
  {
    assert Strip([]) == [] && HeadingOf([]) == None;
  }

  /** Extraction from the file as it was. */
  lemma {:induction false} ExtractFromOld(top: seq<string>, topViews: seq<string>, gap: seq<string>, gapViews: seq<string>,
                       rest: seq<string>, restViews: seq<string>, w: string)
    requires |top| == |topViews| && |gap| == |gapViews| && |rest| == |restViews|
    requires AllBlankLines(gap) && AllEmpty(gapViews) && StartsBlock(restViews)
    ensures ExtractViews(top + gap + rest, topViews + gapViews + restViews, w) ==
      if LabelFrom(topViews, w, 0).Some? then ExtractViews(top, topViews, w) else ExtractViews(rest, restViews, w)
  {
    EmptyIsBlank(gapViews);
    ExtractInTwo(top + gap, topViews + gapViews, rest, restViews, w);
    ExtractIgnoresBlankEnd(top, topViews, gap, gapViews, w);
    LabelInTwo(topViews, gapViews, w, 0);
    NoLabels(gapViews, w, 0);
  }

  /** Extraction from the file with the release in it. */
  lemma {:induction false} ExtractFromNew(top: seq<string>, topViews: seq<string>, notes: Notes, views: seq<string>,
                       rest: seq<string>, restViews: seq<string>, version: string, date: string, w: string)
    requires |top| == |topViews| && |rest| == |restViews| && StartsBlock(restViews)
    requires IsVersion(version) && IsDate(date) && |views| == |PrintNotes(notes)| && GoodEnds(PrintNotes(notes))
    requires forall i :: 0 <= i < |views| ==> !IsTopHeading(views[i])
    ensures
      var heading := ReleaseHeading(version, date);
      var lines := (top + [[]]) + (HeadedBlock(notes, version, date) + rest);
      var visible := (topViews + [[]]) + ([heading] + [[]] + views + [[]] + restViews);
      ExtractViews(lines, visible, w) ==
        if LabelFrom(topViews, w, 0).Some? then ExtractViews(top, topViews, w)
        else if w == version then Ok(PrintNotes(notes))
        else ExtractViews(rest, restViews, w)
  {
    var heading := ReleaseHeading(version, date);
    var block, blockViews := HeadedBlock(notes, version, date), [heading] + [[]] + views + [[]];
    ReleaseHeadingFacts(version, date);
    EmptyIsBlank([[]]);
    assert (blockViews + restViews)[0] == heading;
    ExtractInTwo(top + [[]], topViews + [[]], block + rest, blockViews + restViews, w);
    ExtractIgnoresBlankEnd(top, topViews, [[]], [[]], w);
    LabelInTwo(topViews, [[]], w, 0);
    NoLabels([[]], w, 0);
    ExtractInTwo(block, blockViews, rest, restViews, w);
    ExtractFromBlock(notes, views, version, date);
  }

  // ----- The rendered file

  /** The rendered lines before trailing empty lines are dropped. */
  function Inserted(top: seq<string>, notes: Notes, version: string, date: string, rest: seq<string>): seq<string> {
    (top + [[]]) + (HeadedBlock(notes, version, date) + rest)
  }

  lemma {:induction false} RenderedLines(lines: seq<string>, notes: Notes, version: string, date: string, top: seq<string>, rest: seq<string>)
    requires WellFormed(lines) && LabelFrom(Visible(Prose, lines), version, 0) == None
    requires
      var visible := Visible(Prose, lines);
      var anchor := AnchorFrom(visible, 0).value;
      top == lines[..anchor + 1] && rest == lines[BlockEnd(visible, anchor)..]
    ensures Render(lines, notes, version, date) == Ok(DropTrailingEmpty(Inserted(top, notes, version, date, rest)))
  {
    BlockRegroups(top, notes, version, date, rest);
  }

  lemma BlockRegroups(top: seq<string>, notes: Notes, version: string, date: string, rest: seq<string>)
    ensures top + ReleaseBlock(notes, version, date) + rest == Inserted(top, notes, version, date, rest)
  {
    assert ReleaseBlock(notes, version, date) == [[]] + HeadedBlock(notes, version, date);
  }

  lemma {:induction false} ScanInserted(top: seq<string>, notes: Notes, version: string, date: string, rest: seq<string>)
    requires Accepted(notes) && IsVersion(version) && IsDate(date)
    requires ModeAfter(Prose, top) == Prose && ModeAfter(Prose, rest) == Prose
    ensures
      var lines := Inserted(top, notes, version, date, rest);
      && ModeAfter(Prose, lines) == Prose
      && Visible(Prose, lines) ==
           (Visible(Prose, top) + [[]]) +
           ([ReleaseHeading(version, date)] + [[]] + Visible(Prose, PrintNotes(notes)) + [[]] + Visible(Prose, rest))
  {
    HeadedBlockReads(notes, version, date);
    ScanBlank();
    ScanComposes(Prose, top, [[]]);
    ScanComposes(Prose, HeadedBlock(notes, version, date), rest);
    ScanComposes(Prose, top + [[]], HeadedBlock(notes, version, date) + rest);
  }

  /** What every extraction from the rendered file gives. */
  lemma {:induction false} ExtractFromRendered(lines: seq<string>, notes: Notes, version: string, date: string, w: string)
    requires WellFormed(lines) && LabelFrom(Visible(Prose, lines), version, 0) == None
    requires Accepted(notes) && IsVersion(version) && IsDate(date)
    ensures
      var rendered := Render(lines, notes, version, date);
      && rendered.Ok? && IssueOf(rendered.value) == None
      && Extract(rendered.value, w) == if w == version then Ok(PrintNotes(notes)) else Extract(lines, w)
  {
    var top, gap, gapViews, rest := SplitFile(lines);
    RenderedLines(lines, notes, version, date, top, rest);
    var all := Inserted(top, notes, version, date, rest);
    ScanInserted(top, notes, version, date, rest);
    PrintFacts(notes);
    var topViews, restViews, views := Visible(Prose, top), Visible(Prose, rest), Visible(Prose, PrintNotes(notes));
    ExtractFromNew(top, topViews, notes, views, rest, restViews, version, date, w);
    ExtractFromOld(top, topViews, gap, gapViews, rest, restViews, w);
    LabelNotOnTop(top, gapViews, rest, version);
    DroppedExtracts(all, w);
  }

  lemma {:induction false} LabelNotOnTop(top: seq<string>, gapViews: seq<string>, rest: seq<string>, version: string)
    requires LabelFrom(Visible(Prose, top) + gapViews + Visible(Prose, rest), version, 0) == None
    ensures LabelFrom(Visible(Prose, top), version, 0) == None
  {
    LabelInTwo(Visible(Prose, top) + gapViews, Visible(Prose, rest), version, 0);
    LabelInTwo(Visible(Prose, top), gapViews, version, 0);
  }

  /** Dropping trailing empty lines changes no extraction. */
  lemma {:induction false} DroppedExtracts(all: seq<string>, w: string)
    requires ModeAfter(Prose, all) == Prose
    ensures IssueOf(DropTrailingEmpty(all)) == None
    ensures ExtractViews(DropTrailingEmpty(all), Visible(Prose, DropTrailingEmpty(all)), w) ==
            ExtractViews(all, Visible(Prose, all), w)
  {
    var end, views := DropEmptyEnd(all);
    EmptyIsBlank(end);
    EmptyIsBlank(views);
    ExtractIgnoresBlankEnd(DropTrailingEmpty(all), Visible(Prose, DropTrailingEmpty(all)), end, views, w);
  }

  // ----- The rendered file is well-formed again, and lists the release first

  /** The labels of the release headings, in file order. */
  function Labels(visible: seq<string>): seq<string> {
    if visible == [] then []
    else
      var n := |visible| - 1;
      Labels(visible[..n]) + if ReleaseLabel(visible[n]) == None then [] else [ReleaseLabel(visible[n]).value]
  }

  lemma {:induction false} LabelsInTwo(a: seq<string>, b: seq<string>)
    ensures Labels(a + b) == Labels(a) + Labels(b)
  {
    if b == [] {
      assert a + b == a;
    } else {
      assert (a + b)[..|a + b| - 1] == a + b[..|b| - 1];
      LabelsInTwo(a, b[..|b| - 1]);
    }
  }

  lemma {:induction false} LabelsOfPlain(visible: seq<string>)
    requires forall i :: 0 <= i < |visible| ==> !IsTopHeading(visible[i])
    ensures Labels(visible) == []
  {
    if visible != [] {
      LabelsOfPlain(visible[..|visible| - 1]);
    }
  }

  /** The labels below the anchor of a file that has one. */
  ghost function LabelsBelow(lines: seq<string>): seq<string>
    requires AnchorFrom(Visible(Prose, lines), 0).Some?
  {
    var visible := Visible(Prose, lines);
    Labels(visible[AnchorFrom(visible, 0).value + 1..])
  }

  lemma {:induction false} LabelsOfEmpty(views: seq<string>)
    requires AllEmpty(views)
    ensures Labels(views) == []
  {
    assert HeadingOf([]) == None;
    LabelsOfPlain(views);
  }

  lemma {:induction false} LabelsOfHeaded(heading: string, version: string, below: seq<string>)
    requires ReleaseLabel(heading) == Some(version) && forall i :: 0 <= i < |below| ==> !IsTopHeading(below[i])
    ensures Labels([heading] + below) == [version]
  {
    assert [heading][..0] == [] && Labels([]) == [];
    assert Labels([heading]) == [] + [version];
    LabelsOfPlain(below);
    LabelsInTwo([heading], below);
  }

  lemma {:induction false} LabelsOfBlock(heading: string, version: string, views: seq<string>)
    requires ReleaseLabel(heading) == Some(version) && forall i :: 0 <= i < |views| ==> !IsTopHeading(views[i])
    ensures Labels([heading] + [[]] + views + [[]]) == [version]
  {
    var below := [[]] + views + [[]];
    BelowIsPlain(views);
    LabelsOfHeaded(heading, version, below);
    BlockIsHeaded(heading, views);
  }

  lemma BlockIsHeaded(heading: string, views: seq<string>)
    ensures [heading] + [[]] + views + [[]] == [heading] + ([[]] + views + [[]])
  {}

  lemma BelowIsPlain(views: seq<string>)
    requires forall i :: 0 <= i < |views| ==> !IsTopHeading(views[i])
    ensures
      var below := [[]] + views + [[]];
      forall i :: 0 <= i < |below| ==> !IsTopHeading(below[i])
  {
    assert HeadingOf([]) == None;
    var below := [[]] + views + [[]];
    forall i | 0 <= i < |below| ensures !IsTopHeading(below[i]) {
      assert below[i] == if 1 <= i <= |views| then views[i - 1] else [];
    }
  }

  /** A file with this top, an empty line, a heading and more is well-formed. */
  lemma {:induction false} TopIsWellFormed(top: seq<string>, heading: string, more: seq<string>)
    requires top != [] && ModeAfter(Prose, top) == Prose && AnchorFrom(Visible(Prose, top), 0) == Some(|top| - 1)
    requires SectionLoop.IsInert(heading) && IsTopHeading(heading)
    requires ModeAfter(Prose, (top + [[]]) + ([heading] + more)) == Prose
    ensures
      var lines := (top + [[]]) + ([heading] + more);
      && WellFormed(lines) && AnchorFrom(Visible(Prose, lines), 0) == Some(|top| - 1)
  {
    var lines := (top + [[]]) + ([heading] + more);
    var moreViews := Visible(Prose, more);
    InertScansAsItself(heading);
    ScanOfOne(Prose, heading);
    ScanBlank();
    ScanComposes(Prose, top, [[]]);
    ScanComposes(Prose, [heading], more);
    ScanComposes(Prose, top + [[]], [heading] + more);
    AnchorAndBlock(top, Visible(Prose, top), heading, more, moreViews, lines, Visible(Prose, lines));
    assert lines[..|top|] == top;
  }

  lemma {:induction false} AnchorAndBlock(top: seq<string>, topViews: seq<string>, heading: string, more: seq<string>, moreViews: seq<string>,
                       lines: seq<string>, visible: seq<string>)
    requires |top| == |topViews| > 0 && |more| == |moreViews| && AnchorFrom(topViews, 0) == Some(|top| - 1)
    requires lines == (top + [[]]) + ([heading] + more) && visible == (topViews + [[]]) + ([heading] + moreViews)
    requires IsTopHeading(heading)
    ensures AnchorFrom(visible, 0) == Some(|top| - 1) && BlockEnd(visible, |top| - 1) == |top| + 1
    ensures TextFrom(lines[..|top| + 1], |top|) == None
  {
    AnchorOfParts(topViews, heading, moreViews, visible);
    assert lines[..|top| + 1] == top + [[]];
    BlankAfterTop(top);
  }

  lemma {:induction false} AnchorOfParts(topViews: seq<string>, heading: string, moreViews: seq<string>, visible: seq<string>)
    requires topViews != [] && AnchorFrom(topViews, 0) == Some(|topViews| - 1) && IsTopHeading(heading)
    requires visible == (topViews + [[]]) + ([heading] + moreViews)
    ensures AnchorFrom(visible, 0) == Some(|topViews| - 1) && BlockEnd(visible, |topViews| - 1) == |topViews| + 1
  {
    BelowTop(topViews, heading, moreViews, visible);
    AnchorInLonger(topViews, [[]] + ([heading] + moreViews), 0);
    BlockOfParts(|topViews|, heading, visible);
  }

  lemma BelowTop(topViews: seq<string>, heading: string, moreViews: seq<string>, visible: seq<string>)
    requires visible == (topViews + [[]]) + ([heading] + moreViews)
    ensures visible == topViews + ([[]] + ([heading] + moreViews))
    ensures visible[|topViews|] == [] && visible[|topViews| + 1] == heading
  {}

  lemma BlockOfParts(n: nat, heading: string, visible: seq<string>)
    requires n > 0 && n + 1 < |visible| && visible[n] == [] && visible[n + 1] == heading && IsTopHeading(heading)
    ensures BlockEnd(visible, n - 1) == n + 1
  {
    assert HeadingOf([]) == None;
    assert TopHeadingFrom(visible, n) == TopHeadingFrom(visible, n + 1) == n + 1;
  }

  lemma {:induction false} BlankAfterTop(top: seq<string>)
    ensures TextFrom(top + [[]], |top|) == None
  {
    assert Strip([]) == [] && (top + [[]])[|top|] == [];
  }

  lemma {:induction false} DropStops(front: seq<string>, heading: string, more: seq<string>) returns (kept: seq<string>)
    requires heading != []
    ensures DropTrailingEmpty(front + ([heading] + more)) == front + ([heading] + kept)
  {
    var all := front + ([heading] + more);
    if more != [] && more[|more| - 1] == [] {
      assert all[..|all| - 1] == front + ([heading] + more[..|more| - 1]);
      kept := DropStops(front, heading, more[..|more| - 1]);
    } else {
      kept := more;
      if more == [] {
        assert all[|all| - 1] == heading;
      } else {
        assert all[|all| - 1] == more[|more| - 1];
      }
    }
  }

  lemma {:induction false} RenderedIsWellFormed(lines: seq<string>, notes: Notes, version: string, date: string)
    requires WellFormed(lines) && LabelFrom(Visible(Prose, lines), version, 0) == None
    requires Accepted(notes) && IsVersion(version) && IsDate(date)
    ensures
      var rendered := Render(lines, notes, version, date);
      && rendered.Ok? && WellFormed(rendered.value)
      && LabelsBelow(rendered.value) == [version] + LabelsBelow(lines)
  {
    var top, gap, gapViews, rest := SplitFile(lines);
    RenderedLines(lines, notes, version, date, top, rest);
    var all := Inserted(top, notes, version, date, rest);
    ScanInserted(top, notes, version, date, rest);
    var end, views := DropEmptyEnd(all);
    DroppedIsWellFormed(top, notes, version, date, rest);
    var file := DropTrailingEmpty(all);
    ReleaseHeadingFacts(version, date);
    PrintFacts(notes);
    LabelsBelowIs(file, |top|);
    AnchorBehindTop(Visible(Prose, top), gapViews, Visible(Prose, rest));
    LabelsBelowIs(lines, |top|);
    LabelsOfRendered(Visible(Prose, top), ReleaseHeading(version, date), version, Visible(Prose, PrintNotes(notes)),
                     gapViews, Visible(Prose, rest), Visible(Prose, file), views);
  }

  lemma LabelsBelowIs(lines: seq<string>, n: nat)
    requires n > 0 && AnchorFrom(Visible(Prose, lines), 0) == Some(n - 1)
    ensures LabelsBelow(lines) == Labels(Visible(Prose, lines)[n..])
  {}

  lemma {:induction false} AnchorBehindTop(topViews: seq<string>, gapViews: seq<string>, restViews: seq<string>)
    requires AnchorFrom(topViews, 0).Some?
    ensures AnchorFrom(topViews + gapViews + restViews, 0) == AnchorFrom(topViews, 0)
  {
    AnchorInLonger(topViews, gapViews, 0);
    AnchorInLonger(topViews + gapViews, restViews, 0);
  }

  /** The rendered lines without trailing empty lines keep the anchor and nothing below it. */
  lemma {:induction false} DroppedIsWellFormed(top: seq<string>, notes: Notes, version: string, date: string, rest: seq<string>)
    requires top != [] && ModeAfter(Prose, top) == Prose && AnchorFrom(Visible(Prose, top), 0) == Some(|top| - 1)
    requires IsVersion(version) && IsDate(date)
    requires ModeAfter(Prose, DropTrailingEmpty(Inserted(top, notes, version, date, rest))) == Prose
    ensures
      var file := DropTrailingEmpty(Inserted(top, notes, version, date, rest));
      && WellFormed(file) && AnchorFrom(Visible(Prose, file), 0) == Some(|top| - 1) && |top| <= |file|
  {
    hide ModeAfter, Visible, WellFormed, IsUnreleased, PrintNotes, ReleaseHeading;
    var heading := ReleaseHeading(version, date);
    ReleaseHeadingFacts(version, date);
    var more := [[]] + PrintNotes(notes) + [[]] + rest;
    assert HeadedBlock(notes, version, date) + rest == [heading] + more;
    var kept := DropStops(top + [[]], heading, more);
    TopIsWellFormed(top, heading, kept);
  }

  lemma LabelsOfRendered(topViews: seq<string>, heading: string, version: string, views: seq<string>, gapViews: seq<string>,
                         restViews: seq<string>, kept: seq<string>, dropped: seq<string>)
    requires ReleaseLabel(heading) == Some(version) && forall i :: 0 <= i < |views| ==> !IsTopHeading(views[i])
    requires AllEmpty(gapViews) && AllEmpty(dropped) && |topViews| <= |kept|
    requires kept + dropped == (topViews + [[]]) + ([heading] + [[]] + views + [[]] + restViews)
    ensures Labels(kept[|topViews|..]) == [version] + Labels((topViews + gapViews + restViews)[|topViews|..])
  {
    hide Labels, HeadingOf, IsTopHeading, ReleaseLabel;
    var block := [heading] + [[]] + views + [[]];
    LabelsOfBlock(heading, version, views);
    LabelsOfKept(topViews, block, version, restViews, kept, dropped);
    assert (topViews + gapViews + restViews)[|topViews|..] == gapViews + restViews;
    LabelsInTwo(gapViews, restViews);
    LabelsOfEmpty(gapViews);
  }

  lemma {:induction false} LabelsOfKept(topViews: seq<string>, block: seq<string>, version: string, restViews: seq<string>,
                     kept: seq<string>, dropped: seq<string>)
    requires Labels(block) == [version] && AllEmpty(dropped) && |topViews| <= |kept|
    requires kept + dropped == (topViews + [[]]) + (block + restViews)
    ensures Labels(kept[|topViews|..]) == [version] + Labels(restViews)
  {
    var below := kept[|topViews|..];
    assert below + dropped == (kept + dropped)[|topViews|..];
    assert below + dropped == [[]] + (block + restViews);
    LabelsInTwo(below, dropped);
    LabelsOfEmpty(dropped);
    LabelsInTwo([[]], block + restViews);
    LabelsOfEmpty([[]]);
    LabelsInTwo(block, restViews);
    assert Labels(below) + [] == Labels(below);
    assert [] + Labels(block + restViews) == Labels(block + restViews);
  }

  // ----- Main results

  /** Extracting `w` gives the same from both files, an error included. */
  ghost predicate SameExtract(after: seq<string>, before: seq<string>, w: string) {
    Extract(after, w) == Extract(before, w)
  }

  /** Every version but this one gives the same from both files. */
  ghost predicate OthersKeptBut(after: seq<string>, before: seq<string>, version: string) {
    forall w :: w != version ==> SameExtract(after, before, w)
  }

  /** A version is not in the file. */
  ghost predicate IsFresh(lines: seq<string>, version: string) {
    IsVersion(version) && Extract(lines, version) == Err(NoSection)
  }

  lemma {:induction false} FreshMeansNoLabel(lines: seq<string>, version: string)
    requires IssueOf(lines) == None && IsVersion(version)
    ensures IsFresh(lines, version) <==> LabelFrom(Visible(Prose, lines), version, 0) == None
  {}

  /** Rendering accepted notes into a well-formed file: extracting the new version gives exactly
      the printed notes, extracting any other gives what it gave, the file is well-formed again,
      and the new version is listed first. */
  lemma RenderThenExtract(lines: seq<string>, notes: Notes, version: string, date: string)
    requires WellFormed(lines) && IsFresh(lines, version) && IsDate(date) && Accepted(notes)
    ensures
      var rendered := Render(lines, notes, version, date);
      && rendered.Ok?
      && Extract(rendered.value, version) == Ok(PrintNotes(notes))
      && OthersKeptBut(rendered.value, lines, version)
      && WellFormed(rendered.value)
      && LabelsBelow(rendered.value) == [version] + LabelsBelow(lines)
  {
    FreshMeansNoLabel(lines, version);
    RenderedIsWellFormed(lines, notes, version, date);
    ExtractFromRendered(lines, notes, version, date, version);
    var rendered := Render(lines, notes, version, date);
    forall w | w != version ensures SameExtract(rendered.value, lines, w) {
      ExtractFromRendered(lines, notes, version, date, w);
    }
  }

  /** From pull request bodies to the release body: bodies the parser accepts, whose comments
      stand alone in the block it reads, merged and rendered, come back as the printed merge. */
  lemma BodiesToRelease(bodies: seq<seq<string>>, files: seq<Notes>, lines: seq<string>, version: string, date: string)
    requires bodies != [] && |files| == |bodies|
    requires forall i :: 0 <= i < |bodies| ==> ParseAccepts.TameBlock(bodies[i]) && Parse(bodies[i]) == (files[i], [])
    requires WellFormed(lines) && IsFresh(lines, version) && IsDate(date)
    ensures
      var rendered := Render(lines, Merge(files), version, date);
      rendered.Ok? && Extract(rendered.value, version) == Ok(PrintNotes(Merge(files)))
  {
    forall i | 0 <= i < |files| ensures Accepted(files[i]) {
      ParseAccepts.ParseGivesAccepted(bodies[i]);
    }
    MergeAccepts.MergeIsAccepted(files);
    RenderThenExtract(lines, Merge(files), version, date);
  }

  // ----- When the anchor leaves a comment open

  lemma VisibleTextOpensNoFence(mode: Mode, line: string)
    requires ScanLine(mode, line).visible != []
    ensures !ScanLine(mode, line).next.Fence?
  {}

  lemma ReleaseHeadingEndsNoComment(version: string, date: string)
    requires IsVersion(version) && IsDate(date)
    ensures ScanLine(Comment, ReleaseHeading(version, date)) == Scanned([], [], Comment, false)
  {
    var h := ReleaseHeading(version, date);
    ReleaseHeadingIsInert(version, date);
    InlineCode.MaskPlain(h);
    assert h == "## [" + version + ("] - " + date);
    forall i | 0 <= i < |h| ensures h[i] != '>' {
      if 4 <= i < 4 + |version| {
        assert h[i] == version[i - 4] && IsVersionChar(version[i - 4]);
      } else if i >= 8 + |version| {
        assert h[i] == date[i - (8 + |version|)];
      }
    }
    forall i ensures !StandsAt(h, "-->", i) {
      if 0 <= i <= |h| - 3 {
        assert h[i..i + 3][2] == h[i + 2] != '>';
      }
    }
  }

  lemma {:induction false} HeadingBehindTop(top: seq<string>, heading: string, kept: seq<string>)
    ensures
      var file := (top + [[]]) + ([heading] + kept);
      ScannedAt(Prose, file, |top| + 1) == ScanLine(ModeAfter(Prose, top), heading)
  {
    var file := (top + [[]]) + ([heading] + kept);
    assert file[..|top| + 1] == top + [[]] && file[|top| + 1] == heading;
    ModeAfterConcat(Prose, top, [[]]);
    ScanOfOne(ModeAfter(Prose, top), []);
    EmptyLineKeepsMode(ModeAfter(Prose, top));
  }

  lemma AnchorLeavesNoFence(lines: seq<string>, anchor: nat)
    requires anchor < |lines| && IsUnreleased(Visible(Prose, lines)[anchor])
    ensures !ModeAfter(Prose, lines[..anchor + 1]).Fence?
  {
    assert HeadingOf([]) == None;
    VisibleTextOpensNoFence(ModeAfter(Prose, lines[..anchor]), lines[anchor]);
    assert lines[..anchor + 1][..anchor] == lines[..anchor];
  }

  lemma RenderedTop(lines: seq<string>, notes: Notes, version: string, date: string, anchor: nat) returns (kept: seq<string>)
    requires AnchorFrom(Visible(Prose, lines), 0) == Some(anchor)
    requires IsVersion(version) && Render(lines, notes, version, date).Ok?
    ensures Render(lines, notes, version, date).value ==
      (lines[..anchor + 1] + [[]]) + ([ReleaseHeading(version, date)] + kept)
  {
    hide Visible, PrintNotes, LabelFrom, IsUnreleased;
    var top, rest := lines[..anchor + 1], lines[BlockEnd(Visible(Prose, lines), anchor)..];
    var heading := ReleaseHeading(version, date);
    var more := [[]] + PrintNotes(notes) + [[]] + rest;
    BlockRegroups(top, notes, version, date, rest);
    assert HeadedBlock(notes, version, date) + rest == [heading] + more;
    kept := DropStops(top + [[]], heading, more);
  }

  /** Whether the rendered heading can be seen at all: exactly when the anchor line leaves prose
      behind it. An anchor that leaves a comment open swallows the release. */
  lemma HeadingShowsIffAnchorCloses(lines: seq<string>, notes: Notes, version: string, date: string)
    requires IssueOf(lines) == None && AnchorFrom(Visible(Prose, lines), 0).Some?
    requires IsVersion(version) && IsDate(date) && Render(lines, notes, version, date).Ok?
    ensures
      var file := Render(lines, notes, version, date).value;
      var anchor := AnchorFrom(Visible(Prose, lines), 0).value;
      && anchor + 2 < |file|
      && (Visible(Prose, file)[anchor + 2] == ReleaseHeading(version, date) <==>
            ModeAfter(Prose, lines[..anchor + 1]) == Prose)
  {
    var anchor := AnchorFrom(Visible(Prose, lines), 0).value;
    var heading := ReleaseHeading(version, date);
    var kept := RenderedTop(lines, notes, version, date, anchor);
    HeadingBehindTop(lines[..anchor + 1], heading, kept);
    AnchorLeavesNoFence(lines, anchor);
    ReleaseHeadingFacts(version, date);
    InertScansAsItself(heading);
    ReleaseHeadingEndsNoComment(version, date);
  }

  // ----- Any run of releases

  datatype Release = Release(notes: Notes, version: string, date: string)

  function RenderAll(lines: seq<string>, releases: seq<Release>): Result<seq<string>, RenderError> {
    if releases == [] then Ok(lines)
    else
      match RenderAll(lines, releases[..|releases| - 1])
      case Err(e) => Err(e)
      case Ok(before) =>
        var last := releases[|releases| - 1];
        Render(before, last.notes, last.version, last.date)
  }

  ghost predicate GoodRun(lines: seq<string>, releases: seq<Release>) {
    && (forall i :: 0 <= i < |releases| ==>
          Accepted(releases[i].notes) && IsDate(releases[i].date) && IsFresh(lines, releases[i].version))
    && forall i, j :: 0 <= i < j < |releases| ==> releases[i].version != releases[j].version
  }

  function NewestFirst(releases: seq<Release>): seq<string> {
    if releases == [] then [] else [releases[|releases| - 1].version] + NewestFirst(releases[..|releases| - 1])
  }

  ghost predicate IsReleased(releases: seq<Release>, w: string) {
    exists i :: 0 <= i < |releases| && releases[i].version == w
  }

  /** Extracting the release's version gives its printed notes. */
  ghost predicate ExtractsRelease(lines: seq<string>, release: Release) {
    Extract(lines, release.version) == Ok(PrintNotes(release.notes))
  }

  ghost predicate AllExtract(lines: seq<string>, releases: seq<Release>) {
    forall i :: 0 <= i < |releases| ==> ExtractsRelease(lines, releases[i])
  }

  /** Every version outside the releases gives the same from both files. */
  ghost predicate OthersKept(after: seq<string>, before: seq<string>, releases: seq<Release>) {
    forall w :: !IsReleased(releases, w) ==> SameExtract(after, before, w)
  }

  /** Releases with distinct fresh versions compose: each body can be extracted, every other
      version gives what it gave, and the file lists them newest first. */
  lemma {:induction false} ReleasesCompose(lines: seq<string>, releases: seq<Release>)
    requires WellFormed(lines) && GoodRun(lines, releases)
    ensures
      var result := RenderAll(lines, releases);
      && result.Ok? && WellFormed(result.value)
      && LabelsBelow(result.value) == NewestFirst(releases) + LabelsBelow(lines)
      && AllExtract(result.value, releases)
      && OthersKept(result.value, lines, releases)
  {
    hide Render, PrintNotes, LabelsBelow, Extract, Accepted, ExtractsRelease;
    if releases == [] {
      assert NewestFirst(releases) + LabelsBelow(lines) == LabelsBelow(lines);
    } else {
      var n := |releases| - 1;
      var front, last := releases[..n], releases[n];
      GoodFront(lines, releases);
      ReleasesCompose(lines, front);
      var before := RenderAll(lines, front).value;
      NotReleasedYet(releases);
      RenderThenExtract(before, last.notes, last.version, last.date);
      var after := RenderAll(lines, releases).value;
      LastExtracts(before, after, releases);
      OthersStayKept(lines, before, after, releases);
      PrependLabels(last.version, NewestFirst(front), LabelsBelow(lines), NewestFirst(releases));
    }
  }

  lemma GoodFront(lines: seq<string>, releases: seq<Release>)
    requires releases != [] && GoodRun(lines, releases)
    ensures GoodRun(lines, releases[..|releases| - 1])
  {}

  lemma PrependLabels(version: string, older: seq<string>, rest: seq<string>, newest: seq<string>)
    requires newest == [version] + older
    ensures [version] + (older + rest) == newest + rest
  {}

  lemma NotReleasedYet(releases: seq<Release>)
    requires releases != [] && forall i, j :: 0 <= i < j < |releases| ==> releases[i].version != releases[j].version
    ensures !IsReleased(releases[..|releases| - 1], releases[|releases| - 1].version)
  {}

  lemma ReleasedInFront(releases: seq<Release>, w: string)
    requires releases != []
    ensures IsReleased(releases[..|releases| - 1], w) ==> IsReleased(releases, w)
  {
    var n := |releases| - 1;
    if IsReleased(releases[..n], w) {
      var i :| 0 <= i < n && releases[..n][i].version == w;
      assert releases[i].version == w;
    }
  }

  lemma SameExtractTwice(after: seq<string>, before: seq<string>, lines: seq<string>, w: string)
    requires SameExtract(after, before, w) && SameExtract(before, lines, w)
    ensures SameExtract(after, lines, w)
  {}

  lemma OthersStayKept(lines: seq<string>, before: seq<string>, after: seq<string>, releases: seq<Release>)
    requires releases != [] && OthersKept(before, lines, releases[..|releases| - 1])
    requires OthersKeptBut(after, before, releases[|releases| - 1].version)
    ensures OthersKept(after, lines, releases)
  {
    var n := |releases| - 1;
    forall w | !IsReleased(releases, w) ensures SameExtract(after, lines, w) {
      ReleasedInFront(releases, w);
      assert releases[n].version != w;
      SameExtractTwice(after, before, lines, w);
    }
  }

  lemma LastExtracts(before: seq<string>, after: seq<string>, releases: seq<Release>)
    requires releases != [] && AllExtract(before, releases[..|releases| - 1])
    requires forall i, j :: 0 <= i < j < |releases| ==> releases[i].version != releases[j].version
    requires ExtractsRelease(after, releases[|releases| - 1])
    requires OthersKeptBut(after, before, releases[|releases| - 1].version)
    ensures AllExtract(after, releases)
  {
    forall i | 0 <= i < |releases| ensures ExtractsRelease(after, releases[i]) {
      EachExtracts(before, after, releases, i);
    }
  }

  lemma EachExtracts(before: seq<string>, after: seq<string>, releases: seq<Release>, i: nat)
    requires i < |releases| && AllExtract(before, releases[..|releases| - 1])
    requires i < |releases| - 1 ==> releases[i].version != releases[|releases| - 1].version
    requires ExtractsRelease(after, releases[|releases| - 1])
    requires OthersKeptBut(after, before, releases[|releases| - 1].version)
    ensures ExtractsRelease(after, releases[i])
  {
    hide Extract;
    var n := |releases| - 1;
    if i < n {
      assert releases[..n][i] == releases[i];
      StillExtracts(before, after, releases[i]);
    }
  }

  lemma StillExtracts(before: seq<string>, after: seq<string>, release: Release)
    requires ExtractsRelease(before, release) && SameExtract(after, before, release.version)
    ensures ExtractsRelease(after, release)
  {}
}
