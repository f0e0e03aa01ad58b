/** Printing accepted notes under a `## Changelog` heading and parsing the result gives the
    same notes and no complaint. */
module PrintThenParse {
  import Sequences
  import opened Options
  import opened PyText
  import opened ChangelogHeadings
  import opened ChangelogNotes
  import opened ChangelogScan
  import opened ScanLaws
  import opened AcceptedNotes
  import opened SectionLoop
  import InlineCode

  // ----- Scanning printed sections

  lemma InertScansAsItself(line: string)
    requires IsInert(line)
    ensures ScanLine(Prose, line) == Scanned(line, line, Prose, false)
  {
    InlineCode.MaskPlain(line);
    assert LStrip(line) == line;
    forall i ensures !StandsAt(line, "<!--", i) {
      if 0 <= i <= |line| - 4 {
        assert line[i..i + 4][0] == line[i] != '<';
      }
    }
    PlainProse(line);
    RStripStripped(line);
  }

  lemma ScanBody(name: string, lines: seq<string>)
    requires name in SECTION_ORDER && GoodBody(lines)
    ensures
      var printed := [SectionHeading(name)] + lines;
      ReadsAsItself(printed) && Visible(Prose, printed) == [SectionHeading(name)] + Visible(Prose, lines)
  {
    SectionNamesAreNames();
    SectionHeadingFacts(name);
    InertScansAsItself(SectionHeading(name));
    ScanOfOne(Prose, SectionHeading(name));
    ScanComposes(Prose, [SectionHeading(name)], lines);
  }

  lemma ScanBlank()
    ensures ReadsAsItself([[]]) && Visible(Prose, [[]]) == [[]]
  {
    ScanOfNothing(Prose);
    ScanOfOne(Prose, []);
  }

  lemma ReadsInARow(a: seq<string>, b: seq<string>)
    requires ReadsAsItself(a) && ReadsAsItself(b)
    ensures ReadsAsItself(a + b) && Visible(Prose, a + b) == Visible(Prose, a) + Visible(Prose, b)
  {
    ScanComposes(Prose, a, b);
  }

  lemma ScanWithGap(front: seq<string>, n: nat, body: seq<string>)
    requires ReadsAsItself(front) && ReadsAsItself(body)
    ensures ReadsAsItself(front + Gap(n) + body)
    ensures Visible(Prose, front + Gap(n) + body) == Visible(Prose, front) + Gap(n) + Visible(Prose, body)
  {
    ScanBlank();
    assert ReadsAsItself([]) && Visible(Prose, []) == [];
    ReadsInARow(front, Gap(n));
    ReadsInARow(front + Gap(n), body);
  }

  /** The sections with the views the scanner gives of them. */
  ghost function ShownOf(sections: seq<Section>): (shown: seq<Shown>)
    ensures |shown| == |sections|
  {
    seq(|sections|, i requires 0 <= i < |sections| => Shown(sections[i], Visible(Prose, sections[i].lines)))
  }

  ghost predicate GoodBodies(sections: seq<Section>) {
    forall i :: 0 <= i < |sections| ==> sections[i].name in SECTION_ORDER && GoodBody(sections[i].lines)
  }

  lemma ShownOfFront(sections: seq<Section>)
    requires sections != []
    ensures ShownOf(sections)[..|sections| - 1] == ShownOf(sections[..|sections| - 1])
  {}

  lemma {:induction false} PrintedStep(sections: seq<Section>)
    requires sections != []
    ensures
      var n := |sections| - 1;
      PrintSections(sections) ==
      PrintSections(sections[..n]) + Gap(n) + ([SectionHeading(sections[n].name)] + sections[n].lines)
  {
    var n := |sections| - 1;
    Sequences.Reassociate(PrintSections(sections[..n]) + Gap(n), [SectionHeading(sections[n].name)], sections[n].lines);
  }

  /** Printed sections read as themselves, section by section. */
  lemma {:induction false} ScanPrinted(sections: seq<Section>)
    requires GoodBodies(sections)
    ensures ReadsAsItself(PrintSections(sections))
    ensures PrintSections(sections) == ShowLines(ShownOf(sections))
    ensures Visible(Prose, PrintSections(sections)) == ShowViews(ShownOf(sections))
  {
    if sections != [] {
      var n := |sections| - 1;
      ScanPrinted(sections[..n]);
      ScanBody(sections[n].name, sections[n].lines);
      PrintedStep(sections);
      ShownOfFront(sections);
      ScanWithGap(PrintSections(sections[..n]), n, [SectionHeading(sections[n].name)] + sections[n].lines);
    }
  }

  lemma GoodShownOf(sections: seq<Section>)
    requires GoodSections(sections)
    ensures AllGoodShown(ShownOf(sections)) && SectionsOf(ShownOf(sections)) == sections
  {
    assert SectionsOf(ShownOf(sections)) == sections;
  }

  // ----- The heading above the sections

  const CHANGELOG_HEADING := "## Changelog"

  lemma ChangelogHeadingFacts()
    ensures IsInert(CHANGELOG_HEADING) && HeadingOf(CHANGELOG_HEADING) == Some(Heading(2, "Changelog"))
    ensures !IsStray(CHANGELOG_HEADING)
  {
    hide HeadingOf, LStrip;
    var s := CHANGELOG_HEADING;
    assert s == "##" + [' '] + "Changelog";
    HeadingOfPrefix(2, "##", "Changelog");
    RStripStripped(s);
    HeadingIsStripped(s);
    ChangelogIsNoSection();
  }

  lemma ChangelogIsNoSection()
    ensures "Changelog" !in SECTION_ORDER
  {
    forall k | 0 <= k < |SECTION_ORDER| ensures SECTION_ORDER[k] != "Changelog" {
      assert |SECTION_ORDER[k]| != 9;
    }
  }

  lemma {:induction false} NoChangelogHeadings(visible: seq<string>, from: nat)
    requires from <= |visible| && forall i :: from <= i < |visible| ==> !IsTopHeading(visible[i])
    ensures ChangelogHeadingsFrom(visible, from) == []
    decreases |visible| - from
  {
    if from < |visible| {
      NoChangelogHeadings(visible, from + 1);
    }
  }

  lemma {:induction false} NoStrays(visible: seq<string>, start: nat, end: nat, from: nat)
    requires from <= |visible| && forall i :: from <= i < |visible| ==> start < i < end || !IsStray(visible[i])
    ensures Strays(visible, start, end, from) == []
    decreases |visible| - from
  {
    if from < |visible| {
      NoStrays(visible, start, end, from + 1);
    }
  }

  lemma OneHeadingHasNoSecond(found: seq<nat>)
    requires |found| == 1
    ensures SecondHeadings(found[1..]) == []
  {
    assert found[1..] == [];
  }

  lemma NoEarlyProblems(second: seq<Problem>, strays: seq<Problem>, rest: seq<Problem>)
    requires second == [] && strays == []
    ensures second + strays + rest == rest
  {}

  lemma {:induction false} OneBlockViews(all: seq<string>, clean: seq<string>, views: seq<string>, lines: seq<string>)
    requires |all| == |clean| > 0 && ChangelogHeadingsFrom(all, 0) == [0] && BlockEnd(all, 0) == |all|
    requires Strays(all, 0, |all|, 0) == [] && all[1..|all|] == views && clean[1..|all|] == lines
    ensures ParseViews(all, clean) == ParseContent(views, lines, 1)
  {
    hide ChangelogHeadingsFrom, BlockEnd, ParseContent, SecondHeadings, Strays;
    var found := ChangelogHeadingsFrom(all, 0);
    OneHeadingHasNoSecond(found);
    NoEarlyProblems(SecondHeadings(found[1..]), Strays(all, 0, |all|, 0), ParseContent(views, lines, 1).1);
  }

  lemma BlockOfAll(all: seq<string>)
    requires all != [] && forall i :: 0 < i < |all| ==> !IsTopHeading(all[i])
    ensures BlockEnd(all, 0) == |all|
  {
    hide IsTopHeading;
  }

  lemma {:induction false} OneChangelogHeading(all: seq<string>)
    requires all != [] && all[0] == CHANGELOG_HEADING && forall i :: 0 < i < |all| ==> !IsTopHeading(all[i])
    ensures ChangelogHeadingsFrom(all, 0) == [0]
  {
    hide HeadingOf, IsTopHeading;
    ChangelogHeadingFacts();
    NoChangelogHeadings(all, 1);
  }

  lemma {:induction false} NoStrayAround(all: seq<string>)
    requires all != [] && all[0] == CHANGELOG_HEADING
    ensures Strays(all, 0, |all|, 0) == []
  {
    hide HeadingOf, IsStray, Strays;
    ChangelogHeadingFacts();
    NoStrays(all, 0, |all|, 0);
  }

  /** A `## Changelog` heading over lines without `#` or `##` headings is read as one block. */
  lemma OneBlock(views: seq<string>, lines: seq<string>)
    requires |views| == |lines| && forall i :: 0 <= i < |views| ==> !IsTopHeading(views[i])
    ensures ParseViews([CHANGELOG_HEADING] + views, [CHANGELOG_HEADING] + lines) == ParseContent(views, lines, 1)
  {
    hide *;
    var all, clean := [CHANGELOG_HEADING] + views, [CHANGELOG_HEADING] + lines;
    OneChangelogHeading(all);
    BlockOfAll(all);
    NoStrayAround(all);
    assert all[1..|all|] == views && clean[1..|all|] == lines;
    OneBlockViews(all, clean, views, lines);
  }

  /** Lines that read as themselves are parsed under the heading from their own views. */
  lemma ParseBelowHeading(lines: seq<string>)
    requires ReadsAsItself(lines)
    requires forall i :: 0 <= i < |lines| ==> !IsTopHeading(Visible(Prose, lines)[i])
    ensures Parse([CHANGELOG_HEADING] + lines) == ParseContent(Visible(Prose, lines), lines, 1)
  {
    ChangelogHeadingFacts();
    InertScansAsItself(CHANGELOG_HEADING);
    ScanOfOne(Prose, CHANGELOG_HEADING);
    ReadsInARow([CHANGELOG_HEADING], lines);
    OneBlock(Visible(Prose, lines), lines);
  }

  lemma VisibleIsRStripped(mode: Mode, line: string)
    ensures RStrip(ScanLine(mode, line).visible) == ScanLine(mode, line).visible
  {
    forall prose: string ensures RStrip(ScanProse(prose).visible) == ScanProse(prose).visible {
      var masked := DropComments(prose, InlineCode.Mask(prose)).masked;
      RStripFacts(masked);
      RStripStripped(RStrip(masked));
    }
  }

  lemma {:induction false} SectionLineIsNoTopHeading(visible: string)
    requires IsSectionLine(visible) && RStrip(visible) == visible
    ensures !IsTopHeading(visible)
  {
    if HeadingOf(visible).Some? {
      HeadingIsStripped(visible);
      assert !IsPlain(visible);
      var name :| name in SECTION_ORDER && visible == SectionHeading(name);
      SectionNamesAreNames();
      SectionHeadingFacts(name);
    }
  }

  lemma NoTopHeadings(views: seq<string>)
    requires AllSectionLines(views) && forall i :: 0 <= i < |views| ==> RStrip(views[i]) == views[i]
    ensures forall i :: 0 <= i < |views| ==> !IsTopHeading(views[i])
  {
    forall i | 0 <= i < |views| ensures !IsTopHeading(views[i]) {
      SectionLineIsNoTopHeading(views[i]);
    }
  }

  lemma AllRStripped(mode: Mode, lines: seq<string>)
    ensures forall i :: 0 <= i < |lines| ==> RStrip(Visible(mode, lines)[i]) == Visible(mode, lines)[i]
  {
    forall i | 0 <= i < |lines| ensures RStrip(Visible(mode, lines)[i]) == Visible(mode, lines)[i] {
      VisibleIsRStripped(ModeAfter(mode, lines[..i]), lines[i]);
    }
  }

  lemma {:induction false} ParsePrintedSections(sections: seq<Section>)
    requires GoodSections(sections)
    ensures Parse([CHANGELOG_HEADING] + PrintSections(sections)) == (Notes(sections, None), [])
  {
    var lines := PrintSections(sections);
    ScanPrinted(sections);
    GoodShownOf(sections);
    ShownLines(ShownOf(sections));
    AllRStripped(Prose, lines);
    NoTopHeadings(Visible(Prose, lines));
    ParseBelowHeading(lines);
    ContentOfShown(ShownOf(sections), 1);
  }

  // ----- A printed `None.` line

  lemma {:induction false} NoneViewIsNoHeading(view: string)
    requires RStrip(view) == view && StartsWith(Strip(view), "None.")
    ensures !IsTopHeading(view)
  {
    if HeadingOf(view).Some? {
      HeadingIsStripped(view);
    }
  }

  lemma ParsePrintedNone(line: string)
    requires GoodNone(line)
    ensures Parse([CHANGELOG_HEADING, line]) == (Notes([], Some(line)), [])
  {
    hide ParseContent, Parse, HeadingOf, Strip, RStrip, PlaceholderOnly, IsNoneLine, StartsWith;
    var view := ScanLine(Prose, line).visible;
    ScanOfOne(Prose, line);
    VisibleIsRStripped(Prose, line);
    NoneViewIsNoHeading(view);
    ParseBelowHeading([line]);
    assert [CHANGELOG_HEADING] + [line] == [CHANGELOG_HEADING, line];
    ContentOfNone(view, line);
  }

  lemma ContentOfNone(view: string, line: string)
    requires StartsWith(Strip(view), "None.") && Strip(line) == line
    requires IsNoneLine(line) && !PlaceholderOnly(Strip(line[5..]))
    ensures ParseContent([view], [line], 1) == (Notes([], Some(line)), [])
  {
    assert Strip(view) != [];
    assert TextFrom([view], 0) == Some(0);
    NoHolesNoPlaceholders([view], Some(0), 2);
    assert NoneProblems(line, 2) == [];
    assert [view][..0] == [];
    assert NotAlone([view], 0, 2) == [];
  }

  /** For every accepted value: parsing what is printed under the heading gives the value
      back, without a complaint. */
  lemma PrintThenParseIsIdentity(notes: Notes)
    requires Accepted(notes)
    ensures Parse([CHANGELOG_HEADING] + PrintNotes(notes)) == (notes, [])
  {
    match notes.noneLine
    case Some(line) =>
      ParsePrintedNone(line);
      assert [CHANGELOG_HEADING] + [line] == [CHANGELOG_HEADING, line];
    case None =>
      ParsePrintedSections(notes.sections);
  }
}
