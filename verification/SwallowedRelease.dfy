/** A release rendered below an anchor that leaves a comment open. The heading and the notes go into
    the comment, and the new version cannot be extracted. */
module SwallowedRelease {
  import opened Options
  import opened PyText
  import opened ChangelogHeadings
  import opened ChangelogNotes
  import opened ChangelogScan
  import opened ScanLaws
  import opened AcceptedNotes
  import opened ChangelogRelease
  import opened ReleaseViews
  import opened ReleaseLaws
  import InlineCode
  import ParseAccepts

  /** No line ends a comment that is open when it starts. */
  ghost predicate EndsNoComment(lines: seq<string>) {
    forall i :: 0 <= i < |lines| ==> !Contains(InlineCode.Mask(lines[i]), "-->")
  }

  ghost predicate Swallowed(line: string) {
    ScanLine(Comment, line) == Scanned([], [], Comment, false)
  }

  lemma LineIsSwallowed(line: string)
    requires !Contains(InlineCode.Mask(line), "-->")
    ensures Swallowed(line)
  {
  }

  lemma BlankIsSwallowed(line: string)
    requires Strip(line) == []
    ensures Swallowed(line)
  {
    ParseAccepts.BlankStrips(line);
    BlankHasNoTicks(line);
    InlineCode.MaskPlain(line);
    forall i ensures !StandsAt(line, "-->", i) {
      if 0 <= i <= |line| - 3 {
        assert line[i..i + 3][0] == line[i];
      }
    }
  }

  /** Lines that end no comment leave nothing to see inside one. */
  lemma {:induction false} LinesAreSwallowed(lines: seq<string>)
    requires forall i :: 0 <= i < |lines| ==> Swallowed(lines[i])
    ensures ModeAfter(Comment, lines) == Comment && AllEmpty(Visible(Comment, lines))
  {
    if lines != [] {
      var n := |lines| - 1;
      LinesAreSwallowed(lines[..n]);
      assert Swallowed(lines[n]);
      ScanOneMore(Comment, lines, n);
      assert lines[..n + 1] == lines;
      EmptyInARow(Visible(Comment, lines[..n]), ScannedAt(Comment, lines, n).visible);
    }
  }

  /** What is left of some lines, read inside a comment, from the first that ends it. */
  ghost function Unswallowed(lines: seq<string>): seq<string> {
    if lines == [] || Contains(InlineCode.Mask(lines[0]), "-->") then lines else Unswallowed(lines[1..])
  }

  lemma {:induction false} UnswallowedIs(lines: seq<string>) returns (front: seq<string>)
    ensures lines == front + Unswallowed(lines) && AllSwallowed(front)
    ensures Unswallowed(lines) == [] <==> EndsNoComment(lines)
  {
    hide Swallowed, Contains, InlineCode.Mask;
    if lines == [] || Contains(InlineCode.Mask(lines[0]), "-->") {
      front := [];
    } else {
      var rest := UnswallowedIs(lines[1..]);
      LineIsSwallowed(lines[0]);
      SwallowedTwice([lines[0]], rest);
      front := [lines[0]] + rest;
      assert lines == [lines[0]] + lines[1..];
      assert lines == front + Unswallowed(lines);
      EndsNoCommentRest(lines);
    }
  }

  lemma EndsNoCommentRest(lines: seq<string>)
    requires lines != [] && !Contains(InlineCode.Mask(lines[0]), "-->")
    ensures EndsNoComment(lines) <==> EndsNoComment(lines[1..])
  {
    hide Contains, InlineCode.Mask;
    if EndsNoComment(lines[1..]) {
      forall i | 0 <= i < |lines| ensures !Contains(InlineCode.Mask(lines[i]), "-->") {
        assert i == 0 || lines[i] == lines[1..][i - 1];
      }
    }
  }

  ghost predicate AllSwallowed(lines: seq<string>) {
    forall i :: 0 <= i < |lines| ==> Swallowed(lines[i])
  }

  /** Swallowed lines behind an open anchor: what follows them is read in the comment, and a version whose
      heading is not above is extracted from there. */
  lemma {:induction false} SwallowedBetween(top: seq<string>, between: seq<string>, rest: seq<string>, version: string)
    requires ModeAfter(Prose, top) == Comment && AllSwallowed(between)
    ensures
      var lines := top + between + rest;
      && ModeAfter(Prose, lines) == ModeAfter(Comment, rest)
      && (LabelFrom(Visible(Prose, lines), version, 0) == None <==>
            LabelFrom(Visible(Prose, top), version, 0) == None && LabelFrom(Visible(Comment, rest), version, 0) == None)
      && (LabelFrom(Visible(Prose, top), version, 0) == None ==>
            ExtractViews(lines, Visible(Prose, lines), version) == ExtractViews(rest, Visible(Comment, rest), version))
  {
    hide Swallowed, ScanLine;
    LinesAreSwallowed(between);
    ScanComposes(Prose, top, between);
    ScanComposes(Prose, top + between, rest);
    var views := Visible(Comment, between);
    EmptyIsBlank(views);
    LabelInTwo(Visible(Prose, top) + views, Visible(Comment, rest), version, 0);
    LabelInTwo(Visible(Prose, top), views, version, 0);
    NoLabelAtBlank(views, version);
    if LabelFrom(Visible(Prose, top), version, 0) == None {
      ExtractSecond(top + between, Visible(Prose, top) + views, rest, Visible(Comment, rest), version);
    }
  }

  lemma HeadIsSwallowed(version: string, date: string)
    requires IsVersion(version) && IsDate(date)
    ensures AllSwallowed([[], ReleaseHeading(version, date), []])
  {
    ReleaseHeadingEndsNoComment(version, date);
    assert Strip([]) == [];
    BlankIsSwallowed([]);
  }

  /** The part of the rendered file behind the comment: the notes from the first line that ends it, and
      what stood below the anchor's block. */
  ghost function Behind(lines: seq<string>, notes: Notes, anchor: nat): seq<string>
    requires anchor < |lines|
  {
    Unswallowed(PrintNotes(notes)) + [[]] + lines[BlockEnd(Visible(Prose, lines), anchor)..]
  }

  lemma InsertedBehind(top: seq<string>, notes: Notes, version: string, date: string, rest: seq<string>, front: seq<string>)
    requires PrintNotes(notes) == front + Unswallowed(PrintNotes(notes))
    ensures
      top + ReleaseBlock(notes, version, date) + rest
      == top + ([[], ReleaseHeading(version, date), []] + front) + (Unswallowed(PrintNotes(notes)) + [[]] + rest)
  {
    hide PrintNotes, Unswallowed, ReleaseHeading;
    var back, heading := Unswallowed(PrintNotes(notes)), ReleaseHeading(version, date);
    assert ReleaseBlock(notes, version, date) == ([[], heading, []] + front) + (back + [[]]);
  }

  /** Dropping empty lines at the end, an open block included. */
  lemma {:induction false} DroppedExtract(all: seq<string>, w: string)
    requires IsVersion(w)
    ensures
      if ModeAfter(Prose, all) == Prose then Extract(DropTrailingEmpty(all), w) == ExtractViews(all, Visible(Prose, all), w)
      else Extract(DropTrailingEmpty(all), w).Err? && Extract(DropTrailingEmpty(all), w).error.OpenBlock?
  {
    hide IsVersion, Visible, ExtractViews, ModeAfter;
    if ModeAfter(Prose, all) == Prose {
      DroppedExtracts(all, w);
    } else {
      var _, _ := DropEmptyEnd(all);
    }
  }

  /** The parts of a file whose anchor leaves a comment open: no heading of a fresh version shows in them. */
  lemma OpenParts(lines: seq<string>, version: string, anchor: nat, end: nat)
    requires anchor < end <= |lines| && ModeAfter(Prose, lines[..anchor + 1]) == Comment
    requires TextFrom(lines[..end], anchor + 1) == None && LabelFrom(Visible(Prose, lines), version, 0) == None
    ensures ModeAfter(Prose, lines) == ModeAfter(Comment, lines[end..])
    ensures LabelFrom(Visible(Prose, lines[..anchor + 1]), version, 0) == None
    ensures LabelFrom(Visible(Comment, lines[end..]), version, 0) == None
  {
    hide Visible, ModeAfter;
    var gap := lines[anchor + 1..end];
    ThreeParts(lines, anchor + 1, end);
    BlankBelow(lines, anchor, end);
    BlanksAreSwallowed(gap);
    SwallowedBetween(lines[..anchor + 1], gap, lines[end..], version);
  }

  /** A release below an open anchor: the new version is extracted from behind the comment. */
  lemma {:induction false} BehindExtracts(top: seq<string>, notes: Notes, version: string, date: string, rest: seq<string>)
    requires ModeAfter(Prose, top) == Comment && LabelFrom(Visible(Prose, top), version, 0) == None
    requires IsVersion(version) && IsDate(date)
    ensures
      var behind := Unswallowed(PrintNotes(notes)) + [[]] + rest;
      var extracted := Extract(DropTrailingEmpty(top + ReleaseBlock(notes, version, date) + rest), version);
      if ModeAfter(Comment, behind) == Prose then extracted == ExtractViews(behind, Visible(Comment, behind), version)
      else extracted.Err? && extracted.error.OpenBlock?
  {
    hide *;
    var front := UnswallowedIs(PrintNotes(notes));
    var behind := Unswallowed(PrintNotes(notes)) + [[]] + rest;
    HeadIsSwallowed(version, date);
    SwallowedTwice([[], ReleaseHeading(version, date), []], front);
    InsertedBehind(top, notes, version, date, rest, front);
    SwallowedBetween(top, [[], ReleaseHeading(version, date), []] + front, behind, version);
    DroppedExtract(top + ReleaseBlock(notes, version, date) + rest, version);
  }

  /** Notes that end no comment leave nothing to extract. */
  lemma {:induction false} NothingBehind(notes: Notes, version: string, rest: seq<string>)
    requires EndsNoComment(PrintNotes(notes)) && ModeAfter(Comment, rest) == Prose
    requires LabelFrom(Visible(Comment, rest), version, 0) == None
    ensures
      var behind := Unswallowed(PrintNotes(notes)) + [[]] + rest;
      && ModeAfter(Comment, behind) == Prose && LabelFrom(Visible(Comment, behind), version, 0) == None
      && ExtractViews(behind, Visible(Comment, behind), version) == Err(NoSection)
  {
    hide ModeAfter, Visible, EndsNoComment, PrintNotes, Unswallowed;
    var _ := UnswallowedIs(PrintNotes(notes));
    assert Unswallowed(PrintNotes(notes)) + [[]] + rest == [[]] + rest;
    OneBlankBefore(rest, version);
  }

  lemma {:induction false} RenderedBehind(lines: seq<string>, notes: Notes, version: string, date: string, anchor: nat)
    requires IssueOf(lines) == None && AnchorFrom(Visible(Prose, lines), 0) == Some(anchor)
    requires Render(lines, notes, version, date).Ok?
    ensures
      var end := BlockEnd(Visible(Prose, lines), anchor);
      && ModeAfter(Prose, lines) == Prose && TextFrom(lines[..end], anchor + 1) == None
      && LabelFrom(Visible(Prose, lines), version, 0) == None
      && Render(lines, notes, version, date).value
         == DropTrailingEmpty(lines[..anchor + 1] + ReleaseBlock(notes, version, date) + lines[end..])
      && Behind(lines, notes, anchor) == Unswallowed(PrintNotes(notes)) + [[]] + lines[end..]
  {
    hide Visible, ReleaseBlock, PrintNotes, Unswallowed, ModeAfter;
  }

  /** An anchor that leaves a comment open: whatever the notes, the new version is extracted from behind the
      comment. */
  lemma OpenAnchorSwallows(lines: seq<string>, notes: Notes, version: string, date: string, anchor: nat)
    requires IssueOf(lines) == None && AnchorFrom(Visible(Prose, lines), 0) == Some(anchor)
    requires ModeAfter(Prose, lines[..anchor + 1]) == Comment
    requires IsVersion(version) && IsDate(date) && Render(lines, notes, version, date).Ok?
    ensures
      var extracted := Extract(Render(lines, notes, version, date).value, version);
      var behind := Behind(lines, notes, anchor);
      && (if ModeAfter(Comment, behind) == Prose then extracted == ExtractViews(behind, Visible(Comment, behind), version)
          else extracted.Err? && extracted.error.OpenBlock?)
      && (EndsNoComment(PrintNotes(notes)) ==> extracted == Err(NoSection))
  {
    hide *;
    var end := BlockEnd(Visible(Prose, lines), anchor);
    RenderedBehind(lines, notes, version, date, anchor);
    OpenParts(lines, version, anchor, end);
    BehindExtracts(lines[..anchor + 1], notes, version, date, lines[end..]);
    if EndsNoComment(PrintNotes(notes)) {
      NothingBehind(notes, version, lines[end..]);
    }
  }

  lemma BlanksAreSwallowed(lines: seq<string>)
    requires AllBlankLines(lines)
    ensures AllSwallowed(lines)
  {
    hide Swallowed;
    forall i | 0 <= i < |lines| ensures Swallowed(lines[i]) {
      BlankIsSwallowed(lines[i]);
    }
  }

  lemma SwallowedTwice(a: seq<string>, b: seq<string>)
    requires AllSwallowed(a) && AllSwallowed(b)
    ensures AllSwallowed(a + b)
  {
    hide Swallowed;
  }

  lemma {:induction false} OneBlankBefore(rest: seq<string>, version: string)
    ensures ModeAfter(Comment, [[]] + rest) == ModeAfter(Comment, rest)
    ensures LabelFrom(Visible(Comment, [[]] + rest), version, 0) == None <==> LabelFrom(Visible(Comment, rest), version, 0) == None
  {
    ScanComposes(Comment, [[]], rest);
    ScanOfOne(Comment, []);
    EmptyLineKeepsMode(Comment);
    EmptyIsBlank([[]]);
    LabelInTwo([[]], Visible(Comment, rest), version, 0);
    NoLabelAtBlank([[]], version);
  }

  /** What extracting a version gives right after it was rendered. When the anchor line leaves no comment open,
      its printed notes. When it leaves one open, no such section if no line of the notes ends it, and
      otherwise what a heading of that version that shows behind it gives; so the notes come back exactly when
      the anchor line closes, unless such a heading shows. */
  lemma {:induction false} ExtractsIffAnchorCloses(lines: seq<string>, notes: Notes, version: string, date: string)
    requires IssueOf(lines) == None && AnchorFrom(Visible(Prose, lines), 0).Some?
    requires IsVersion(version) && IsDate(date) && Accepted(notes)
    requires Render(lines, notes, version, date).Ok?
    ensures
      var anchor := AnchorFrom(Visible(Prose, lines), 0).value;
      var mode := ModeAfter(Prose, lines[..anchor + 1]);
      var extracted := Extract(Render(lines, notes, version, date).value, version);
      var behind := Behind(lines, notes, anchor);
      && (mode == Prose || mode == Comment)
      && (mode == Prose ==> extracted == Ok(PrintNotes(notes)))
      && (mode == Comment ==>
            if ModeAfter(Comment, behind) == Prose then extracted == ExtractViews(behind, Visible(Comment, behind), version)
            else extracted.Err? && extracted.error.OpenBlock?)
      && (LabelFrom(Visible(Comment, behind), version, 0) == None ==> (extracted == Ok(PrintNotes(notes)) <==> mode == Prose))
      && (EndsNoComment(PrintNotes(notes)) ==>
            && (extracted == Ok(PrintNotes(notes)) <==> mode == Prose)
            && (extracted == Err(NoSection) <==> mode == Comment))
  {
    hide ModeAfter, ReleaseBlock, IsVersion, IsDate, EndsNoComment, Visible, Accepted, PrintNotes, Behind, Extract;
    var anchor := AnchorFrom(Visible(Prose, lines), 0).value;
    AnchorLeavesNoFence(lines, anchor);
    if ModeAfter(Prose, lines[..anchor + 1]) == Prose {
      ProseIsWellFormed(lines, notes, version, date, anchor);
      ExtractFromRendered(lines, notes, version, date, version);
    } else {
      OpenAnchorSwallows(lines, notes, version, date, anchor);
    }
  }

  lemma {:induction false} ProseIsWellFormed(lines: seq<string>, notes: Notes, version: string, date: string, anchor: nat)
    requires IssueOf(lines) == None && AnchorFrom(Visible(Prose, lines), 0) == Some(anchor)
    requires ModeAfter(Prose, lines[..anchor + 1]) == Prose && Render(lines, notes, version, date).Ok?
    ensures WellFormed(lines) && LabelFrom(Visible(Prose, lines), version, 0) == None
  {
    hide ModeAfter, Visible, ReleaseBlock, PrintNotes;
  }
}
