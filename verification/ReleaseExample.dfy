/** A release that meets every condition of the release laws: a changelog of nothing but its anchor,
    and notes that say there is nothing to say. And one that is swallowed by a comment. */
module ReleaseExample {
  import opened Options
  import opened PyText
  import opened ChangelogScan
  import opened ScanLaws
  import opened ChangelogHeadings
  import opened ChangelogNotes
  import opened ChangelogRelease
  import opened AcceptedNotes
  import SectionLoop
  import PrintThenParse
  import ReleaseLaws
  import SwallowedRelease
  import InlineCode

  const ANCHOR: string := "## [Unreleased]"
  const REASON: string := "None. Docs"

  lemma AnchorHeading()
    ensures HeadingOf(ANCHOR) == Some(Heading(2, "[Unreleased]"))
  {
    hide HeadingOf;
    assert ANCHOR == "##" + [' '] + "[Unreleased]";
    SectionLoop.HeadingOfPrefix(2, "##", "[Unreleased]");
  }

  lemma BracketOfAnchor()
    ensures UntilBracket("Unreleased]") == Some("Unreleased")
  {
    hide UntilBracket;
    ReleaseLaws.LabelOfVersion("Unreleased", "");
    assert "Unreleased" + [']'] + "" == "Unreleased]";
  }

  lemma AnchorLabel()
    ensures IsUnreleased(ANCHOR) && ReleaseLabel(ANCHOR) == Some("Unreleased")
  {
    hide HeadingOf, UntilBracket;
    AnchorHeading();
    BracketOfAnchor();
    assert "[Unreleased]"[1..] == "Unreleased]";
  }

  lemma AnchorScans()
    ensures Visible(Prose, [ANCHOR]) == [ANCHOR] && ModeAfter(Prose, [ANCHOR]) == Prose
  {
    assert SectionLoop.IsInert(ANCHOR);
    PrintThenParse.InertScansAsItself(ANCHOR);
    ScanOfOne(Prose, ANCHOR);
  }

  lemma AnchorIsReady(version: string)
    requires IsVersion(version) && version != "Unreleased"
    ensures ReleaseLaws.WellFormed([ANCHOR]) && ReleaseLaws.IsFresh([ANCHOR], version)
  {
    hide HeadingOf, Visible, ModeAfter, IsVersion, ReleaseLabel, IsUnreleased;
    AnchorLabel();
    AnchorScans();
    assert [ANCHOR][..1] == [ANCHOR];
  }

  lemma ReasonIsAccepted()
    ensures Accepted(Notes([], Some(REASON)))
  {
    ReasonScans();
    ReasonIsReason();
  }

  lemma ReasonOpensNothing()
    ensures ScanLine(Prose, REASON) == ScanProse(REASON)
  {
    hide ScanProse;
    assert LStrip(REASON) == REASON;
    assert Lead(REASON, '`') == 0 && Lead(REASON, '~') == 0;
  }

  lemma ReasonHasNoOpener()
    ensures InlineCode.Mask(REASON) == REASON && !Contains(REASON, "<!--")
  {
    InlineCode.MaskPlain(REASON);
    hide InlineCode.Mask;
    forall i ensures !StandsAt(REASON, "<!--", i) {
      if 0 <= i <= |REASON| - 4 {
        assert REASON[i..i + 4][0] == REASON[i] != '<';
      }
    }
  }

  lemma ReasonScans()
    ensures ScanLine(Prose, REASON) == Scanned(REASON, REASON, Prose, false)
  {
    hide ScanLine, ScanProse, InlineCode.Mask, RStrip, Contains;
    ReasonOpensNothing();
    ReasonHasNoOpener();
    PlainProse(REASON);
    RStripStripped(REASON);
  }

  lemma ReasonIsReason()
    ensures Strip(REASON) == REASON && IsNoneLine(REASON) && !PlaceholderOnly(Strip(REASON[5..]))
    ensures StartsWith(REASON, "None.")
  {
    var why := REASON[5..];
    assert why == " Docs" && why[1..] == "Docs";
    assert LStrip("Docs") == "Docs";
    assert LStrip(why) == LStrip(why[1..]) == "Docs";
    RStripStripped("Docs");
    assert Strip(why) == "Docs";
    assert !SameIgnoringCase("Docs", "todo");
  }

  /** The release laws speak of something: here is a release all their conditions hold for. */
  lemma AReleaseIsPossible()
    ensures
      var lines, notes := [ANCHOR], Notes([], Some(REASON));
      && ReleaseLaws.WellFormed(lines) && ReleaseLaws.IsFresh(lines, "1.0.0") && IsDate("2024-01-31") && Accepted(notes)
      && Extract(Render(lines, notes, "1.0.0", "2024-01-31").value, "1.0.0") == Ok(PrintNotes(notes))
  {
    hide *;
    VersionAndDate();
    AnchorIsReady("1.0.0");
    ReasonIsAccepted();
    ReleaseLaws.RenderThenExtract([ANCHOR], Notes([], Some(REASON)), "1.0.0", "2024-01-31");
  }

  lemma VersionAndDate()
    ensures IsVersion("1.0.0") && "1.0.0" != "Unreleased" && IsDate("2024-01-31")
  {
    assert |"1.0.0"| != |"Unreleased"|;
  }

  // ----- A release that is swallowed

  /** The anchor line opens a comment that the next heading's line ends. */
  const OPEN_ANCHOR: string := "## [Unreleased] <!--"
  const FIRST: string := ReleaseHeading("1.0.0", "2023-01-31")
  const FIRST_LINE: string := "-->" + FIRST

  lemma OpenAnchorScans()
    ensures ScanLine(Prose, OPEN_ANCHOR) == Scanned(ANCHOR, ANCHOR, Comment, true)
  {
    hide InlineCode.Mask, RStrip;
    InlineCode.MaskPlain(OPEN_ANCHOR);
    assert LStrip(OPEN_ANCHOR) == OPEN_ANCHOR;
    OpenAnchorComment();
    assert OPEN_ANCHOR[..16] == ANCHOR + " ";
    RStripAppendBlank(ANCHOR, " ");
    RStripStripped(ANCHOR);
  }

  lemma OpenAnchorComment()
    ensures FirstComment(OPEN_ANCHOR) == Unclosed(16)
  {
    assert OPEN_ANCHOR[16..20] == "<!--" && StandsAt(OPEN_ANCHOR, "<!--", 16);
    forall i | 0 <= i < 16 ensures !StandsAt(OPEN_ANCHOR, "<!--", i) {
      assert OPEN_ANCHOR[i..i + 4][0] == OPEN_ANCHOR[i] != '<';
    }
  }

  lemma FirstHeading()
    ensures SectionLoop.IsInert(FIRST) && IsTopHeading(FIRST) && ReleaseLabel(FIRST) == Some("1.0.0")
    ensures !IsUnreleased(FIRST)
  {
    hide HeadingOf, UntilBracket;
    assert IsVersion("1.0.0") && IsDate("2023-01-31");
    ReleaseLaws.ReleaseHeadingFacts("1.0.0", "2023-01-31");
    NotTheAnchor(FIRST, "1.0.0");
  }

  lemma NotTheAnchor(heading: string, version: string)
    requires ReleaseLabel(heading) == Some(version) && version != "Unreleased"
    ensures !IsUnreleased(heading)
  {
    hide HeadingOf, UntilBracket;
    BracketOfAnchor();
    assert "[Unreleased]"[1..] == "Unreleased]";
  }

  lemma InertBehindComment(heading: string)
    requires SectionLoop.IsInert(heading)
    ensures ScanLine(Comment, "-->" + heading) == Scanned(heading, heading, Prose, false)
  {
    hide InlineCode.Mask, ScanProse;
    var line := "-->" + heading;
    InlineCode.MaskPlain(line);
    assert line[0..3] == "-->" && StandsAt(line, "-->", 0);
    assert line[3..] == heading && LStrip(heading) == heading;
    PrintThenParse.InertScansAsItself(heading);
  }

  lemma FirstLineScans()
    ensures ScanLine(Comment, FIRST_LINE) == Scanned(FIRST, FIRST, Prose, false)
  {
    hide ScanLine, HeadingOf, ReleaseLabel, SectionLoop.IsInert;
    FirstHeading();
    InertBehindComment(FIRST);
  }

  lemma SwallowingFile()
    ensures
      var lines := [OPEN_ANCHOR, FIRST_LINE];
      && IssueOf(lines) == None && ModeAfter(Prose, lines[..1]) == Comment
      && Visible(Prose, lines) == [ANCHOR, FIRST]
  {
    hide ScanLine;
    OpenAnchorScans();
    FirstLineScans();
    ScanOfOne(Prose, OPEN_ANCHOR);
    ScanOfOne(Comment, FIRST_LINE);
    ScanComposes(Prose, [OPEN_ANCHOR], [FIRST_LINE]);
    assert [OPEN_ANCHOR, FIRST_LINE] == [OPEN_ANCHOR] + [FIRST_LINE];
    assert [OPEN_ANCHOR, FIRST_LINE][..1] == [OPEN_ANCHOR];
  }

  lemma SwallowingRenders(notes: Notes, version: string, date: string)
    requires IsVersion(version) && version != "Unreleased" && version != "1.0.0"
    ensures Render([OPEN_ANCHOR, FIRST_LINE], notes, version, date).Ok?
    ensures AnchorFrom(Visible(Prose, [OPEN_ANCHOR, FIRST_LINE]), 0) == Some(0)
  {
    hide ScanLine, ModeAfter, Visible, HeadingOf, ReleaseLabel, PrintNotes, IsUnreleased, IsTopHeading;
    SwallowingFile();
    AnchorLabel();
    FirstHeading();
    var visible := [ANCHOR, FIRST];
    assert BlockEnd(visible, 0) == 1;
    assert LabelFrom(visible, version, 0) == None;
  }

  lemma ReasonEndsNoComment()
    ensures SwallowedRelease.EndsNoComment([REASON])
  {
    ReasonHasNoOpener();
    hide InlineCode.Mask;
    forall i ensures !StandsAt(REASON, "-->", i) {
      if 0 <= i <= |REASON| - 3 {
        assert REASON[i..i + 3][0] == REASON[i] != '-';
      }
    }
  }

  /** A file the script renders a release into without complaint, with the heading nowhere to be seen
      and no section to extract. */
  lemma AReleaseIsSwallowed()
    ensures
      var lines, notes := [OPEN_ANCHOR, FIRST_LINE], Notes([], Some(REASON));
      var rendered := Render(lines, notes, "2.0.0", "2024-01-31");
      && Accepted(notes) && rendered.Ok? && |rendered.value| > 2
      && Visible(Prose, rendered.value)[2] != ReleaseHeading("2.0.0", "2024-01-31")
      && Extract(rendered.value, "2.0.0") == Err(NoSection)
  {
    hide *;
    var lines, notes := [OPEN_ANCHOR, FIRST_LINE], Notes([], Some(REASON));
    SecondVersion();
    ReasonIsAccepted();
    ReasonEndsNoComment();
    PrintOfReason();
    SwallowingFile();
    SwallowingRenders(notes, "2.0.0", "2024-01-31");
    ReleaseLaws.HeadingShowsIffAnchorCloses(lines, notes, "2.0.0", "2024-01-31");
    SwallowedRelease.ExtractsIffAnchorCloses(lines, notes, "2.0.0", "2024-01-31");
  }

  lemma PrintOfReason()
    ensures PrintNotes(Notes([], Some(REASON))) == [REASON]
  {}

  lemma SecondVersion()
    ensures IsVersion("2.0.0") && "2.0.0" != "Unreleased" && "2.0.0" != "1.0.0" && IsDate("2024-01-31")
  {
    assert |"2.0.0"| != |"Unreleased"|;
    assert "2.0.0"[0] != "1.0.0"[0];
  }
}
