/** Whatever the parser accepts, from a block whose comments stand alone, is an accepted value. */
module ParseAccepts {
  import opened Options
  import opened PyText
  import opened ChangelogHeadings
  import opened ChangelogNotes
  import opened ChangelogScan
  import opened ScanLaws
  import opened AcceptedNotes
  import opened SectionCuts
  import PrintThenParse
  import InlineCode

  // ----- One tame line

  /** A tame line with visible text is plain prose. */
  lemma {:induction false} TextLine(mode: Mode, line: string)
    requires TameLine(mode, line) && ScanLine(mode, line).visible != []
    ensures mode == Prose && ScanLine(mode, line).next == Prose
    ensures ScanLine(mode, line).visible == RStrip(InlineCode.Mask(line)) && ScanLine(mode, line).clean == RStrip(line)
    ensures FenceOpened(LStrip(line)) == None && !Contains(InlineCode.Mask(line), "<!--")
  {
    if mode == Prose && FenceOpened(LStrip(line)) == None {
      PlainProse(line);
    }
  }

  lemma BlankStrips(s: string)
    ensures Strip(s) == [] <==> IsBlank(s)
  {
    hide LStrip, RStrip, IsSpace;
    var l := LStrip(s);
    LStripFacts(s);
    RStripFacts(l);
    assert l[0..] == l && s[..|s|] == s;
    if IsBlank(s) {
      LStripBlank(s);
    }
  }

  lemma StripOfMask(line: string)
    ensures Strip(InlineCode.Mask(line)) == [] <==> Strip(line) == []
  {
    BlankStrips(line);
    BlankStrips(InlineCode.Mask(line));
    if IsBlank(line) {
      BlankHasNoTicks(line);
      InlineCode.MaskPlain(line);
    } else {
      var i :| 0 <= i < |line| && !IsSpace(line[i]);
      assert InlineCode.Mask(line)[i] == line[i] || InlineCode.Mask(line)[i] == 'x';
    }
  }

  /** Text is visible on a tame line only if it is in the clean view as well. */
  lemma TextIsKept(mode: Mode, line: string)
    requires TameLine(mode, line) && Strip(ScanLine(mode, line).visible) != []
    ensures Strip(ScanLine(mode, line).clean) != []
  {
    TextLine(mode, line);
    StripOfRStrip(line);
    StripOfRStrip(InlineCode.Mask(line));
    StripOfMask(line);
  }

  lemma {:induction false} BlankOpensNoFence(line: string)
    requires Strip(line) == []
    ensures FenceOpened(LStrip(line)) == None
  {
    BlankStrips(line);
    LStripBlank(line);
  }

  /** A line whose clean view is blank neither opens nor closes a fence. */
  lemma BlankKeepsMode(mode: Mode, line: string)
    requires Strip(ScanLine(mode, line).clean) == []
    ensures Settled(ScanLine(mode, line).next) == Settled(mode)
  {
    StripOfRStrip(line);
    if Strip(line) == [] {
      BlankOpensNoFence(line);
    }
  }

  // ----- A stretch of content

  /** Scanning a stretch of the file on its own, from the mode before it. */
  lemma {:induction false} SliceScan(mode: Mode, lines: seq<string>, a: nat, b: nat)
    requires a <= b <= |lines|
    ensures
      var from := ModeAfter(mode, lines[..a]);
      && Visible(mode, lines)[a..b] == Visible(from, lines[a..b])
      && Clean(mode, lines)[a..b] == Clean(from, lines[a..b])
      && ModeAfter(from, lines[a..b]) == ModeAfter(mode, lines[..b])
      && (Tame(mode, lines) ==> Tame(from, lines[a..b]))
  {
    hide *;
    var from := ModeAfter(mode, lines[..a]);
    SlicesMeet(lines, a, b);
    ModeAfterConcat(mode, lines[..a], lines[a..b]);
    VisibleOfPrefix(mode, lines, b);
    ScanComposes(mode, lines[..a], lines[a..b]);
    SliceOfConcat(Visible(mode, lines), a, b, Visible(mode, lines[..a]), Visible(from, lines[a..b]));
    SliceOfConcat(Clean(mode, lines), a, b, Clean(mode, lines[..a]), Clean(from, lines[a..b]));
    if Tame(mode, lines) {
      SliceIsTame(mode, lines, a, b);
    }
  }

  lemma SliceOfConcat(whole: seq<string>, a: nat, b: nat, front: seq<string>, part: seq<string>)
    requires a <= b <= |whole| && |front| == a && whole[..b] == front + part
    ensures whole[a..b] == part
  {
    assert whole[a..b] == whole[..b][a..];
  }

  lemma {:induction false} ModeInSlice(mode: Mode, lines: seq<string>, a: nat, b: nat, i: nat)
    requires a <= b <= |lines| && i <= b - a
    ensures ModeAfter(mode, lines[..a + i]) == ModeAfter(ModeAfter(mode, lines[..a]), lines[a..b][..i])
  {
    hide *;
    assert lines[a..b][..i] == lines[a..a + i];
    SlicesMeet(lines, a, a + i);
    ModeAfterConcat(mode, lines[..a], lines[a..a + i]);
  }

  lemma SlicesMeet(lines: seq<string>, a: nat, b: nat)
    requires a <= b <= |lines|
    ensures lines[..a] + lines[a..b] == lines[..b]
  {}

  lemma {:induction false} SliceIsTame(mode: Mode, lines: seq<string>, a: nat, b: nat)
    requires a <= b <= |lines| && Tame(mode, lines)
    ensures Tame(ModeAfter(mode, lines[..a]), lines[a..b])
  {
    var from := ModeAfter(mode, lines[..a]);
    forall i | 0 <= i < b - a ensures TameLine(ModeAfter(from, lines[a..b][..i]), lines[a..b][i]) {
      ModeInSlice(mode, lines, a, b, i);
      assert TameLine(ModeAfter(mode, lines[..a + i]), lines[a + i]);
    }
  }

  /** Lines that are blank in the clean view keep the mode, comments apart. */
  lemma {:induction false} BlankLinesKeepMode(mode: Mode, lines: seq<string>, a: nat, b: nat)
    requires a <= b <= |lines| && BlankBetween(Clean(mode, lines), a, b)
    ensures Settled(ModeAfter(mode, lines[..b])) == Settled(ModeAfter(mode, lines[..a]))
    decreases b - a
  {
    if a < b {
      assert BlankBetween(Clean(mode, lines), a, b - 1);
      BlankLinesKeepMode(mode, lines, a, b - 1);
      assert Strip(Clean(mode, lines)[b - 1]) == [];
      BlankKeepsMode(ModeAfter(mode, lines[..b - 1]), lines[b - 1]);
      assert lines[..b][..b - 1] == lines[..b - 1];
    }
  }

  /** Trimming a stretch of lines gives a stretch between blank lines. */
  lemma {:induction false} DropLeading(lines: seq<string>, h: nat, i: nat) returns (a: nat)
    requires h <= i <= |lines|
    ensures h <= a <= i && DropLeadingBlank(lines[h..i]) == lines[a..i] && BlankBetween(lines, h, a)
    ensures a < i ==> Strip(lines[a]) != []
    decreases i - h
  {
    a := h;
    if h < i && Strip(lines[h]) == [] {
      assert lines[h..i][1..] == lines[h + 1..i];
      a := DropLeading(lines, h + 1, i);
    }
  }

  lemma {:induction false} DropTrailing(lines: seq<string>, a: nat, i: nat) returns (b: nat)
    requires a <= i <= |lines|
    ensures a <= b <= i && DropTrailingBlank(lines[a..i]) == lines[a..b] && BlankBetween(lines, b, i)
    ensures a < b ==> Strip(lines[b - 1]) != []
    decreases i - a
  {
    b := i;
    if a < i && Strip(lines[i - 1]) == [] {
      assert lines[a..i][..i - a - 1] == lines[a..i - 1];
      b := DropTrailing(lines, a, i - 1);
    }
  }

  // ----- A section of accepted content is a good body

  /** Content as the parser reads it: its views, tame, in prose at both ends, without a hole. */
  ghost predicate IsContent(mode: Mode, lines: seq<string>, visible: seq<string>, clean: seq<string>) {
    && visible == Visible(mode, lines) && clean == Clean(mode, lines) && Tame(mode, lines)
    && Settled(mode) == Prose && Settled(ModeAfter(mode, lines)) == Prose
  }

  lemma {:induction false} HeadMode(mode: Mode, lines: seq<string>, visible: seq<string>, clean: seq<string>, n: nat)
    requires IsContent(mode, lines, visible, clean) && n < |lines| && IsHead(visible[n])
    ensures ModeAfter(mode, lines[..n]) == Prose && ModeAfter(mode, lines[..n + 1]) == Prose
  {
    assert Strip([]) == [] && HeadingOf([]) == None;
    assert TameLine(ModeAfter(mode, lines[..n]), lines[n]);
    TextLine(ModeAfter(mode, lines[..n]), lines[n]);
    assert lines[..n + 1][..n] == lines[..n];
  }

  lemma TextInClean(mode: Mode, lines: seq<string>, visible: seq<string>, clean: seq<string>)
    requires IsContent(mode, lines, visible, clean)
    ensures forall j :: 0 <= j < |lines| && Strip(visible[j]) != [] ==> Strip(clean[j]) != []
  {
    forall j | 0 <= j < |lines| && Strip(visible[j]) != [] ensures Strip(clean[j]) != [] {
      assert TameLine(ModeAfter(mode, lines[..j]), lines[j]);
      TextIsKept(ModeAfter(mode, lines[..j]), lines[j]);
    }
  }

  /** The mode on both sides of a cut is prose. */
  lemma {:induction false} CutModes(mode: Mode, lines: seq<string>, visible: seq<string>, clean: seq<string>, h: nat, i: nat)
    requires IsContent(mode, lines, visible, clean) && IsCut(visible, h, i)
    ensures Settled(ModeAfter(mode, lines[..h])) == Prose && Settled(ModeAfter(mode, lines[..i])) == Prose
  {
    HeadMode(mode, lines, visible, clean, h - 1);
    EndMode(mode, lines, visible, clean, i);
  }

  lemma {:induction false} EndMode(mode: Mode, lines: seq<string>, visible: seq<string>, clean: seq<string>, i: nat)
    requires IsContent(mode, lines, visible, clean) && i <= |lines| == |visible|
    requires i < |visible| ==> IsHead(visible[i])
    ensures Settled(ModeAfter(mode, lines[..i])) == Prose
  {
    if i < |visible| {
      HeadMode(mode, lines, visible, clean, i);
    } else {
      assert lines[..i] == lines;
    }
  }

  /** The stretch between the blank ends of a cut. */
  lemma TrimCut(visible: seq<string>, clean: seq<string>, h: nat, i: nat) returns (a: nat, b: nat)
    requires |visible| == |clean| && IsCut(visible, h, i)
    requires forall j :: 0 <= j < |visible| && Strip(visible[j]) != [] ==> Strip(clean[j]) != []
    ensures h <= a < b <= i && Trim(clean[h..i]) == clean[a..b]
    ensures BlankBetween(clean, h, a) && BlankBetween(clean, b, i)
    ensures Strip(clean[a]) != [] && Strip(clean[b - 1]) != []
    ensures BulletFrom(visible, a, b)
  {
    a := DropLeading(clean, h, i);
    b := DropTrailing(clean, a, i);
    var at :| h <= at < i && StartsWith(Strip(visible[at]), "- ") && BlankBetween(visible, h, at);
    assert Strip(clean[at]) != [];
    assert a <= at < b;
  }

  lemma CutIsGoodText(visible: seq<string>, a: nat, b: nat)
    requires a <= b <= |visible| && NoHeads(visible, a, b) && BulletFrom(visible, a, b)
    requires forall j :: a <= j < b ==> !IsHole(visible[j])
    ensures GoodText(visible[a..b])
  {
    var views := visible[a..b];
    forall j | 0 <= j < |views| ensures IsPlain(views[j]) {
      assert views[j] == visible[a + j] && !IsHole(visible[a + j]) && !IsHead(visible[a + j]);
    }
    var at :| a <= at < b && StartsWith(Strip(visible[at]), "- ") && BlankBetween(visible, a, at);
    assert views[at - a] == visible[at];
    forall j | 0 <= j < at - a ensures Strip(views[j]) == [] {
      assert views[j] == visible[a + j];
    }
    assert BlankTo(views, at - a);
  }

  lemma CutIsGoodBody(mode: Mode, lines: seq<string>, visible: seq<string>, clean: seq<string>, h: nat, i: nat)
    requires IsContent(mode, lines, visible, clean) && IsCut(visible, h, i)
    requires forall j :: 0 <= j < |visible| ==> !IsHole(visible[j])
    ensures GoodBody(Trim(clean[h..i]))
  {
    hide Trim, Strip, HeadingOf, GoodBody, GoodText, IsHole;
    TextInClean(mode, lines, visible, clean);
    var a, b := TrimCut(visible, clean, h, i);
    CutModes(mode, lines, visible, clean, h, i);
    BlankLinesKeepMode(mode, lines, h, a);
    BlankLinesKeepMode(mode, lines, b, i);
    CutIsGoodText(visible, a, b);
    SliceIsGoodBody(mode, lines, visible, clean, a, b);
  }

  /** A stretch of content in prose at both ends, with text at both ends, is a good body. */
  lemma {:induction false} SliceIsGoodBody(mode: Mode, lines: seq<string>, visible: seq<string>, clean: seq<string>, a: nat, b: nat)
    requires IsContent(mode, lines, visible, clean) && a < b <= |lines|
    requires Settled(ModeAfter(mode, lines[..a])) == Prose && Settled(ModeAfter(mode, lines[..b])) == Prose
    requires Strip(clean[a]) != [] && Strip(clean[b - 1]) != [] && GoodText(visible[a..b])
    ensures GoodBody(clean[a..b])
  {
    hide ModeAfter, Visible, Clean, Tame, GoodText, Strip, GoodBody, ReadsAsItself;
    RescannedSlice(mode, lines, a, b);
    GoodBodyFrom(clean[a..b], visible[a..b]);
  }

  lemma GoodBodyFrom(lines: seq<string>, views: seq<string>)
    requires GoodEnds(lines) && ReadsAsItself(lines) && Visible(Prose, lines) == views && GoodText(views)
    ensures GoodBody(lines)
  {
    hide ReadsAsItself, Visible, GoodText, GoodEnds;
  }

  lemma {:induction false} RescannedSlice(mode: Mode, lines: seq<string>, a: nat, b: nat)
    requires Tame(mode, lines) && a <= b <= |lines|
    requires Settled(ModeAfter(mode, lines[..a])) == Prose && Settled(ModeAfter(mode, lines[..b])) == Prose
    ensures ReadsAsItself(Clean(mode, lines)[a..b])
    ensures Visible(Prose, Clean(mode, lines)[a..b]) == Visible(mode, lines)[a..b]
  {
    hide ModeAfter, Visible, Clean, Tame;
    SliceScan(mode, lines, a, b);
    RescanClean(ModeAfter(mode, lines[..a]), lines[a..b]);
  }

  // ----- Accepted content

  lemma {:induction false} NoPlaceholdersNoHoles(visible: seq<string>, skip: Option<nat>, first: nat)
    requires Placeholders(visible, skip, first) == []
    ensures forall i :: 0 <= i < |visible| && skip != Some(i) ==> !IsHole(visible[i])
  {
    if visible != [] {
      NoPlaceholdersNoHoles(visible[..|visible| - 1], skip, first);
    }
  }

  lemma SectionsAreGood(mode: Mode, lines: seq<string>, visible: seq<string>, clean: seq<string>, sections: seq<Section>)
    requires IsContent(mode, lines, visible, clean) && forall j :: 0 <= j < |visible| ==> !IsHole(visible[j])
    requires forall k :: 0 <= k < |sections| ==> FromCut(sections[k], visible, clean)
    ensures forall k :: 0 <= k < |sections| ==> GoodBody(sections[k].lines)
  {
    forall k | 0 <= k < |sections| ensures GoodBody(sections[k].lines) {
      var h: nat, i: nat :| IsCut(visible, h, i) && i <= |clean| && sections[k].lines == Trim(clean[h..i]);
      CutIsGoodBody(mode, lines, visible, clean, h, i);
    }
  }

  lemma SplitsStrip(s: string) returns (lead: string, trail: string)
    ensures s == lead + Strip(s) + trail && IsBlank(lead) && IsBlank(trail)
  {
    hide LStrip, RStrip, IsSpace;
    var l := LStrip(s);
    LStripFacts(s);
    RStripFacts(l);
    lead, trail := s[..|s| - |l|], l[|Strip(s)|..];
    assert l == Strip(s) + trail;
    assert s == lead + l;
  }

  lemma StripAround(lead: string, s: string, trail: string)
    requires IsBlank(lead) && IsBlank(trail) && s != [] && !IsSpace(s[0]) && !IsSpace(s[|s| - 1])
    ensures Strip(lead + s + trail) == s
  {
    LStripAfter(lead, s + trail);
    assert lead + s + trail == lead + (s + trail);
    RStripAppendBlank(s, trail);
  }

  lemma {:induction false} LStripAfter(lead: string, s: string)
    requires IsBlank(lead) && s != [] && !IsSpace(s[0])
    ensures LStrip(lead + s) == s
  {
    if lead == [] {
      assert lead + s == s;
    } else {
      assert (lead + s)[1..] == lead[1..] + s;
      LStripAfter(lead[1..], s);
    }
  }

  lemma MaskEnds(s: string)
    requires s != [] && !IsSpace(s[0]) && !IsSpace(s[|s| - 1])
    ensures
      var masked := InlineCode.Mask(s);
      !IsSpace(masked[0]) && !IsSpace(masked[|s| - 1])
  {
    var masked := InlineCode.Mask(s);
    assert masked[0] == s[0] || masked[0] == 'x';
    assert masked[|s| - 1] == s[|s| - 1] || masked[|s| - 1] == 'x';
  }

  lemma MaskAround(lead: string, s: string, trail: string)
    requires IsBlank(lead) && IsBlank(trail)
    ensures InlineCode.Mask(lead + s + trail) == lead + InlineCode.Mask(s) + trail
  {
    BlankHasNoTicks(lead);
    BlankHasNoTicks(trail);
    InlineCode.MaskSuffix(lead + s, trail);
    InlineCode.MaskPrefix(lead, s);
  }

  /** Masking the stripped line is stripping the masked line. */
  lemma MaskOfStrip(line: string)
    requires Strip(line) != []
    ensures Strip(InlineCode.Mask(line)) == InlineCode.Mask(Strip(line))
    ensures !Contains(InlineCode.Mask(line), "<!--") ==> !Contains(InlineCode.Mask(Strip(line)), "<!--")
  {
    hide *;
    var lead, trail := SplitsStrip(line);
    var s := Strip(line);
    var masked := InlineCode.Mask(s);
    StripFacts(line);
    MaskAround(lead, s, trail);
    MaskEnds(s);
    StripAround(lead, masked, trail);
    if Contains(masked, "<!--") {
      ContainsAfter(lead, masked, "<!--");
      ContainsInLonger(lead + masked, trail, "<!--");
    }
  }

  lemma ContainsAfter(lead: string, s: string, part: string)
    requires Contains(s, part)
    ensures Contains(lead + s, part)
  {
    var i :| StandsAt(s, part, i);
    assert (lead + s)[|lead| + i..|lead| + i + |part|] == s[i..i + |part|];
    assert StandsAt(lead + s, part, |lead| + i);
  }

  lemma {:induction false} StripIsStripped(s: string)
    requires s != [] && !IsSpace(s[0]) && !IsSpace(s[|s| - 1])
    ensures LStrip(s) == s && RStrip(s) == s && Strip(s) == s
  {}

  /** The `None.` line of accepted content is good. */
  lemma NoneIsGood(mode: Mode, line: string)
    requires TameLine(mode, line) && StartsWith(Strip(ScanLine(mode, line).visible), "None.")
    ensures
      var noneLine := Strip(ScanLine(mode, line).clean);
      NoneProblems(noneLine, 0) == [] ==> GoodNone(noneLine)
  {
    var view := ScanLine(mode, line).visible;
    assert Strip([]) == [] && view != [];
    TextLine(mode, line);
    StripOfRStrip(line);
    StripOfRStrip(InlineCode.Mask(line));
    StripOfMask(line);
    StripFacts(line);
    MaskOfStrip(line);
    PlainLineReadsAsItself(Strip(line));
  }

  lemma PlainLineReadsAsItself(s: string)
    requires s != [] && !IsSpace(s[0]) && !IsSpace(s[|s| - 1])
    requires StartsWith(InlineCode.Mask(s), "None.") && !Contains(InlineCode.Mask(s), "<!--")
    ensures Strip(s) == s && ScanLine(Prose, s) == Scanned(InlineCode.Mask(s), s, Prose, false)
    ensures Strip(InlineCode.Mask(s)) == InlineCode.Mask(s)
  {
    var masked := InlineCode.Mask(s);
    StripIsStripped(s);
    assert masked[|s| - 1] == s[|s| - 1] || masked[|s| - 1] == 'x';
    assert masked[0] == masked[..5][0] == 'N' && masked[0] == s[0];
    StripIsStripped(masked);
    PlainProse(s);
  }

  /** Content that the parser accepts gives accepted notes. */
  lemma ContentAccepted(mode: Mode, lines: seq<string>, visible: seq<string>, clean: seq<string>, heading: nat)
    requires IsContent(mode, lines, visible, clean) && ParseContent(visible, clean, heading).1 == []
    ensures Accepted(ParseContent(visible, clean, heading).0)
  {
    TextFromFacts(visible, 0);
    var at := TextFrom(visible, 0).value;
    if StartsWith(Strip(visible[at]), "None.") {
      var noneLine := Strip(clean[at]);
      assert TameLine(ModeAfter(mode, lines[..at]), lines[at]);
      assert NoneProblems(noneLine, 0) == [] <==> NoneProblems(noneLine, heading + 1 + at) == [];
      NoneIsGood(ModeAfter(mode, lines[..at]), lines[at]);
    } else {
      NoPlaceholdersNoHoles(visible, None, heading + 1);
      SectionsAreCuts(visible, clean, heading + 1);
      SectionsAreGood(mode, lines, visible, clean, Finish(Steps(START, visible, clean, heading + 1)).sections);
    }
  }

  /** In the block of the first `## Changelog` heading comments stand alone, read from the mode in which the
      block is entered. */
  ghost predicate TameBlock(lines: seq<string>) {
    var headings := ChangelogHeadingsFrom(Visible(Prose, lines), 0);
    headings != [] ==>
      var start := headings[0];
      Tame(ModeAfter(Prose, lines[..start + 1]), lines[start + 1..BlockEnd(Visible(Prose, lines), start)])
  }

  /** Whatever the parser accepts is an accepted value, when comments stand alone in the block it reads. */
  lemma ParseGivesAccepted(lines: seq<string>)
    requires Parse(lines).1 == [] && TameBlock(lines)
    ensures Accepted(Parse(lines).0)
  {
    var visible, clean := Visible(Prose, lines), Clean(Prose, lines);
    var start := ChangelogHeadingsFrom(visible, 0)[0];
    var end := BlockEnd(visible, start);
    var mode := ModeAfter(Prose, lines[..start + 1]);
    BlockIsContent(lines, start, end);
    ContentAccepted(mode, lines[start + 1..end], visible[start + 1..end], clean[start + 1..end], start + 1);
  }

  lemma {:induction false} BlockIsContent(lines: seq<string>, start: nat, end: nat)
    requires ModeAfter(Prose, lines) == Prose && start < end <= |lines|
    requires Tame(ModeAfter(Prose, lines[..start + 1]), lines[start + 1..end])
    requires HeadingOf(Visible(Prose, lines)[start]).Some?
    requires end < |lines| ==> HeadingOf(Visible(Prose, lines)[end]).Some?
    ensures IsContent(ModeAfter(Prose, lines[..start + 1]), lines[start + 1..end],
                      Visible(Prose, lines)[start + 1..end], Clean(Prose, lines)[start + 1..end])
  {
    SliceScan(Prose, lines, start + 1, end);
    NoFenceAtHeading(lines, start);
    if end < |lines| {
      NoFenceAtHeading(lines, end);
    } else {
      assert lines[..end] == lines;
    }
  }

  /** A heading that shows stands in no fence and opens none. */
  lemma NoFenceAtHeading(lines: seq<string>, n: nat)
    requires n < |lines| && HeadingOf(Visible(Prose, lines)[n]).Some?
    ensures Settled(ModeAfter(Prose, lines[..n])) == Prose && Settled(ModeAfter(Prose, lines[..n + 1])) == Prose
  {
    assert HeadingOf([]) == None;
    assert lines[..n + 1][..n] == lines[..n];
  }

  /** The round trip of the documents: parsing a body, printing the notes under the heading
      and parsing again gives the same notes and no complaint. */
  lemma ParsePrintParse(lines: seq<string>)
    requires Parse(lines).1 == [] && TameBlock(lines)
    ensures Parse([PrintThenParse.CHANGELOG_HEADING] + PrintNotes(Parse(lines).0)) == Parse(lines)
  {
    ParseGivesAccepted(lines);
    PrintThenParse.PrintThenParseIsIdentity(Parse(lines).0);
  }
}
