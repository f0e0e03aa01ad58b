/** The merge, the printed block, and the rendered and the extracted file, told by the places of lines and sections. */
module ReleaseForms {
  import opened Options
  import opened PyText
  import opened ChangelogHeadings
  import opened ChangelogNotes
  import opened ChangelogScan
  import opened ChangelogRelease

  // ----- The merge

  /** Some file without a `None.` line has a section. */
  ghost predicate HasSections(files: seq<Notes>) {
    exists i :: 0 <= i < |files| && files[i].noneLine == None && files[i].sections != []
  }

  /** Without a section the last `None.` line stands, if there is one. */
  lemma {:induction false} LastNoneIs(files: seq<Notes>)
    ensures
      match LastNoneLine(files)
      case None => forall i :: 0 <= i < |files| ==> files[i].noneLine == None
      case Some(line) =>
        exists i :: 0 <= i < |files| && files[i].noneLine == Some(line) && forall j :: i < j < |files| ==> files[j].noneLine == None
  {
    if files != [] {
      var n := |files| - 1;
      LastNoneIs(files[..n]);
      if files[n].noneLine == None {
        assert LastNoneLine(files) == LastNoneLine(files[..n]);
        if LastNoneLine(files).Some? {
          var i :| 0 <= i < n && files[..n][i].noneLine == LastNoneLine(files)
                   && forall j :: i < j < n ==> files[..n][j].noneLine == None;
          assert files[i].noneLine == LastNoneLine(files);
          forall j | i < j < |files| ensures files[j].noneLine == None {
            assert j < n ==> files[..n][j] == files[j];
          }
        } else {
          forall i | 0 <= i < |files| ensures files[i].noneLine == None {
            assert i < n ==> files[..n][i] == files[i];
          }
        }
      }
    }
  }

  /** What a file adds to a section: the lines of all its sections of that name, and nothing if it has a `None.` line. */
  function Adds(file: Notes, name: string): seq<string> {
    if file.noneLine.Some? then [] else AddsFrom(file.sections, name)
  }

  function AddsFrom(sections: seq<Section>, name: string): seq<string> {
    if sections == [] then []
    else (if sections[0].name == name then sections[0].lines else []) + AddsFrom(sections[1..], name)
  }

  /** What some files add, the first one first. */
  function AddsInOrder(files: seq<Notes>, name: string): seq<string> {
    if files == [] then [] else Adds(files[0], name) + AddsInOrder(files[1..], name)
  }

  lemma {:induction false} AddsFromBack(sections: seq<Section>, last: Section, name: string)
    ensures AddsFrom(sections + [last], name) == AddsFrom(sections, name) + if last.name == name then last.lines else []
  {
    if sections == [] {
      assert [] + [last] == [last] && [last][1..] == [];
      assert AddsFrom([last], name) == (if last.name == name then last.lines else []) + [];
    } else {
      AddsFromBack(sections[1..], last, name);
      assert (sections + [last])[1..] == sections[1..] + [last] && (sections + [last])[0] == sections[0];
    }
  }

  lemma {:induction false} LinesAreAdded(sections: seq<Section>, name: string)
    ensures LinesOf(sections, name) == AddsFrom(sections, name)
  {
    if sections != [] {
      var n := |sections| - 1;
      LinesAreAdded(sections[..n], name);
      AddsFromBack(sections[..n], sections[n], name);
      assert sections == sections[..n] + [sections[n]];
    }
  }

  lemma {:induction false} AddsBack(files: seq<Notes>, last: Notes, name: string)
    ensures AddsInOrder(files + [last], name) == AddsInOrder(files, name) + Adds(last, name)
  {
    hide Adds;
    if files == [] {
      assert [] + [last] == [last] && [last][1..] == [];
      assert AddsInOrder([last], name) == Adds(last, name) + [];
    } else {
      AddsBack(files[1..], last, name);
      assert (files + [last])[1..] == files[1..] + [last] && (files + [last])[0] == files[0];
    }
  }

  lemma {:induction false} MergedAreAdded(files: seq<Notes>, name: string)
    ensures MergedLines(files, name) == AddsInOrder(files, name)
  {
    hide LinesOf, AddsFrom, AddsInOrder;
    if files == [] {
      NothingAdded(name);
    }
    if files != [] {
      var n := |files| - 1;
      MergedAreAdded(files[..n], name);
      AddsBack(files[..n], files[n], name);
      LinesAreAdded(files[n].sections, name);
      assert files == files[..n] + [files[n]];
    }
  }

  lemma NothingAdded(name: string)
    ensures AddsInOrder([], name) == []
  {
  }

  /** A section of the name stands in some file that has no `None.` line. */
  ghost predicate IsNamed(files: seq<Notes>, name: string) {
    exists i, k :: 0 <= i < |files| && 0 <= k < |files[i].sections| && files[i].noneLine == None && files[i].sections[k].name == name
  }

  lemma NamedIs(files: seq<Notes>, name: string)
    ensures MergedNames(files, name) <==> IsNamed(files, name)
  {
  }

  /** Sections of names of the canonical order: those that are named among the first `n`, with what the files add. */
  ghost predicate ArePlaced(files: seq<Notes>, n: nat, places: seq<nat>, sections: seq<Section>) {
    && n <= |SECTION_ORDER| && |places| == |sections|
    && (forall i, j :: 0 <= i < j < |places| ==> places[i] < places[j])
    && (forall i :: 0 <= i < |places| ==>
          places[i] < n && sections[i] == Section(SECTION_ORDER[places[i]], AddsInOrder(files, SECTION_ORDER[places[i]])))
    && (forall k: nat :: k < n ==> (k in places <==> IsNamed(files, SECTION_ORDER[k])))
  }

  lemma {:induction false} OneMorePlace(files: seq<Notes>, n: nat, places: seq<nat>, sections: seq<Section>)
    requires n < |SECTION_ORDER| && ArePlaced(files, n, places, sections)
    ensures
      var name := SECTION_ORDER[n];
      if IsNamed(files, name) then ArePlaced(files, n + 1, places + [n], sections + [Section(name, AddsInOrder(files, name))])
      else ArePlaced(files, n + 1, places, sections)
  {
    hide AddsInOrder, IsNamed, SECTION_ORDER;
    if IsNamed(files, SECTION_ORDER[n]) {
      var more := places + [n];
      forall k: nat | k < n + 1 ensures k in more <==> IsNamed(files, SECTION_ORDER[k]) {
        assert k in more <==> k in places || k == n;
      }
    }
  }

  lemma {:induction false} MergedAre(files: seq<Notes>, n: nat) returns (places: seq<nat>)
    requires n <= |SECTION_ORDER|
    ensures ArePlaced(files, n, places, MergedSections(files, n))
  {
    hide MergedNames, MergedLines, AddsInOrder, IsNamed, SECTION_ORDER, ArePlaced;
    if n == 0 {
      places := [];
      NothingPlaced(files);
    } else {
      places := MergedAre(files, n - 1);
      var name := SECTION_ORDER[n - 1];
      NamedIs(files, name);
      MergedAreAdded(files, name);
      OneMorePlace(files, n - 1, places, MergedSections(files, n - 1));
      if MergedNames(files, name) {
        places := places + [n - 1];
      } else {
        assert MergedSections(files, n) == MergedSections(files, n - 1);
      }
    }
  }

  lemma NothingPlaced(files: seq<Notes>)
    ensures ArePlaced(files, 0, [], [])
  {
  }

  /** What merging gives: with a section in some file, the named sections in canonical order and no `None.` line; else
      the last `None.` line. */
  lemma MergeMeans(files: seq<Notes>) returns (places: seq<nat>)
    ensures
      var merged := Merge(files);
      if HasSections(files) then merged.noneLine == None && ArePlaced(files, |SECTION_ORDER|, places, merged.sections)
      else
        && merged.sections == []
        && match merged.noneLine
           case None => forall i :: 0 <= i < |files| ==> files[i].noneLine == None
           case Some(line) =>
             exists i :: 0 <= i < |files| && files[i].noneLine == Some(line)
                         && forall j :: i < j < |files| ==> files[j].noneLine == None
  {
    hide MergedSections, ArePlaced, SECTION_ORDER;
    places := MergedAre(files, |SECTION_ORDER|);
    LastNoneIs(files);
  }

  // ----- The printed block

  /** Sections are printed one after the other, each under its heading, a blank line between two. */
  lemma {:induction false} PrintedInOrder(section: Section, rest: seq<Section>)
    ensures
      PrintSections([section] + rest)
      == ["### " + section.name] + section.lines + if rest == [] then [] else [[]] + PrintSections(rest)
  {
    var all := [section] + rest;
    var n := |rest|;
    var head := ["### " + section.name] + section.lines;
    if n == 0 {
      assert all[..0] == [] && all[0] == section;
    } else {
      PrintedInOrder(section, rest[..n - 1]);
      assert all[..n] == [section] + rest[..n - 1] && all[n] == rest[n - 1];
      if n == 1 {
        assert rest[..0] == [];
        RegroupOne(head, "### " + rest[0].name, rest[0].lines);
      } else {
        Regroup(head, PrintSections(rest[..n - 1]), "### " + rest[n - 1].name, rest[n - 1].lines);
      }
    }
  }

  lemma RegroupOne(head: seq<string>, heading: string, lines: seq<string>)
    ensures head + [] + [[]] + [heading] + lines == head + ([[]] + ([] + [] + [heading] + lines))
  {
  }

  lemma Regroup(head: seq<string>, before: seq<string>, heading: string, lines: seq<string>)
    ensures head + ([[]] + before) + [[]] + [heading] + lines == head + ([[]] + (before + [[]] + [heading] + lines))
  {
  }

  // ----- The rendered file

  /** The first `## [Unreleased]` line and the next heading of level one or two below it. */
  ghost predicate IsAnchor(visible: seq<string>, at: nat, end: nat) {
    && at < end <= |visible| && IsUnreleased(visible[at]) && (forall i :: 0 <= i < at ==> !IsUnreleased(visible[i]))
    && (forall i :: at < i < end ==> !IsTopHeading(visible[i])) && (end < |visible| ==> IsTopHeading(visible[end]))
  }

  ghost predicate IsFirstLabel(visible: seq<string>, version: string, at: nat) {
    && at < |visible| && ReleaseLabel(visible[at]) == Some(version)
    && forall i :: 0 <= i < at ==> ReleaseLabel(visible[i]) != Some(version)
  }

  lemma {:induction false} AnchorIs(visible: seq<string>, from: nat, at: nat)
    requires from <= at < |visible| && IsUnreleased(visible[at]) && forall i :: from <= i < at ==> !IsUnreleased(visible[i])
    ensures AnchorFrom(visible, from) == Some(at)
    decreases at - from
  {
    hide IsUnreleased;
    if from < at {
      AnchorIs(visible, from + 1, at);
    }
  }

  lemma {:induction false} NoAnchorIs(visible: seq<string>, from: nat)
    requires from <= |visible|
    ensures AnchorFrom(visible, from) == None <==> forall i :: from <= i < |visible| ==> !IsUnreleased(visible[i])
    decreases |visible| - from
  {
    hide IsUnreleased;
    if from < |visible| {
      NoAnchorIs(visible, from + 1);
    }
  }

  lemma {:induction false} LabelIs(visible: seq<string>, version: string, from: nat)
    requires from <= |visible|
    ensures
      match LabelFrom(visible, version, from)
      case None => forall i :: from <= i < |visible| ==> ReleaseLabel(visible[i]) != Some(version)
      case Some(at) =>
        from <= at < |visible| && ReleaseLabel(visible[at]) == Some(version)
        && forall i :: from <= i < at ==> ReleaseLabel(visible[i]) != Some(version)
    decreases |visible| - from
  {
    hide ReleaseLabel;
    if from < |visible| {
      LabelIs(visible, version, from + 1);
    }
  }

  lemma {:induction false} EndIs(visible: seq<string>, from: nat, end: nat)
    requires from <= end <= |visible| && (forall i :: from <= i < end ==> !IsTopHeading(visible[i]))
    requires end < |visible| ==> IsTopHeading(visible[end])
    ensures TopHeadingFrom(visible, from) == end
    decreases end - from
  {
    hide IsTopHeading;
    if from < end {
      EndIs(visible, from + 1, end);
    }
  }

  lemma {:induction false} ContentIs(lines: seq<string>, from: nat)
    requires from <= |lines|
    ensures
      match TextFrom(lines, from)
      case None => forall i :: from <= i < |lines| ==> Strip(lines[i]) == []
      case Some(at) => from <= at < |lines| && Strip(lines[at]) != [] && forall i :: from <= i < at ==> Strip(lines[i]) == []
    decreases |lines| - from
  {
    hide Strip;
    if from < |lines| {
      ContentIs(lines, from + 1);
    }
  }

  /** Only a file with an `## [Unreleased]` line can take a release. */
  lemma NeedsAnchor(lines: seq<string>, notes: Notes, version: string, date: string)
    requires IssueOf(lines) == None
    ensures
      Render(lines, notes, version, date) == Err(NoAnchor)
      <==> forall i :: 0 <= i < |lines| ==> !IsUnreleased(Visible(Prose, lines)[i])
  {
    hide IsUnreleased, Visible, IssueOf, ReleaseBlock, TextFrom, LabelFrom;
    NoAnchorIs(Visible(Prose, lines), 0);
  }

  /** A release goes below the anchor, in place of the blank lines there: refused for the first line with text below it,
      then for the first heading of the version, else the file with the heading, the notes and blank lines around. */
  lemma RenderMeans(lines: seq<string>, notes: Notes, version: string, date: string, at: nat, end: nat)
    requires IssueOf(lines) == None && IsAnchor(Visible(Prose, lines), at, end)
    ensures
      forall k: nat :: at < k < end && Strip(lines[k]) != [] && (forall i :: at < i < k ==> Strip(lines[i]) == []) ==>
        Render(lines, notes, version, date) == Err(UnreleasedContent(k + 1))
    ensures
      (forall i :: at < i < end ==> Strip(lines[i]) == []) ==>
        && (forall k: nat :: IsFirstLabel(Visible(Prose, lines), version, k) ==>
              Render(lines, notes, version, date) == Err(AlreadyReleased(k + 1)))
        && ((forall i :: 0 <= i < |lines| ==> ReleaseLabel(Visible(Prose, lines)[i]) != Some(version)) ==>
              Render(lines, notes, version, date)
              == Ok(DropTrailingEmpty(lines[..at + 1] + (["", "## [" + version + "] - " + date, ""] + PrintNotes(notes) + [""])
                                      + lines[end..])))
  {
    hide IsUnreleased, IsTopHeading, Visible, IssueOf, Strip, ReleaseLabel, TextFrom, LabelFrom, AnchorFrom, TopHeadingFrom,
         PrintNotes, DropTrailingEmpty;
    var visible := Visible(Prose, lines);
    AnchorIs(visible, 0, at);
    EndIs(visible, at + 1, end);
    ContentIs(lines[..end], at + 1);
    LabelIs(visible, version, 0);
    assert forall i :: at < i < end ==> lines[..end][i] == lines[i];
    BlockIs(notes, version, date);
  }

  lemma BlockIs(notes: Notes, version: string, date: string)
    ensures ReleaseBlock(notes, version, date) == ["", "## [" + version + "] - " + date, ""] + PrintNotes(notes) + [""]
  {
    hide PrintNotes;
  }

  // ----- The extracted body

  /** The block of a version: from its first heading to the next heading of level one or two. */
  ghost predicate IsReleaseBlock(visible: seq<string>, version: string, at: nat, end: nat) {
    && IsFirstLabel(visible, version, at) && at < end <= |visible|
    && (forall i :: at < i < end ==> !IsTopHeading(visible[i])) && (end < |visible| ==> IsTopHeading(visible[end]))
  }

  lemma ExtractIs(lines: seq<string>, version: string, at: nat, end: nat)
    requires IsVersion(version) && IssueOf(lines) == None && IsReleaseBlock(Visible(Prose, lines), version, at, end)
    ensures at < end <= |lines|
    ensures
      var body := Trim(lines[at + 1..end]);
      Extract(lines, version) == if body == [] then Err(EmptySection) else Ok(body)
  {
    hide IsTopHeading, Visible, IssueOf, Strip, ReleaseLabel, LabelFrom, TopHeadingFrom, IsVersion, Trim;
    EndIs(Visible(Prose, lines), at + 1, end);
    LabelIs(Visible(Prose, lines), version, 0);
  }

  /** Extracting a version gives the stretch of its block from the first line with text to the last. */
  lemma ExtractMeans(lines: seq<string>, version: string, at: nat, end: nat, from: nat, to: nat)
    requires IsVersion(version) && IssueOf(lines) == None && IsReleaseBlock(Visible(Prose, lines), version, at, end)
    requires at < from < to <= end && Strip(lines[from]) != [] && Strip(lines[to - 1]) != []
    requires forall i :: at < i < from || to <= i < end ==> Strip(lines[i]) == []
    ensures Extract(lines, version) == Ok(lines[from..to])
  {
    hide IsReleaseBlock, Visible, IssueOf, Strip, IsVersion, Trim, Extract;
    ExtractIs(lines, version, at, end);
    var body := lines[at + 1..end];
    assert forall i :: 0 <= i < |body| ==> body[i] == lines[i + (at + 1)];
    TrimIs(body, from - (at + 1), to - (at + 1));
    assert body[from - (at + 1)..to - (at + 1)] == lines[from..to];
  }

  /** It is refused exactly where the block has no text. */
  lemma ExtractsNothing(lines: seq<string>, version: string, at: nat, end: nat)
    requires IsVersion(version) && IssueOf(lines) == None && IsReleaseBlock(Visible(Prose, lines), version, at, end)
    ensures Extract(lines, version) == Err(EmptySection) <==> forall i :: at < i < end ==> Strip(lines[i]) == []
  {
    hide IsReleaseBlock, Visible, IssueOf, Strip, IsVersion, Trim, Extract;
    ExtractIs(lines, version, at, end);
    var body := lines[at + 1..end];
    TrimNothing(body);
    forall i | at < i < end ensures lines[i] == body[i - (at + 1)] {
    }
    assert forall i :: 0 <= i < |body| ==> body[i] == lines[i + (at + 1)];
  }

  lemma {:induction false} TrimIs(lines: seq<string>, from: nat, to: nat)
    requires from < to <= |lines| && Strip(lines[from]) != [] && Strip(lines[to - 1]) != []
    requires forall i :: 0 <= i < from || to <= i < |lines| ==> Strip(lines[i]) == []
    ensures Trim(lines) == lines[from..to]
  {
    hide Strip;
    LeadingIs(lines, from);
    TrailingIs(lines[from..], to - from);
    assert lines[from..][..to - from] == lines[from..to];
  }

  lemma {:induction false} LeadingIs(lines: seq<string>, from: nat)
    requires from < |lines| && Strip(lines[from]) != [] && forall i :: 0 <= i < from ==> Strip(lines[i]) == []
    ensures DropLeadingBlank(lines) == lines[from..]
  {
    hide Strip;
    if from > 0 {
      LeadingIs(lines[1..], from - 1);
      assert lines[1..][from - 1..] == lines[from..];
    }
  }

  lemma {:induction false} TrailingIs(lines: seq<string>, to: nat)
    requires 0 < to <= |lines| && Strip(lines[to - 1]) != [] && forall i :: to <= i < |lines| ==> Strip(lines[i]) == []
    ensures DropTrailingBlank(lines) == lines[..to]
    decreases |lines|
  {
    hide Strip;
    if to < |lines| {
      var n := |lines| - 1;
      TrailingIs(lines[..n], to);
      assert lines[..n][..to] == lines[..to];
    }
  }

  lemma {:induction false} TrimNothing(lines: seq<string>)
    ensures Trim(lines) == [] <==> forall i :: 0 <= i < |lines| ==> Strip(lines[i]) == []
  {
    hide Strip;
    LeadingNothing(lines);
    TrailingNothing(DropLeadingBlank(lines));
  }

  lemma {:induction false} LeadingNothing(lines: seq<string>)
    ensures (forall i :: 0 <= i < |lines| ==> Strip(lines[i]) == []) ==> DropLeadingBlank(lines) == []
    ensures DropLeadingBlank(lines) != [] ==> Strip(DropLeadingBlank(lines)[0]) != []
    ensures DropLeadingBlank(lines) == [] ==> forall i :: 0 <= i < |lines| ==> Strip(lines[i]) == []
    ensures DropLeadingBlank(lines) != [] ==> exists i :: 0 <= i < |lines| && Strip(lines[i]) != []
  {
    hide Strip;
    if lines != [] && Strip(lines[0]) == [] {
      LeadingNothing(lines[1..]);
      forall i | 0 <= i < |lines| && DropLeadingBlank(lines) == [] ensures Strip(lines[i]) == [] {
        assert i > 0 ==> lines[1..][i - 1] == lines[i];
      }
    }
  }

  lemma {:induction false} TrailingNothing(lines: seq<string>)
    requires lines != [] ==> Strip(lines[0]) != []
    ensures DropTrailingBlank(lines) == [] <==> lines == []
  {
    hide Strip;
    if lines != [] && Strip(lines[|lines| - 1]) == [] {
      TrailingNothing(lines[..|lines| - 1]);
    }
  }
}
