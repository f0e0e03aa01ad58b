/** Changelog notes: the parser of the `## Changelog` section, the merge of several notes,
    and the printer. */
module ChangelogNotes {
  import opened Options
  import opened PyText
  import opened ChangelogHeadings
  import ChangelogScan

  datatype Section = Section(name: string, lines: seq<string>)

  datatype Notes = Notes(sections: seq<Section>, noneLine: Option<string>)

  const NO_NOTES := Notes([], None)

  /** The parser's complaints, each with the number of its line. */
  datatype Problem =
    | Unterminated(issue: ChangelogScan.Issue)
    | NoChangelogHeading
    | SecondChangelog(line: nat)
    | OutsideChangelog(line: nat)
    | EmptyChangelog(line: nat)
    | Placeholder(line: nat)
    | NoneNeedsReason(line: nat)
    | NonePlaceholder(line: nat)
    | NoneNotAlone(line: nat)
    | UnknownSection(line: nat)
    | DuplicateSection(line: nat)
    | ContentBeforeSection(line: nat)
    | MustStartWithBullet(line: nat)
    | NoBullet(line: nat)

  // ----- Reading the sections

  /** The variables of the section loop. */
  datatype State = State(
    sections: seq<Section>, seen: seq<string>, name: Option<string>, nameLine: nat,
    body: seq<string>, started: bool, hasBullet: bool, unknown: bool, problems: seq<Problem>)

  const START := State([], [], None, 0, [], false, false, false, [])

  function DropLeadingBlank(lines: seq<string>): seq<string> {
    if lines != [] && Strip(lines[0]) == [] then DropLeadingBlank(lines[1..]) else lines
  }

  function DropTrailingBlank(lines: seq<string>): seq<string> {
    if lines != [] && Strip(lines[|lines| - 1]) == [] then DropTrailingBlank(lines[..|lines| - 1]) else lines
  }

  function Trim(lines: seq<string>): seq<string> {
    DropTrailingBlank(DropLeadingBlank(lines))
  }

  /** `finish` */
  function Finish(st: State): State {
    if st.name == None then st
    else
      State(st.sections + [Section(st.name.value, Trim(st.body))], st.seen, None, 0, [], false, false, st.unknown,
            st.problems + if st.hasBullet then [] else [NoBullet(st.nameLine)])
  }

  /** A heading line among the sections. */
  function OnHeading(st: State, heading: Heading, line: nat): State {
    var done := Finish(st);
    if heading.level != 3 || heading.title !in SECTION_ORDER then
      done.(unknown := true, problems := done.problems + [UnknownSection(line)])
    else
      done.(unknown := false, name := Some(heading.title), nameLine := line, seen := done.seen + [heading.title],
            problems := done.problems + if heading.title in done.seen then [DuplicateSection(line)] else [])
  }

  /** A line of prose among the sections. */
  function OnText(st: State, text: string, clean: string, line: nat): State {
    if st.unknown then st
    else if st.name == None then st.(problems := st.problems + [ContentBeforeSection(line)])
    else
      st.(body := st.body + [clean], started := true, hasBullet := st.hasBullet || StartsWith(text, "- "),
          problems := st.problems +
            if !st.started && !StartsWith(text, "- ") then [MustStartWithBullet(line)] else [])
  }

  /** One line of the section loop. */
  function Step(st: State, visible: string, clean: string, line: nat): State {
    var text := Strip(visible);
    if text == [] then (if st.name.Some? then st.(body := st.body + [clean]) else st)
    else
      match HeadingOf(text)
      case Some(heading) => OnHeading(st, heading, line)
      case None => OnText(st, text, clean, line)
  }

  /** The loop over content whose first line has number `first`. */
  function Steps(st: State, visible: seq<string>, clean: seq<string>, first: nat): State
    requires |visible| == |clean|
  {
    if visible == [] then st
    else
      var n := |visible| - 1;
      Step(Steps(st, visible[..n], clean[..n], first), visible[n], clean[n], first + n)
  }

  // ----- The checks around the section loop

  function ChangelogHeadingsFrom(visible: seq<string>, from: nat): (found: seq<nat>)
    requires from <= |visible|
    ensures forall i :: 0 <= i < |found| ==> from <= found[i] < |visible| && IsChangelogHeading(visible[found[i]])
    decreases |visible| - from
  {
    if from == |visible| then []
    else (if IsChangelogHeading(visible[from]) then [from] else []) + ChangelogHeadingsFrom(visible, from + 1)
  }

  function SecondHeadings(found: seq<nat>): seq<Problem> {
    seq(|found|, i requires 0 <= i < |found| => SecondChangelog(found[i] + 1))
  }

  /** A section heading outside the `## Changelog` block. */
  predicate IsStray(line: string) {
    match HeadingOf(Strip(line))
    case None => false
    case Some(heading) => heading.title in SECTION_ORDER
  }

  /** The first stray section heading. */
  function Strays(visible: seq<string>, start: nat, end: nat, from: nat): seq<Problem>
    requires from <= |visible|
    decreases |visible| - from
  {
    if from == |visible| then []
    else if !(start < from < end) && IsStray(visible[from]) then [OutsideChangelog(from + 1)]
    else Strays(visible, start, end, from + 1)
  }

  function TextFrom(visible: seq<string>, from: nat): (first: Option<nat>)
    requires from <= |visible|
    ensures first.Some? ==> from <= first.value < |visible|
    decreases |visible| - from
  {
    if from == |visible| then None
    else if Strip(visible[from]) != [] then Some(from)
    else TextFrom(visible, from + 1)
  }

  predicate IsHole(visible: string) {
    Strip(visible) != [] && LeftoverPlaceholder(Strip(visible))
  }

  /** Leftover placeholders in content whose first line has number `first`, apart from a
      `None.` line. */
  function Placeholders(visible: seq<string>, skip: Option<nat>, first: nat): seq<Problem> {
    if visible == [] then []
    else
      var n := |visible| - 1;
      Placeholders(visible[..n], skip, first) +
      if skip != Some(n) && IsHole(visible[n]) then [Placeholder(first + n)] else []
  }

  function NotAlone(visible: seq<string>, at: nat, first: nat): seq<Problem> {
    if visible == [] then []
    else
      var n := |visible| - 1;
      NotAlone(visible[..n], at, first) + if n > at && Strip(visible[n]) != [] then [NoneNotAlone(first + n)] else []
  }

  function NoneProblems(noneLine: string, line: nat): seq<Problem> {
    (if IsNoneLine(noneLine) then [] else [NoneNeedsReason(line)]) +
    if PlaceholderOnly(Strip(if |noneLine| >= 5 then noneLine[5..] else [])) then [NonePlaceholder(line)] else []
  }

  /** The parser on the content below the heading, which stands on line `heading`. */
  function ParseContent(visible: seq<string>, clean: seq<string>, heading: nat): (Notes, seq<Problem>)
    requires |visible| == |clean|
  {
    var first := heading + 1;
    match TextFrom(visible, 0)
    case None => (NO_NOTES, [EmptyChangelog(heading)])
    case Some(at) =>
      if StartsWith(Strip(visible[at]), "None.") then
        var noneLine := Strip(clean[at]);
        (Notes([], Some(noneLine)),
         Placeholders(visible, Some(at), first) + NoneProblems(noneLine, first + at) + NotAlone(visible, at, first))
      else
        var st := Finish(Steps(START, visible, clean, first));
        (Notes(st.sections, None), Placeholders(visible, None, first) + st.problems)
  }

  /** The parser on the two views of a file that leaves no block open. */
  function ParseViews(visible: seq<string>, clean: seq<string>): (Notes, seq<Problem>)
    requires |visible| == |clean|
  {
    var found := ChangelogHeadingsFrom(visible, 0);
    if found == [] then (NO_NOTES, [NoChangelogHeading])
    else
      var start := found[0];
      var end := BlockEnd(visible, start);
      var content := ParseContent(visible[start + 1..end], clean[start + 1..end], start + 1);
      (content.0, SecondHeadings(found[1..]) + Strays(visible, start, end, 0) + content.1)
  }

  /** What `parse_notes` means. */
  function Parse(lines: seq<string>): (Notes, seq<Problem>) {
    match ChangelogScan.IssueOf(lines)
    case Some(issue) => (NO_NOTES, [Unterminated(issue)])
    case None =>
      ParseViews(ChangelogScan.Visible(ChangelogScan.Prose, lines), ChangelogScan.Clean(ChangelogScan.Prose, lines))
  }

  // ----- The parser

  /** The section loop of `parse_notes`. */
  method ReadSections(visible: seq<string>, clean: seq<string>, first: nat) returns (st: State)
    requires |visible| == |clean|
    ensures st == Finish(Steps(START, visible, clean, first))
  {
    st := START;
    for n := 0 to |visible|
      invariant st == Steps(START, visible[..n], clean[..n], first)
    {
      assert visible[..n + 1][..n] == visible[..n] && clean[..n + 1][..n] == clean[..n];
      st := Step(st, visible[n], clean[n], first + n);
    }
    assert visible[..|visible|] == visible && clean[..|clean|] == clean;
    st := Finish(st);
  }

  /** The content checks of `parse_notes`: placeholders first, then the `None.` line or the sections. */
  method ReadContent(visible: seq<string>, clean: seq<string>, heading: nat)
    returns (notes: Notes, problems: seq<Problem>)
    requires |visible| == |clean|
    ensures (notes, problems) == ParseContent(visible, clean, heading)
  {
    hide Placeholders, Steps, Finish, NotAlone, NoneProblems;
    var first := heading + 1;
    var at := TextFrom(visible, 0);
    if at == None {
      return NO_NOTES, [EmptyChangelog(heading)];
    }
    var noneOnly := StartsWith(Strip(visible[at.value]), "None.");
    problems := FindPlaceholders(visible, if noneOnly then at else None, first);
    if noneOnly {
      notes, problems := ReadNone(visible, Strip(clean[at.value]), at.value, first, problems);
    } else {
      var st := ReadSections(visible, clean, first);
      notes, problems := Notes(st.sections, None), problems + st.problems;
    }
  }

  /** The placeholder loop of `parse_notes`. */
  method FindPlaceholders(visible: seq<string>, skip: Option<nat>, first: nat) returns (problems: seq<Problem>)
    ensures problems == Placeholders(visible, skip, first)
  {
    hide IsHole;
    problems := [];
    for n := 0 to |visible|
      invariant problems == Placeholders(visible[..n], skip, first)
    {
      assert visible[..n + 1][..n] == visible[..n];
      if skip != Some(n) && IsHole(visible[n]) {
        problems := problems + [Placeholder(first + n)];
      }
    }
    assert visible[..|visible|] == visible;
  }

  /** The branch of `parse_notes` for a `None.` line. */
  method ReadNone(visible: seq<string>, noneLine: string, at: nat, first: nat, before: seq<Problem>)
    returns (notes: Notes, problems: seq<Problem>)
    ensures notes == Notes([], Some(noneLine))
    ensures problems == before + NoneProblems(noneLine, first + at) + NotAlone(visible, at, first)
  {
    problems := before + NoneProblems(noneLine, first + at);
    for n := 0 to |visible|
      invariant problems == before + NoneProblems(noneLine, first + at) + NotAlone(visible[..n], at, first)
    {
      assert visible[..n + 1][..n] == visible[..n];
      if n > at && Strip(visible[n]) != [] {
        problems := problems + [NoneNotAlone(first + n)];
      }
    }
    assert visible[..|visible|] == visible;
    notes := Notes([], Some(noneLine));
  }

  /** `parse_notes` */
  method ParseNotes(lines: seq<string>) returns (notes: Notes, problems: seq<Problem>)
    ensures (notes, problems) == Parse(lines)
  {
    var visible, clean, issue := ChangelogScan.Scan(lines);
    if issue.Some? {
      return NO_NOTES, [Unterminated(issue.value)];
    }
    var found := ChangelogHeadingsFrom(visible, 0);
    if found == [] {
      return NO_NOTES, [NoChangelogHeading];
    }
    var start := found[0];
    var end := BlockEnd(visible, start);
    var rest;
    notes, rest := ReadContent(visible[start + 1..end], clean[start + 1..end], start + 1);
    problems := SecondHeadings(found[1..]) + Strays(visible, start, end, 0) + rest;
  }

  // ----- The merge

  /** The lines of a section of one notes value. */
  function LinesOf(sections: seq<Section>, name: string): seq<string> {
    if sections == [] then []
    else
      var last := sections[|sections| - 1];
      LinesOf(sections[..|sections| - 1], name) + if last.name == name then last.lines else []
  }

  predicate Names(sections: seq<Section>, name: string) {
    exists i :: 0 <= i < |sections| && sections[i].name == name
  }

  /** The lines a section gathers from all files, in file order; a `None.` file adds nothing. */
  function MergedLines(files: seq<Notes>, name: string): seq<string> {
    if files == [] then []
    else
      var last := files[|files| - 1];
      MergedLines(files[..|files| - 1], name) + if last.noneLine.Some? then [] else LinesOf(last.sections, name)
  }

  predicate MergedNames(files: seq<Notes>, name: string) {
    exists i :: 0 <= i < |files| && files[i].noneLine == None && Names(files[i].sections, name)
  }

  function LastNoneLine(files: seq<Notes>): Option<string> {
    if files == [] then None
    else
      var last := files[|files| - 1];
      if last.noneLine.Some? then last.noneLine else LastNoneLine(files[..|files| - 1])
  }

  /** The merged sections among the first `n` names of the canonical order. */
  function MergedSections(files: seq<Notes>, n: nat): seq<Section>
    requires n <= |SECTION_ORDER|
  {
    if n == 0 then []
    else
      var name := SECTION_ORDER[n - 1];
      MergedSections(files, n - 1) + if MergedNames(files, name) then [Section(name, MergedLines(files, name))] else []
  }

  /** What `merge_notes` means: each section gathers its lines in file order, sections come in
      canonical order, and the last `None.` line stands only when no file has a section. */
  function Merge(files: seq<Notes>): Notes {
    if exists i :: 0 <= i < |files| && files[i].noneLine == None && files[i].sections != [] then
      Notes(MergedSections(files, |SECTION_ORDER|), None)
    else
      Notes([], LastNoneLine(files))
  }

  /** `merge_notes` */
  method MergeNotes(files: seq<Notes>) returns (notes: Notes)
    ensures notes == Merge(files)
  {
    var merged: map<string, seq<string>> := map[];
    var noneLine: Option<string> := None;
    for n := 0 to |files|
      invariant noneLine == LastNoneLine(files[..n])
      invariant Gathered(merged, files[..n])
    {
      assert files[..n + 1][..n] == files[..n];
      if files[n].noneLine.Some? {
        noneLine := files[n].noneLine;
        GatherNone(merged, files, n);
      } else {
        merged := GatherSections(merged, files, n);
      }
    }
    assert files[..|files|] == files;
    GatheredAny(merged, files);
    if |merged| > 0 {
      var sections := InOrder(merged, files);
      notes := Notes(sections, None);
    } else {
      notes := Notes([], noneLine);
    }
  }

  /** The sections of `merge_notes`, in canonical order. */
  method InOrder(merged: map<string, seq<string>>, ghost files: seq<Notes>) returns (sections: seq<Section>)
    requires Gathered(merged, files)
    ensures sections == MergedSections(files, |SECTION_ORDER|)
  {
    hide MergedNames, MergedLines;
    sections := [];
    for n := 0 to |SECTION_ORDER|
      invariant sections == MergedSections(files, n)
    {
      var name := SECTION_ORDER[n];
      if name in merged {
        sections := sections + [Section(name, merged[name])];
      }
    }
  }

  /** The dictionary of `merge_notes` after some files. */
  ghost predicate Gathered(merged: map<string, seq<string>>, files: seq<Notes>) {
    forall name :: && (name in merged <==> MergedNames(files, name))
                   && (name in merged ==> merged[name] == MergedLines(files, name))
  }

  lemma GatherNone(merged: map<string, seq<string>>, files: seq<Notes>, n: nat)
    requires n < |files| && files[n].noneLine.Some? && Gathered(merged, files[..n])
    ensures Gathered(merged, files[..n + 1])
  {
    assert files[..n + 1][..n] == files[..n];
    forall name ensures MergedNames(files[..n + 1], name) <==> MergedNames(files[..n], name) {
      MergedNamesOneMore(files, n, name);
    }
  }

  lemma MergedNamesOneMore(files: seq<Notes>, n: nat, name: string)
    requires n < |files|
    ensures MergedNames(files[..n + 1], name) <==>
      MergedNames(files[..n], name) || (files[n].noneLine == None && Names(files[n].sections, name))
  {
    if MergedNames(files[..n], name) {
      var i :| 0 <= i < n && files[..n][i].noneLine == None && Names(files[..n][i].sections, name);
      assert files[..n + 1][i] == files[..n][i];
    }
    if files[n].noneLine == None && Names(files[n].sections, name) {
      assert files[..n + 1][n] == files[n];
    }
  }

  /** The dictionary part-way through the sections of a file. */
  ghost predicate GatheredPart(merged: map<string, seq<string>>, files: seq<Notes>, sections: seq<Section>) {
    forall name :: && (name in merged <==> MergedNames(files, name) || Names(sections, name))
                   && (name in merged ==> merged[name] == MergedLines(files, name) + LinesOf(sections, name))
  }

  lemma {:induction false} LinesOfUnnamed(sections: seq<Section>, name: string)
    requires !Names(sections, name)
    ensures LinesOf(sections, name) == []
  {
    if sections != [] {
      var rest := sections[..|sections| - 1];
      assert sections[|sections| - 1].name != name;
      forall i | 0 <= i < |rest| ensures rest[i].name != name {
        assert sections[i] == rest[i];
      }
      LinesOfUnnamed(rest, name);
    }
  }

  lemma {:induction false} MergedLinesUnnamed(files: seq<Notes>, name: string)
    requires !MergedNames(files, name)
    ensures MergedLines(files, name) == []
  {
    if files != [] {
      var n := |files| - 1;
      MergedNamesOneMore(files, n, name);
      assert files[..n + 1] == files;
      MergedLinesUnnamed(files[..n], name);
      if files[n].noneLine == None {
        LinesOfUnnamed(files[n].sections, name);
      }
    }
  }

  /** `merged.setdefault(name, []).extend(lines)` */
  function Gather(merged: map<string, seq<string>>, section: Section): map<string, seq<string>> {
    merged[section.name := (if section.name in merged then merged[section.name] else []) + section.lines]
  }

  lemma GatherOne(merged: map<string, seq<string>>, files: seq<Notes>, sections: seq<Section>, k: nat)
    requires k < |sections| && GatheredPart(merged, files, sections[..k])
    ensures GatheredPart(Gather(merged, sections[k]), files, sections[..k + 1])
  {
    var more := Gather(merged, sections[k]);
    assert sections[..k + 1][..k] == sections[..k];
    forall name
      ensures name in more <==> MergedNames(files, name) || Names(sections[..k + 1], name)
    {
      NamesOneMoreSection(sections, k, name);
    }
    forall name | name in more
      ensures more[name] == MergedLines(files, name) + LinesOf(sections[..k + 1], name)
    {
      GatheredLines(merged, files, sections, k, name);
    }
  }

  lemma NamesOneMoreSection(sections: seq<Section>, k: nat, name: string)
    requires k < |sections|
    ensures Names(sections[..k + 1], name) <==> Names(sections[..k], name) || sections[k].name == name
  {
    if Names(sections[..k], name) {
      var i :| 0 <= i < k && sections[..k][i].name == name;
      assert sections[..k + 1][i].name == name;
    }
    if sections[k].name == name {
      assert sections[..k + 1][k].name == name;
    }
  }

  lemma {:induction false} GatheredLines(merged: map<string, seq<string>>, files: seq<Notes>, sections: seq<Section>, k: nat, name: string)
    requires k < |sections| && GatheredPart(merged, files, sections[..k]) && name in Gather(merged, sections[k])
    ensures Gather(merged, sections[k])[name] == MergedLines(files, name) + LinesOf(sections[..k + 1], name)
  {
    LinesOfOneMore(sections, k, name);
    if name !in merged {
      MergedLinesUnnamed(files, name);
      LinesOfUnnamed(sections[..k], name);
    }
    GatherValue(if name in merged then merged[name] else [], MergedLines(files, name), LinesOf(sections[..k], name),
                if sections[k].name == name then sections[k].lines else []);
  }

  lemma {:induction false} LinesOfOneMore(sections: seq<Section>, k: nat, name: string)
    requires k < |sections|
    ensures LinesOf(sections[..k + 1], name) ==
      LinesOf(sections[..k], name) + if sections[k].name == name then sections[k].lines else []
  {
    assert sections[..k + 1][..k] == sections[..k];
  }

  lemma GatherValue(before: seq<string>, merged: seq<string>, part: seq<string>, more: seq<string>)
    requires before == merged + part
    ensures before + more == merged + (part + more)
  {}

  /** The inner loop of `merge_notes`. */
  method GatherSections(before: map<string, seq<string>>, files: seq<Notes>, n: nat)
    returns (merged: map<string, seq<string>>)
    requires n < |files| && files[n].noneLine == None && Gathered(before, files[..n])
    ensures Gathered(merged, files[..n + 1])
  {
    var sections := files[n].sections;
    merged := before;
    for k := 0 to |sections|
      invariant GatheredPart(merged, files[..n], sections[..k])
    {
      GatherOne(merged, files[..n], sections, k);
      merged := Gather(merged, sections[k]);
    }
    assert sections[..|sections|] == sections && files[..n + 1][..n] == files[..n];
    forall name ensures MergedNames(files[..n + 1], name) <==> MergedNames(files[..n], name) || Names(sections, name) {
      MergedNamesOneMore(files, n, name);
    }
  }

  lemma GatheredAny(merged: map<string, seq<string>>, files: seq<Notes>)
    requires Gathered(merged, files)
    ensures |merged| > 0 <==> exists i :: 0 <= i < |files| && files[i].noneLine == None && files[i].sections != []
  {
    if |merged| > 0 {
      var name :| name in merged;
      assert MergedNames(files, name);
    }
    forall i | 0 <= i < |files| && files[i].noneLine == None && files[i].sections != []
      ensures |merged| > 0
    {
      assert Names(files[i].sections, files[i].sections[0].name);
      assert files[i].sections[0].name in merged;
    }
  }

  // ----- The printer

  /** The sections under a release heading, a blank line between two. */
  function PrintSections(sections: seq<Section>): seq<string> {
    if sections == [] then []
    else
      var n := |sections| - 1;
      PrintSections(sections[..n]) + (if n > 0 then [[]] else []) +
      ["### " + sections[n].name] + sections[n].lines
  }

  function PrintNotes(notes: Notes): seq<string> {
    match notes.noneLine
    case Some(line) => [line]
    case None => PrintSections(notes.sections)
  }

  function ReleaseHeading(version: string, date: string): string {
    "## [" + version + "] - " + date
  }

  /** `_render_section` */
  method RenderSection(notes: Notes, version: string, date: string) returns (block: seq<string>)
    ensures block == [ReleaseHeading(version, date), []] + PrintNotes(notes)
  {
    block := ["## [" + version + "] - " + date, []];
    if notes.noneLine.Some? {
      block := block + [notes.noneLine.value];
      return;
    }
    for n := 0 to |notes.sections|
      invariant block == [ReleaseHeading(version, date), []] + PrintSections(notes.sections[..n])
    {
      assert notes.sections[..n + 1][..n] == notes.sections[..n];
      if n > 0 {
        block := block + [[]];
      }
      block := block + ["### " + notes.sections[n].name];
      block := block + notes.sections[n].lines;
    }
    assert notes.sections[..|notes.sections|] == notes.sections;
  }
}
