/** The notes values the parser accepts, as a condition on the values alone. */
module AcceptedNotes {
  import opened Options
  import opened PyText
  import opened ChangelogHeadings
  import opened ChangelogNotes
  import opened ChangelogScan

  predicate BlankTo(visible: seq<string>, n: nat)
    requires n <= |visible|
  {
    forall i :: 0 <= i < n ==> Strip(visible[i]) == []
  }

  predicate AllBlank(visible: seq<string>) {
    BlankTo(visible, |visible|)
  }

  /** Neither a heading nor a leftover placeholder. */
  predicate IsPlain(visible: string) {
    Strip(visible) == [] || (HeadingOf(Strip(visible)) == None && !LeftoverPlaceholder(Strip(visible)))
  }

  /** The first line with text is a bullet. */
  ghost predicate BulletFirst(visible: seq<string>) {
    exists at :: 0 <= at < |visible| && StartsWith(Strip(visible[at]), "- ") && BlankTo(visible, at)
  }

  ghost predicate GoodText(visible: seq<string>) {
    (forall i :: 0 <= i < |visible| ==> IsPlain(visible[i])) && BulletFirst(visible)
  }

  /** Lines that the scanner leaves as they are and that leave no block open. */
  ghost predicate ReadsAsItself(lines: seq<string>) {
    Clean(Prose, lines) == lines && ModeAfter(Prose, lines) == Prose
  }

  predicate GoodEnds(lines: seq<string>) {
    lines != [] && Strip(lines[0]) != [] && Strip(lines[|lines| - 1]) != []
  }

  /** Section lines that are their own clean view, close every block they open, start and end
      with text, and hold prose the parser has nothing to say about. */
  ghost predicate GoodBody(lines: seq<string>) {
    && GoodEnds(lines) && ReadsAsItself(lines)
    && GoodText(Visible(Prose, lines))
  }

  /** A stripped `None. <reason>` line that reads as itself. */
  ghost predicate GoodNone(line: string) {
    && Strip(line) == line && IsNoneLine(line) && !PlaceholderOnly(Strip(line[5..]))
    && ScanLine(Prose, line).clean == line && ScanLine(Prose, line).next == Prose
    && StartsWith(Strip(ScanLine(Prose, line).visible), "None.")
  }

  function SectionNames(sections: seq<Section>): (names: seq<string>)
    ensures |names| == |sections|
  {
    seq(|sections|, i requires 0 <= i < |sections| => sections[i].name)
  }

  predicate Distinct(names: seq<string>) {
    forall i, j :: 0 <= i < j < |names| ==> names[i] != names[j]
  }

  ghost predicate GoodSections(sections: seq<Section>) {
    && sections != [] && Distinct(SectionNames(sections))
    && forall i :: 0 <= i < |sections| ==> sections[i].name in SECTION_ORDER && GoodBody(sections[i].lines)
  }

  ghost predicate Accepted(notes: Notes) {
    match notes.noneLine
    case Some(line) => notes.sections == [] && GoodNone(line)
    case None => GoodSections(notes.sections)
  }
}
