/** The changelog file: inserting a release under the `## [Unreleased]` anchor, and
    extracting the body of a released version. A file is a sequence of lines. */
module ChangelogRelease {
  import opened Options
  import opened PyText
  import opened ChangelogHeadings
  import opened ChangelogNotes
  import opened ChangelogScan

  datatype RenderError =
    | UnclosedBlock(issue: Issue)
    | NoAnchor
    | UnreleasedContent(line: nat)
    | AlreadyReleased(line: nat)

  datatype ExtractError =
    | BadVersion
    | OpenBlock(issue: Issue)
    | NoSection
    | EmptySection

  predicate IsVersionChar(c: char) {
    '0' <= c <= '9' || 'A' <= c <= 'Z' || 'a' <= c <= 'z' || c == '.' || c == '+' || c == '-'
  }

  /** `^[0-9A-Za-z][0-9A-Za-z.+-]*$` on a version without a line break. */
  predicate IsVersion(version: string) {
    && version != [] && version[0] != '.' && version[0] != '+' && version[0] != '-'
    && forall i :: 0 <= i < |version| ==> IsVersionChar(version[i])
  }

  /** The shape of an ISO date. */
  predicate IsDate(date: string) {
    |date| == 10 && forall i :: 0 <= i < 10 ==> if i == 4 || i == 7 then date[i] == '-' else '0' <= date[i] <= '9'
  }

  /** The first `## [Unreleased]` line from `from` on. */
  function AnchorFrom(visible: seq<string>, from: nat): (anchor: Option<nat>)
    requires from <= |visible|
    ensures anchor.Some? ==> from <= anchor.value < |visible| && IsUnreleased(visible[anchor.value])
    decreases |visible| - from
  {
    if from == |visible| then None
    else if IsUnreleased(visible[from]) then Some(from)
    else AnchorFrom(visible, from + 1)
  }

  /** The first release heading with this label from `from` on. */
  function LabelFrom(visible: seq<string>, version: string, from: nat): (at: Option<nat>)
    requires from <= |visible|
    ensures at.Some? ==> from <= at.value < |visible| && ReleaseLabel(visible[at.value]) == Some(version)
    decreases |visible| - from
  {
    if from == |visible| then None
    else if ReleaseLabel(visible[from]) == Some(version) then Some(from)
    else LabelFrom(visible, version, from + 1)
  }

  /** `rstrip("\n")` on the joined text. */
  function DropTrailingEmpty(lines: seq<string>): seq<string> {
    if lines != [] && lines[|lines| - 1] == [] then DropTrailingEmpty(lines[..|lines| - 1]) else lines
  }

  /** The lines a release adds below the anchor. */
  function ReleaseBlock(notes: Notes, version: string, date: string): seq<string> {
    [[]] + [ReleaseHeading(version, date)] + [[]] + PrintNotes(notes) + [[]]
  }

  /** `render_changelog` on the two views. */
  function RenderViews(lines: seq<string>, visible: seq<string>, notes: Notes, version: string, date: string)
    : Result<seq<string>, RenderError>
    requires |visible| == |lines|
  {
    match AnchorFrom(visible, 0)
    case None => Err(NoAnchor)
    case Some(anchor) =>
      var end := BlockEnd(visible, anchor);
      match TextFrom(lines[..end], anchor + 1)
      case Some(content) => Err(UnreleasedContent(content + 1))
      case None =>
        match LabelFrom(visible, version, 0)
        case Some(at) => Err(AlreadyReleased(at + 1))
        case None => Ok(DropTrailingEmpty(lines[..anchor + 1] + ReleaseBlock(notes, version, date) + lines[end..]))
  }

  /** `render_changelog` */
  function Render(lines: seq<string>, notes: Notes, version: string, date: string): Result<seq<string>, RenderError> {
    match IssueOf(lines)
    case Some(issue) => Err(UnclosedBlock(issue))
    case None => RenderViews(lines, Visible(Prose, lines), notes, version, date)
  }

  /** The body below the release heading with this label, without blank ends. */
  function ExtractViews(lines: seq<string>, visible: seq<string>, version: string): Result<seq<string>, ExtractError>
    requires |visible| == |lines|
  {
    match LabelFrom(visible, version, 0)
    case None => Err(NoSection)
    case Some(start) =>
      var body := Trim(lines[start + 1..BlockEnd(visible, start)]);
      if body == [] then Err(EmptySection) else Ok(body)
  }

  /** What extracting a version means. */
  function Extract(lines: seq<string>, version: string): Result<seq<string>, ExtractError> {
    if !IsVersion(version) then Err(BadVersion)
    else
      match IssueOf(lines)
      case Some(issue) => Err(OpenBlock(issue))
      case None => ExtractViews(lines, Visible(Prose, lines), version)
  }

  /** `_run_extract` */
  method ExtractVersion(lines: seq<string>, version: string) returns (result: Result<seq<string>, ExtractError>)
    ensures result == Extract(lines, version)
  {
    if !IsVersion(version) {
      return Err(BadVersion);
    }
    var visible, _, issue := Scan(lines);
    if issue.Some? {
      return Err(OpenBlock(issue.value));
    }
    var start := LabelFrom(visible, version, 0);
    if start == None {
      return Err(NoSection);
    }
    var body := TrimBody(lines[start.value + 1..BlockEnd(visible, start.value)]);
    result := if body == [] then Err(EmptySection) else Ok(body);
  }

  /** The two `while` loops of `_run_extract`. */
  method TrimBody(lines: seq<string>) returns (body: seq<string>)
    ensures body == Trim(lines)
  {
    body := lines;
    while body != [] && Strip(body[0]) == []
      invariant DropLeadingBlank(body) == DropLeadingBlank(lines)
    {
      body := body[1..];
    }
    while body != [] && Strip(body[|body| - 1]) == []
      invariant DropTrailingBlank(body) == Trim(lines)
    {
      body := body[..|body| - 1];
    }
  }

  /** `render_changelog`, with the block printed by `_render_section`. */
  method RenderChangelog(lines: seq<string>, notes: Notes, version: string, date: string)
    returns (result: Result<seq<string>, RenderError>)
    ensures result == Render(lines, notes, version, date)
  {
    var visible, _, issue := Scan(lines);
    if issue.Some? {
      return Err(UnclosedBlock(issue.value));
    }
    result := InsertRelease(lines, visible, notes, version, date);
  }

  /** `render_changelog`, once the file is scanned. */
  method InsertRelease(lines: seq<string>, visible: seq<string>, notes: Notes, version: string, date: string)
    returns (result: Result<seq<string>, RenderError>)
    requires |visible| == |lines|
    ensures result == RenderViews(lines, visible, notes, version, date)
  {
    var anchor := AnchorFrom(visible, 0);
    if anchor == None {
      return Err(NoAnchor);
    }
    var end := BlockEnd(visible, anchor.value);
    var content := TextFrom(lines[..end], anchor.value + 1);
    if content.Some? {
      return Err(UnreleasedContent(content.value + 1));
    }
    var at := LabelFrom(visible, version, 0);
    if at.Some? {
      return Err(AlreadyReleased(at.value + 1));
    }
    var block := RenderSection(notes, version, date);
    BlockAsPrinted(block, notes, version, date);
    result := Ok(DropTrailingEmpty(lines[..anchor.value + 1] + ([[]] + block + [[]]) + lines[end..]));
  }

  lemma BlockAsPrinted(block: seq<string>, notes: Notes, version: string, date: string)
    requires block == [ReleaseHeading(version, date), []] + PrintNotes(notes)
    ensures [[]] + block + [[]] == ReleaseBlock(notes, version, date)
  {}
}
