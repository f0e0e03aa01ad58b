/** The line scanner of the changelog notes script: fenced code, HTML comments and inline
    code, one line at a time. */
module ChangelogScan {
  import opened Options
  import opened PyText
  import InlineCode

  // ----- One line

  /** What the scanner carries from line to line. */
  datatype Mode = Prose | Fence(mark: char, length: nat) | Comment

  /** The two views of a line, the mode after it, and whether it opened the block still open. */
  datatype Scanned = Scanned(visible: string, clean: string, next: Mode, opens: bool)

  /** A line that starts, after blanks, with three or more backticks or tildes. */
  function FenceOpened(stripped: string): Option<Mode> {
    if Lead(stripped, '`') >= 3 then Some(Fence('`', Lead(stripped, '`')))
    else if Lead(stripped, '~') >= 3 then Some(Fence('~', Lead(stripped, '~')))
    else None
  }

  /** A line of nothing but the fence's character, at least as long as the fence. */
  predicate FenceCloses(line: string, mark: char, length: nat) {
    var text := Strip(line);
    text != [] && |text| >= length && forall i :: 0 <= i < |text| ==> text[i] == mark
  }

  datatype NextComment = NoComment | Unclosed(start: nat) | Closed(start: nat, end: nat)

  /** The first comment of the masked text; `end` is the position behind its `-->`. */
  function FirstComment(masked: string): (c: NextComment)
    ensures c.Unclosed? ==> c.start <= |masked|
    ensures c.Closed? ==> c.start < c.end <= |masked|
  {
    var start := Find(masked, "<!--", 0, |masked|);
    if start < 0 then NoComment
    else
      var end := Find(masked, "-->", start + 4, |masked|);
      if end < 0 then Unclosed(start) else Closed(start, end + 3)
  }

  function CutOut(s: string, start: nat, end: nat): (r: string)
    requires start <= end <= |s|
    ensures |r| == |s| - (end - start)
  {
    s[..start] + s[end..]
  }

  datatype Remains = Remains(prose: string, masked: string, open: bool)

  /** Cut out every comment, found in the masked text, from both texts. */
  function DropComments(prose: string, masked: string): (r: Remains)
    requires |prose| == |masked|
    ensures |r.prose| == |r.masked|
    decreases |masked|
  {
    match FirstComment(masked)
    case NoComment => Remains(prose, masked, false)
    case Unclosed(start) => Remains(prose[..start], masked[..start], true)
    case Closed(start, end) => DropComments(CutOut(prose, start, end), CutOut(masked, start, end))
  }

  function ScanProse(prose: string): Scanned {
    var r := DropComments(prose, InlineCode.Mask(prose));
    Scanned(RStrip(r.masked), RStrip(r.prose), if r.open then Comment else Prose, r.open)
  }

  function ScanLine(mode: Mode, line: string): Scanned {
    match mode
    case Fence(mark, length) =>
      Scanned([], RStrip(line), if FenceCloses(line, mark, length) then Prose else mode, false)
    case Comment =>
      var end := Find(InlineCode.Mask(line), "-->", 0, |line|);
      if end < 0 then Scanned([], [], Comment, false) else ScanProse(line[end + 3..])
    case Prose =>
      match FenceOpened(LStrip(line))
      case Some(fence) => Scanned([], RStrip(line), fence, true)
      case None => ScanProse(line)
  }

  // ----- All lines

  function ModeAfter(mode: Mode, lines: seq<string>): Mode {
    if lines == [] then mode
    else ScanLine(ModeAfter(mode, lines[..|lines| - 1]), lines[|lines| - 1]).next
  }

  function ScannedAt(mode: Mode, lines: seq<string>, i: nat): Scanned
    requires i < |lines|
  {
    ScanLine(ModeAfter(mode, lines[..i]), lines[i])
  }

  function Visible(mode: Mode, lines: seq<string>): (visible: seq<string>)
    ensures |visible| == |lines|
  {
    seq(|lines|, i requires 0 <= i < |lines| => ScannedAt(mode, lines, i).visible)
  }

  function Clean(mode: Mode, lines: seq<string>): (clean: seq<string>)
    ensures |clean| == |lines|
  {
    seq(|lines|, i requires 0 <= i < |lines| => ScannedAt(mode, lines, i).clean)
  }

  /** The number of the line that opened the latest block. */
  function OpenedAt(lines: seq<string>): nat {
    if lines == [] then 0
    else if ScannedAt(Prose, lines, |lines| - 1).opens then |lines|
    else OpenedAt(lines[..|lines| - 1])
  }

  datatype Issue = UnclosedFence(line: nat) | UnclosedComment(line: nat)

  function IssueOf(lines: seq<string>): Option<Issue> {
    match ModeAfter(Prose, lines)
    case Prose => None
    case Fence(_, _) => Some(UnclosedFence(OpenedAt(lines)))
    case Comment => Some(UnclosedComment(OpenedAt(lines)))
  }

  // ----- The scanner

  /** The `while` loop of `_scan` that removes comments. */
  method RemoveComments(prose: string, masked: string) returns (r: Remains)
    requires |prose| == |masked|
    ensures r == DropComments(prose, masked)
  {
    var p, m := prose, masked;
    while true
      invariant |p| == |m| && DropComments(p, m) == DropComments(prose, masked)
      decreases |m|
    {
      var start := Find(m, "<!--", 0, |m|);
      if start < 0 {
        return Remains(p, m, false);
      }
      var end := Find(m, "-->", start + 4, |m|);
      if end < 0 {
        return Remains(p[..start], m[..start], true);
      }
      p, m := CutOut(p, start, end + 3), CutOut(m, start, end + 3);
    }
  }

  /** `_scan` */
  method Scan(lines: seq<string>) returns (visible: seq<string>, clean: seq<string>, issue: Option<Issue>)
    ensures visible == Visible(Prose, lines) && clean == Clean(Prose, lines)
    ensures issue == IssueOf(lines)
  {
    visible, clean := [], [];
    var mode, blockLine := Prose, 0;
    for n := 0 to |lines|
      invariant visible == Visible(Prose, lines[..n]) && clean == Clean(Prose, lines[..n])
      invariant mode == ModeAfter(Prose, lines[..n]) && blockLine == OpenedAt(lines[..n])
    {
      ScanOneMore(Prose, lines, n);
      OpenedOneMore(lines, n);
      var r := ScanNext(mode, lines[n]);
      visible, clean, mode := visible + [r.visible], clean + [r.clean], r.next;
      if r.opens {
        blockLine := n + 1;
      }
    }
    assert lines[..|lines|] == lines;
    match mode
    case Prose => issue := None;
    case Fence(_, _) => issue := Some(UnclosedFence(blockLine));
    case Comment => issue := Some(UnclosedComment(blockLine));
  }

  /** The body of `_scan`'s loop. */
  method ScanNext(mode: Mode, line: string) returns (r: Scanned)
    ensures r == ScanLine(mode, line)
  {
    match mode {
      case Fence(mark, length) =>
        r := Scanned([], RStrip(line), if FenceCloses(line, mark, length) then Prose else mode, false);
      case Comment =>
        var masked := InlineCode.MaskInline(line);
        var end := Find(masked, "-->", 0, |line|);
        if end < 0 {
          r := Scanned([], [], Comment, false);
        } else {
          r := ScanRest(line[end + 3..]);
        }
      case Prose =>
        var fence := FenceOpened(LStrip(line));
        if fence.Some? {
          r := Scanned([], RStrip(line), fence.value, true);
        } else {
          r := ScanRest(line);
        }
    }
  }

  /** The part of `_scan` that reads prose. */
  method ScanRest(prose: string) returns (r: Scanned)
    ensures r == ScanProse(prose)
  {
    var masked := InlineCode.MaskInline(prose);
    var remains := RemoveComments(prose, masked);
    r := Scanned(RStrip(remains.masked), RStrip(remains.prose), if remains.open then Comment else Prose, remains.open);
  }

  /** A line is scanned the same way in any longer file. */
  lemma ScannedInPrefix(mode: Mode, lines: seq<string>, n: nat, i: nat)
    requires i < n <= |lines|
    ensures ScannedAt(mode, lines[..n], i) == ScannedAt(mode, lines, i)
  {
    assert lines[..n][..i] == lines[..i];
  }

  lemma VisibleOfPrefix(mode: Mode, lines: seq<string>, n: nat)
    requires n <= |lines|
    ensures Visible(mode, lines[..n]) == Visible(mode, lines)[..n]
    ensures Clean(mode, lines[..n]) == Clean(mode, lines)[..n]
  {
    forall i | 0 <= i < n
      ensures Visible(mode, lines[..n])[i] == Visible(mode, lines)[..n][i]
      ensures Clean(mode, lines[..n])[i] == Clean(mode, lines)[..n][i]
    {
      ScannedInPrefix(mode, lines, n, i);
    }
  }

  lemma {:induction false} ScanOneMore(mode: Mode, lines: seq<string>, n: nat)
    requires n < |lines|
    ensures ModeAfter(mode, lines[..n + 1]) == ScannedAt(mode, lines, n).next
    ensures Visible(mode, lines[..n + 1]) == Visible(mode, lines[..n]) + [ScannedAt(mode, lines, n).visible]
    ensures Clean(mode, lines[..n + 1]) == Clean(mode, lines[..n]) + [ScannedAt(mode, lines, n).clean]
  {
    assert lines[..n + 1][..n] == lines[..n];
    VisibleOfPrefix(mode, lines, n);
    VisibleOfPrefix(mode, lines, n + 1);
    Extended(Visible(mode, lines), n);
    Extended(Clean(mode, lines), n);
  }

  lemma Extended(views: seq<string>, n: nat)
    requires n < |views|
    ensures views[..n + 1] == views[..n] + [views[n]]
  {}

  lemma OpenedOneMore(lines: seq<string>, n: nat)
    requires n < |lines|
    ensures OpenedAt(lines[..n + 1]) == if ScannedAt(Prose, lines, n).opens then n + 1 else OpenedAt(lines[..n])
  {
    assert lines[..n + 1][..n] == lines[..n];
  }
}
