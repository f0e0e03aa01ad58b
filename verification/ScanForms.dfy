/** What opens and closes a fenced block or a comment, and which block is reported as left open. */
module ScanForms {
  import opened Options
  import opened PyText
  import opened ChangelogScan
  import opened LineForms
  import InlineCode

  // ----- Fences

  /** `n` times `c` and then something else. */
  ghost predicate StartsRow(s: string, c: char, n: nat) {
    n <= |s| && (forall i :: 0 <= i < n ==> s[i] == c) && (n < |s| ==> s[n] != c)
  }

  lemma {:induction false} LeadIsRow(s: string, c: char, n: nat)
    ensures Lead(s, c) == n <==> StartsRow(s, c, n)
  {
    if s != [] && s[0] == c {
      if n > 0 {
        LeadIsRow(s[1..], c, n - 1);
        if StartsRow(s, c, n) {
          assert StartsRow(s[1..], c, n - 1) by {
            assert forall i :: 0 <= i < n - 1 ==> s[1..][i] == s[i + 1];
          }
        }
        if StartsRow(s[1..], c, n - 1) {
          forall i | 0 <= i < n ensures s[i] == c {
            assert i > 0 ==> s[i] == s[1..][i - 1];
          }
        }
      }
    }
  }

  /** A fence is three or more backticks, or three or more tildes, after blanks. */
  lemma FenceIs(s: string, c: char, n: nat)
    ensures FenceOpened(s) == Some(Fence(c, n)) <==> n >= 3 && (c == '`' || c == '~') && StartsRow(s, c, n)
  {
    LeadIsRow(s, c, n);
    if n >= 3 && StartsRow(s, '~', n) {
      LeadIsRow(s, '`', 0);
    }
    LeadIsRow(s, '`', Lead(s, '`'));
    LeadIsRow(s, '~', Lead(s, '~'));
  }

  lemma NoFenceIs(s: string)
    ensures FenceOpened(s) == None <==> forall n: nat :: n >= 3 ==> !StartsRow(s, '`', n) && !StartsRow(s, '~', n)
  {
    hide StartsRow;
    LeadIsRow(s, '`', Lead(s, '`'));
    LeadIsRow(s, '~', Lead(s, '~'));
    forall n: nat | n >= 3 && FenceOpened(s) == None ensures !StartsRow(s, '`', n) && !StartsRow(s, '~', n) {
      LeadIsRow(s, '`', n);
      LeadIsRow(s, '~', n);
    }
  }

  /** A fence is closed by a line of its own character alone, at least as often, between blanks. */
  lemma FenceEnds(front: string, row: string, back: string, mark: char, length: nat)
    requires AllBlank(front) && AllBlank(back) && IsTrimmed(row)
    ensures FenceCloses(front + row + back, mark, length) <==> row != [] && |row| >= length && forall i :: 0 <= i < |row| ==> row[i] == mark
  {
    hide Strip, AllBlank, IsTrimmed;
    StripTakes(front, row, back);
  }

  // ----- Comments

  /** The first opener stands at `start`. */
  ghost predicate OpensAt(masked: string, start: nat) {
    StandsAt(masked, "<!--", start) && forall i :: 0 <= i < start ==> !StandsAt(masked, "<!--", i)
  }

  /** A comment goes from the first opener to the first closer behind it, and what is left is read again. */
  lemma {:induction false} CommentGoes(prose: string, masked: string, start: nat, end: nat)
    requires |prose| == |masked| && OpensAt(masked, start) && start + 4 <= end && StandsAt(masked, "-->", end)
    requires forall i :: start + 4 <= i < end ==> !StandsAt(masked, "-->", i)
    ensures end + 3 <= |masked|
    ensures DropComments(prose, masked) == DropComments(prose[..start] + prose[end + 3..], masked[..start] + masked[end + 3..])
  {
    hide StandsAt, Find, DropComments;
    FoundAt(masked, "<!--", 0, start);
    Fits(masked, "<!--", start);
    FoundAt(masked, "-->", start + 4, end);
    Fits(masked, "-->", end);
    assert FirstComment(masked) == Closed(start, end + 3);
    DropsFirst(prose, masked, start, end + 3);
  }

  lemma {:induction false} DropsFirst(prose: string, masked: string, start: nat, end: nat)
    requires |prose| == |masked| && FirstComment(masked) == Closed(start, end)
    ensures DropComments(prose, masked) == DropComments(CutOut(prose, start, end), CutOut(masked, start, end))
  {
    hide FirstComment;
  }

  /** Without a closer the rest of the line goes. */
  lemma {:induction false} CommentStays(prose: string, masked: string, start: nat)
    requires |prose| == |masked| && OpensAt(masked, start)
    requires forall i :: start + 4 <= i < |masked| ==> !StandsAt(masked, "-->", i)
    ensures start + 4 <= |masked| && DropComments(prose, masked) == Remains(prose[..start], masked[..start], true)
  {
    hide StandsAt;
    FoundAt(masked, "<!--", 0, start);
    Fits(masked, "<!--", start);
    assert Find(masked, "-->", start + 4, |masked|) == -1;
    assert FirstComment(masked) == Unclosed(start);
  }

  lemma Fits(s: string, part: string, at: nat)
    requires StandsAt(s, part, at)
    ensures at + |part| <= |s|
  {
  }

  lemma {:induction false} FoundAt(s: string, part: string, from: nat, at: nat)
    requires StandsAt(s, part, at) && from <= at && forall i :: from <= i < at ==> !StandsAt(s, part, i)
    requires from <= |s| + 1
    ensures Find(s, part, from, |s|) == at
  {
    Fits(s, part, at);
    hide StandsAt;
    var found := Find(s, part, from, |s|);
  }

  lemma {:induction false} NoCommentStays(prose: string, masked: string)
    requires |prose| == |masked| && forall i :: 0 <= i < |masked| ==> !StandsAt(masked, "<!--", i)
    ensures DropComments(prose, masked) == Remains(prose, masked, false)
  {
    hide StandsAt;
  }

  // ----- The block left open


  /** Line `k` opens a block that nothing behind it closes. */
  ghost predicate LeavesOpen(lines: seq<string>, k: nat) {
    && k < |lines|
    && ScannedAt(Prose, lines, k).opens && ScannedAt(Prose, lines, k).next != Prose
    && forall i :: k < i < |lines| ==> !ScannedAt(Prose, lines, i).opens && ScannedAt(Prose, lines, i).next == ScannedAt(Prose, lines, k).next
  }

  /** The mode changes only where a block opens or all are closed. */
  lemma ModeStep(mode: Mode, line: string)
    ensures
      var s := ScanLine(mode, line);
      && (s.opens ==> s.next != Prose)
      && (!s.opens ==> s.next == Prose || s.next == mode)
  {
    hide FenceCloses, DropComments, Find, InlineCode.Mask, FenceOpened, LStrip, RStrip;
    FenceIsFence(LStrip(line));
  }

  lemma FenceIsFence(s: string)
    ensures FenceOpened(s).Some? ==> FenceOpened(s).value.Fence?
  {
  }

  lemma {:induction false} OpenedIs(lines: seq<string>)
    ensures
      var mode := ModeAfter(Prose, lines);
      mode != Prose ==>
        var k := OpenedAt(lines);
        && 0 < k <= |lines| && LeavesOpen(lines, k - 1) && mode == ScannedAt(Prose, lines, k - 1).next
  {
    hide ScanLine;
    if lines != [] {
      var n := |lines| - 1;
      OpenedIs(lines[..n]);
      ModeStep(ModeAfter(Prose, lines[..n]), lines[n]);
      forall i | 0 <= i < n ensures ScannedAt(Prose, lines[..n], i) == ScannedAt(Prose, lines, i) {
        assert lines[..n][..i] == lines[..i];
      }
    }
  }

  /** What is reported as left open: the last line that opens a block, as a fence or as a comment, when nothing behind it
      closes the block; and nothing exactly when the file ends outside any block. */
  lemma {:induction false} IssueIs(lines: seq<string>)
    ensures
      match IssueOf(lines)
      case None => ModeAfter(Prose, lines) == Prose
      case Some(UnclosedFence(k)) => 0 < k && LeavesOpen(lines, k - 1) && ScannedAt(Prose, lines, k - 1).next.Fence?
      case Some(UnclosedComment(k)) => 0 < k && LeavesOpen(lines, k - 1) && ScannedAt(Prose, lines, k - 1).next == Comment
  {
    hide LeavesOpen, ScannedAt, ModeAfter;
    OpenedIs(lines);
  }
}
