/** What the changelog scanner promises: it composes over concatenation, leaves no comment
    opener in prose, and reads its own clean view the way it read the file. */
module ScanLaws {
  import opened Options
  import opened PyText
  import opened ChangelogScan
  import InlineCode

  // ----- Composition

  lemma {:induction false} ModeAfterConcat(mode: Mode, a: seq<string>, b: seq<string>)
    ensures ModeAfter(mode, a + b) == ModeAfter(ModeAfter(mode, a), b)
  {
    if b == [] {
      assert a + b == a;
    } else {
      assert (a + b)[..|a + b| - 1] == a + b[..|b| - 1];
      ModeAfterConcat(mode, a, b[..|b| - 1]);
    }
  }

  lemma {:induction false} ScannedInConcat(mode: Mode, a: seq<string>, b: seq<string>, i: nat)
    requires i < |a + b|
    ensures ScannedAt(mode, a + b, i) ==
      if i < |a| then ScannedAt(mode, a, i) else ScannedAt(ModeAfter(mode, a), b, i - |a|)
  {
    if i < |a| {
      assert (a + b)[..i] == a[..i];
    } else {
      assert (a + b)[..i] == a + b[..i - |a|];
      ModeAfterConcat(mode, a, b[..i - |a|]);
    }
  }

  /** Scanning two texts in a row is scanning the first, and the second from the carried mode. */
  lemma {:induction false} ScanComposes(mode: Mode, a: seq<string>, b: seq<string>)
    ensures ModeAfter(mode, a + b) == ModeAfter(ModeAfter(mode, a), b)
    ensures Visible(mode, a + b) == Visible(mode, a) + Visible(ModeAfter(mode, a), b)
    ensures Clean(mode, a + b) == Clean(mode, a) + Clean(ModeAfter(mode, a), b)
  {
    ModeAfterConcat(mode, a, b);
    VisibleComposes(mode, a, b);
    CleanComposes(mode, a, b);
  }

  lemma {:induction false} VisibleComposes(mode: Mode, a: seq<string>, b: seq<string>)
    ensures Visible(mode, a + b) == Visible(mode, a) + Visible(ModeAfter(mode, a), b)
  {
    hide ScanLine, ModeAfter;
    forall i | 0 <= i < |a + b|
      ensures Visible(mode, a + b)[i] == (Visible(mode, a) + Visible(ModeAfter(mode, a), b))[i]
    {
      ScannedInConcat(mode, a, b, i);
    }
  }

  lemma {:induction false} CleanComposes(mode: Mode, a: seq<string>, b: seq<string>)
    ensures Clean(mode, a + b) == Clean(mode, a) + Clean(ModeAfter(mode, a), b)
  {
    hide ScanLine, ModeAfter;
    forall i | 0 <= i < |a + b|
      ensures Clean(mode, a + b)[i] == (Clean(mode, a) + Clean(ModeAfter(mode, a), b))[i]
    {
      ScannedInConcat(mode, a, b, i);
    }
  }

  lemma {:induction false} ScanOfOne(mode: Mode, line: string)
    ensures ModeAfter(mode, [line]) == ScanLine(mode, line).next
    ensures Visible(mode, [line]) == [ScanLine(mode, line).visible]
    ensures Clean(mode, [line]) == [ScanLine(mode, line).clean]
  {
    assert [line][..0] == [];
  }

  // ----- No comment opener is left in prose

  lemma PrefixContainsNot(s: string, part: string, n: nat)
    requires part != [] && n <= |s| && forall i :: 0 <= i < n ==> !StandsAt(s, part, i)
    ensures !Contains(s[..n], part)
  {
    forall i ensures StandsAt(s[..n], part, i) ==> i < n && StandsAt(s, part, i) {
      if StandsAt(s[..n], part, i) {
        assert s[..n][i..i + |part|] == s[i..i + |part|];
      }
    }
  }

  lemma FirstCommentIsFirst(masked: string)
    ensures FirstComment(masked) == NoComment ==> !Contains(masked, "<!--")
    ensures FirstComment(masked).Unclosed? ==> !Contains(masked[..FirstComment(masked).start], "<!--")
  {
    var start := Find(masked, "<!--", 0, |masked|);
    if start >= 0 {
      PrefixContainsNot(masked, "<!--", start);
    }
  }

  lemma {:induction false} NoOpenerAfterDrop(prose: string, masked: string)
    requires |prose| == |masked|
    ensures !Contains(DropComments(prose, masked).masked, "<!--")
    decreases |masked|
  {
    FirstCommentIsFirst(masked);
    match FirstComment(masked)
    case NoComment =>
    case Unclosed(_) =>
    case Closed(start, end) =>
      NoOpenerAfterDrop(CutOut(prose, start, end), CutOut(masked, start, end));
  }

  /** No visible line holds a comment opener. */
  lemma VisibleHasNoOpener(mode: Mode, line: string)
    ensures !Contains(ScanLine(mode, line).visible, "<!--")
  {
    forall prose: string ensures !Contains(ScanProse(prose).visible, "<!--") {
      var r := DropComments(prose, InlineCode.Mask(prose));
      NoOpenerAfterDrop(prose, InlineCode.Mask(prose));
      forall i ensures !StandsAt(r.masked, "<!--", i) {}
      RStripFacts(r.masked);
      PrefixContainsNot(r.masked, "<!--", |RStrip(r.masked)|);
    }
  }

  /** The masked text is the prose with some characters replaced by `x`. */
  ghost predicate SameOrX(masked: string, prose: string) {
    |masked| == |prose| && forall k :: 0 <= k < |prose| ==> masked[k] == prose[k] || masked[k] == 'x'
  }

  /** Removing comments keeps the two texts aligned. */
  lemma {:induction false} DropKeepsAligned(prose: string, masked: string)
    requires SameOrX(masked, prose)
    ensures var r := DropComments(prose, masked); SameOrX(r.masked, r.prose)
    decreases |masked|
  {
    match FirstComment(masked)
    case NoComment =>
    case Unclosed(_) =>
    case Closed(start, end) =>
      DropKeepsAligned(CutOut(prose, start, end), CutOut(masked, start, end));
  }

  lemma {:induction false} ProseStaysAligned(prose: string)
    ensures var r := DropComments(prose, InlineCode.Mask(prose)); SameOrX(r.masked, r.prose)
  {
    DropKeepsAligned(prose, InlineCode.Mask(prose));
  }

  // ----- Reading the clean view again

  /** Every comment on the line leaves nothing behind: the condition under which the clean
      view of a file reads like the file. */
  ghost predicate TameLine(mode: Mode, line: string) {
    var r := ScanLine(mode, line);
    match mode
    case Fence(_, _) => true
    case Comment => r.visible == [] && r.clean == []
    case Prose =>
      || FenceOpened(LStrip(line)).Some?
      || !Contains(InlineCode.Mask(line), "<!--")
      || (r.visible == [] && r.clean == [])
  }

  ghost predicate Tame(mode: Mode, lines: seq<string>) {
    forall i :: 0 <= i < |lines| ==> TameLine(ModeAfter(mode, lines[..i]), lines[i])
  }

  /** The clean view has no comments, so it is never read inside one. */
  function Settled(mode: Mode): Mode {
    if mode == Comment then Prose else mode
  }

  lemma FenceOpenedAppendBlank(t: string, b: string)
    requires IsBlank(b)
    ensures FenceOpened(t + b) == FenceOpened(t)
  {
    LeadAppend(t, b, '`');
    LeadAppend(t, b, '~');
  }

  lemma BlankHasNoTicks(b: string)
    requires IsBlank(b)
    ensures InlineCode.NoTicks(b)
  {}

  /** Stripping trailing blanks changes neither what the line opens nor its masked text. */
  lemma {:induction false} TrailingBlanks(line: string)
    ensures
      var c := RStrip(line);
      && RStrip(c) == c
      && FenceOpened(LStrip(c)) == FenceOpened(LStrip(line))
      && RStrip(InlineCode.Mask(c)) == RStrip(InlineCode.Mask(line))
      && InlineCode.Mask(line) == InlineCode.Mask(c) + line[|c|..]
  {
    var c := RStrip(line);
    RStripFacts(line);
    var b := line[|c|..];
    assert line == c + b;
    RStripStripped(c);
    LStripAppendBlank(c, b);
    if LStrip(c) != [] {
      FenceOpenedAppendBlank(LStrip(c), b);
    }
    BlankHasNoTicks(b);
    InlineCode.MaskSuffix(c, b);
    RStripAppendBlank(InlineCode.Mask(c), b);
  }

  lemma {:induction false} PlainProse(line: string)
    requires !Contains(InlineCode.Mask(line), "<!--")
    ensures ScanProse(line) == Scanned(RStrip(InlineCode.Mask(line)), RStrip(line), Prose, false)
  {}

  lemma ContainsInLonger(s: string, b: string, part: string)
    requires Contains(s, part)
    ensures Contains(s + b, part)
  {
    var i :| StandsAt(s, part, i);
    assert (s + b)[i..i + |part|] == s[i..i + |part|];
    assert StandsAt(s + b, part, i);
  }

  lemma ScanOfNothing(mode: Mode)
    requires !mode.Fence?
    ensures ScanLine(Prose, []) == Scanned([], [], Prose, false)
  {
    InlineCode.MaskPlain([]);
    PlainProse([]);
  }

  lemma RescanProse(line: string)
    requires TameLine(Prose, line)
    ensures
      var r := ScanLine(Prose, line);
      var again := ScanLine(Prose, r.clean);
      again.visible == r.visible && again.clean == r.clean && again.next == Settled(r.next)
  {
    var r := ScanLine(Prose, line);
    TrailingBlanks(line);
    if FenceOpened(LStrip(line)) == None {
      if !Contains(InlineCode.Mask(line), "<!--") {
        PlainProse(line);
        if Contains(InlineCode.Mask(r.clean), "<!--") {
          ContainsInLonger(InlineCode.Mask(r.clean), line[|r.clean|..], "<!--");
        }
        PlainProse(r.clean);
      } else {
        ScanOfNothing(Prose);
      }
    }
  }

  lemma RescanFence(mark: char, length: nat, line: string)
    ensures
      var r := ScanLine(Fence(mark, length), line);
      ScanLine(Fence(mark, length), r.clean) == r
  {
    RStripFacts(line);
    RStripStripped(RStrip(line));
    StripOfRStrip(line);
  }

  /** A line's clean view is read the way the line was. */
  lemma RescanLine(mode: Mode, line: string)
    requires TameLine(mode, line)
    ensures
      var r := ScanLine(mode, line);
      var again := ScanLine(Settled(mode), r.clean);
      again.visible == r.visible && again.clean == r.clean && again.next == Settled(r.next)
  {
    match mode
    case Fence(mark, length) =>
      RescanFence(mark, length, line);
    case Comment =>
      ScanOfNothing(Comment);
    case Prose =>
      RescanProse(line);
  }

  lemma TamePrefix(mode: Mode, lines: seq<string>, n: nat)
    requires Tame(mode, lines) && n <= |lines|
    ensures Tame(mode, lines[..n])
  {
    forall i | 0 <= i < n ensures TameLine(ModeAfter(mode, lines[..n][..i]), lines[..n][i]) {
      assert lines[..n][..i] == lines[..i];
    }
  }

  lemma {:induction false} RescanModes(mode: Mode, lines: seq<string>)
    requires Tame(mode, lines)
    ensures ModeAfter(Settled(mode), Clean(mode, lines)) == Settled(ModeAfter(mode, lines))
  {
    if lines != [] {
      var n := |lines| - 1;
      TamePrefix(mode, lines, n);
      RescanModes(mode, lines[..n]);
      VisibleOfPrefix(mode, lines, n);
      RescanLine(ModeAfter(mode, lines[..n]), lines[n]);
    }
  }

  /** The clean view of a file with tame comments reads like the file: same visible lines,
      itself as its clean view, and the same mode at the end. */
  lemma {:induction false} RescanClean(mode: Mode, lines: seq<string>)
    requires Tame(mode, lines)
    ensures
      var clean := Clean(mode, lines);
      && ModeAfter(Settled(mode), clean) == Settled(ModeAfter(mode, lines))
      && Visible(Settled(mode), clean) == Visible(mode, lines)
      && Clean(Settled(mode), clean) == clean
  {
    var clean := Clean(mode, lines);
    RescanModes(mode, lines);
    forall i | 0 <= i < |lines|
      ensures ScannedAt(Settled(mode), clean, i).visible == ScannedAt(mode, lines, i).visible
      ensures ScannedAt(Settled(mode), clean, i).clean == clean[i]
    {
      TamePrefix(mode, lines, i);
      RescanModes(mode, lines[..i]);
      VisibleOfPrefix(mode, lines, i);
      RescanLine(ModeAfter(mode, lines[..i]), lines[i]);
    }
  }
}
