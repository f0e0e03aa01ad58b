/** Extraction from a file put together from parts, told by the visible lines alone. */
module ReleaseViews {
  import opened Options
  import opened PyText
  import opened ChangelogHeadings
  import opened ChangelogNotes
  import opened ChangelogRelease

  // ----- Searching in two parts

  lemma {:induction false} LabelInTwo(a: seq<string>, b: seq<string>, version: string, from: nat)
    requires from <= |a|
    ensures LabelFrom(a + b, version, from) ==
      match LabelFrom(a, version, from)
      case Some(at) => Some(at)
      case None =>
        match LabelFrom(b, version, 0)
        case None => None
        case Some(at) => Some(|a| + at)
    decreases |a| - from
  {
    if from == |a| {
      LabelShift(a, b, version, 0);
    } else {
      assert (a + b)[from] == a[from];
      if ReleaseLabel(a[from]) != Some(version) {
        LabelInTwo(a, b, version, from + 1);
      }
    }
  }

  lemma {:induction false} LabelShift(a: seq<string>, b: seq<string>, version: string, from: nat)
    requires from <= |b|
    ensures LabelFrom(a + b, version, |a| + from) ==
      match LabelFrom(b, version, from) case None => None case Some(at) => Some(|a| + at)
    decreases |b| - from
  {
    if from < |b| {
      assert (a + b)[|a| + from] == b[from];
      LabelShift(a, b, version, from + 1);
    }
  }

  lemma {:induction false} TopHeadingShift(a: seq<string>, b: seq<string>, from: nat)
    requires from <= |b|
    ensures TopHeadingFrom(a + b, |a| + from) == |a| + TopHeadingFrom(b, from)
    decreases |b| - from
  {
    if from < |b| {
      assert (a + b)[|a| + from] == b[from];
      TopHeadingShift(a, b, from + 1);
    }
  }

  lemma {:induction false} TopHeadingInTwo(a: seq<string>, b: seq<string>, from: nat)
    requires from <= |a|
    ensures TopHeadingFrom(a + b, from) ==
      if TopHeadingFrom(a, from) < |a| then TopHeadingFrom(a, from) else |a| + TopHeadingFrom(b, 0)
    decreases |a| - from
  {
    if from == |a| {
      TopHeadingShift(a, b, 0);
    } else {
      assert (a + b)[from] == a[from];
      if !IsTopHeading(a[from]) {
        TopHeadingInTwo(a, b, from + 1);
      }
    }
  }

  // ----- Bodies in two parts

  /** Behind nothing, or behind a part, the second part starts with a top heading. */
  predicate StartsBlock(visible: seq<string>) {
    visible == [] || IsTopHeading(visible[0])
  }

  /** A part is read the same whatever block follows it. */
  lemma {:induction false} ExtractFirst(la: seq<string>, va: seq<string>, lb: seq<string>, vb: seq<string>, version: string)
    requires |la| == |va| && |lb| == |vb| && StartsBlock(vb) && LabelFrom(va, version, 0).Some?
    ensures ExtractViews(la + lb, va + vb, version) == ExtractViews(la, va, version)
  {
    hide ReleaseLabel, IsTopHeading, Trim;
    LabelInTwo(va, vb, version, 0);
    var start := LabelFrom(va, version, 0).value;
    TopHeadingInTwo(va, vb, start + 1);
    assert TopHeadingFrom(vb, 0) == 0;
    SliceInFront(la, lb, start + 1, BlockEnd(va, start));
  }

  lemma SliceInFront(a: seq<string>, b: seq<string>, i: nat, j: nat)
    requires i <= j <= |a|
    ensures (a + b)[i..j] == a[i..j]
  {}

  /** A part is read the same whatever stands before it. */
  lemma {:induction false} ExtractSecond(la: seq<string>, va: seq<string>, lb: seq<string>, vb: seq<string>, version: string)
    requires |la| == |va| && |lb| == |vb| && LabelFrom(va, version, 0) == None
    ensures ExtractViews(la + lb, va + vb, version) == ExtractViews(lb, vb, version)
  {
    hide ReleaseLabel, IsTopHeading, Trim;
    LabelInTwo(va, vb, version, 0);
    if LabelFrom(vb, version, 0).Some? {
      var start := LabelFrom(vb, version, 0).value;
      TopHeadingShift(va, vb, start + 1);
      SliceBehind(la, lb, start + 1, BlockEnd(vb, start));
    }
  }

  lemma {:induction false} ExtractInTwo(la: seq<string>, va: seq<string>, lb: seq<string>, vb: seq<string>, version: string)
    requires |la| == |va| && |lb| == |vb| && StartsBlock(vb)
    ensures ExtractViews(la + lb, va + vb, version) ==
      if LabelFrom(va, version, 0).Some? then ExtractViews(la, va, version) else ExtractViews(lb, vb, version)
  {
    if LabelFrom(va, version, 0).Some? {
      ExtractFirst(la, va, lb, vb, version);
    } else {
      ExtractSecond(la, va, lb, vb, version);
    }
  }

  lemma SliceBehind(a: seq<string>, b: seq<string>, i: nat, j: nat)
    requires i <= j <= |b|
    ensures (a + b)[|a| + i..|a| + j] == b[i..j]
  {}

  // ----- Blank lines

  ghost predicate AllBlankLines(lines: seq<string>) {
    forall i :: 0 <= i < |lines| ==> Strip(lines[i]) == []
  }

  lemma {:induction false} TrimOfBlank(lines: seq<string>)
    requires AllBlankLines(lines)
    ensures Trim(lines) == []
  {
    DropLeadingAll(lines);
  }

  lemma {:induction false} DropLeadingAll(lines: seq<string>)
    requires AllBlankLines(lines)
    ensures DropLeadingBlank(lines) == []
  {
    if lines != [] {
      DropLeadingAll(lines[1..]);
    }
  }

  lemma {:induction false} DropTrailingAppend(lines: seq<string>, blank: seq<string>)
    requires AllBlankLines(blank)
    ensures DropTrailingBlank(lines + blank) == DropTrailingBlank(lines)
  {
    if blank == [] {
      assert lines + blank == lines;
    } else {
      var n := |blank| - 1;
      assert (lines + blank)[..|lines + blank| - 1] == lines + blank[..n];
      DropTrailingAppend(lines, blank[..n]);
    }
  }

  lemma {:induction false} DropLeadingAppend(lines: seq<string>, blank: seq<string>)
    requires AllBlankLines(blank)
    ensures DropLeadingBlank(lines + blank) == if DropLeadingBlank(lines) == [] then [] else DropLeadingBlank(lines) + blank
  {
    if lines == [] {
      assert lines + blank == blank;
      DropLeadingAll(blank);
    } else if Strip(lines[0]) == [] {
      assert (lines + blank)[1..] == lines[1..] + blank;
      DropLeadingAppend(lines[1..], blank);
    }
  }

  /** Blank lines at the end do not reach a trimmed body. */
  lemma TrimAppend(lines: seq<string>, blank: seq<string>)
    requires AllBlankLines(blank)
    ensures Trim(lines + blank) == Trim(lines)
  {
    DropLeadingAppend(lines, blank);
    if DropLeadingBlank(lines) != [] {
      DropTrailingAppend(DropLeadingBlank(lines), blank);
    }
  }

  lemma {:induction false} TrimPrepend(blank: seq<string>, lines: seq<string>)
    requires AllBlankLines(blank)
    ensures Trim(blank + lines) == Trim(lines)
  {
    if blank == [] {
      assert blank + lines == lines;
    } else {
      assert (blank + lines)[1..] == blank[1..] + lines;
      TrimPrepend(blank[1..], lines);
    }
  }

  /** Lines without a heading that stand behind a part belong to its last block. */
  ghost predicate NoHeadings(visible: seq<string>) {
    forall i :: 0 <= i < |visible| ==> HeadingOf(visible[i]) == None
  }

  lemma {:induction false} NoLabels(visible: seq<string>, version: string, from: nat)
    requires from <= |visible| && forall i :: from <= i < |visible| ==> ReleaseLabel(visible[i]) != Some(version)
    ensures LabelFrom(visible, version, from) == None
    decreases |visible| - from
  {
    if from < |visible| {
      NoLabels(visible, version, from + 1);
    }
  }

  lemma {:induction false} NoTopHeading(visible: seq<string>, from: nat)
    requires from <= |visible| && forall i :: from <= i < |visible| ==> !IsTopHeading(visible[i])
    ensures TopHeadingFrom(visible, from) == |visible|
    decreases |visible| - from
  {
    if from < |visible| {
      NoTopHeading(visible, from + 1);
    }
  }

  lemma EndWithBlank(visible: seq<string>, blankViews: seq<string>, start: nat)
    requires start < |visible| && NoHeadings(blankViews)
    ensures
      var end := BlockEnd(visible, start);
      BlockEnd(visible + blankViews, start) == if end < |visible| then end else |visible| + |blankViews|
  {
    TopHeadingInTwo(visible, blankViews, start + 1);
    NoTopHeading(blankViews, 0);
  }

  lemma BodyWithBlank(lines: seq<string>, blank: seq<string>, start: nat)
    requires start < |lines| && AllBlankLines(blank)
    ensures Trim((lines + blank)[start + 1..|lines| + |blank|]) == Trim(lines[start + 1..|lines|])
  {
    hide Trim, AllBlankLines;
    assert (lines + blank)[start + 1..|lines| + |blank|] == lines[start + 1..|lines|] + blank;
    TrimAppend(lines[start + 1..|lines|], blank);
  }

  /** Blank lines at the end of the file change no extraction. */
  lemma ExtractIgnoresBlankEnd(lines: seq<string>, visible: seq<string>, blank: seq<string>, blankViews: seq<string>, version: string)
    requires |lines| == |visible| && |blank| == |blankViews| && AllBlankLines(blank) && NoHeadings(blankViews)
    ensures ExtractViews(lines + blank, visible + blankViews, version) == ExtractViews(lines, visible, version)
  {
    LabelInTwo(visible, blankViews, version, 0);
    NoLabelAtBlank(blankViews, version);
    hide LabelFrom, BlockEnd, Trim, NoHeadings, AllBlankLines;
    match LabelFrom(visible, version, 0)
    case None =>
    case Some(start) =>
      EndWithBlank(visible, blankViews, start);
      var end := BlockEnd(visible, start);
      if end < |visible| {
        assert (lines + blank)[start + 1..end] == lines[start + 1..end];
      } else {
        BodyWithBlank(lines, blank, start);
      }
  }

  lemma {:induction false} NoLabelAtBlank(blankViews: seq<string>, version: string)
    requires NoHeadings(blankViews)
    ensures LabelFrom(blankViews, version, 0) == None
  {
    NoLabels(blankViews, version, 0);
  }
}
