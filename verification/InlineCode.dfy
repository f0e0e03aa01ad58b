/** Inline code spans of the changelog scanner.

    A span is opened and closed by backtick runs of equal length (section 6.1 of
    CommonMark 0.31.2), read one line at a time. */
module InlineCode {
  import opened Options

  // ----- The rule

  /** The number of backticks in a row from position `i` on. */
  function RunLength(line: string, i: nat): (n: nat)
    requires i <= |line|
    ensures i + n <= |line|
    decreases |line| - i
  {
    if i == |line| || line[i] != '`' then 0 else 1 + RunLength(line, i + 1)
  }

  /** Where the next run of exactly `n` backticks ends. */
  function CloseEnd(line: string, i: nat, n: nat): (end: Option<nat>)
    requires i <= |line|
    ensures end.Some? ==> i + n <= end.value <= |line|
    decreases |line| - i
  {
    if i == |line| then None
    else
      var m := RunLength(line, i);
      if m == 0 then CloseEnd(line, i + 1, n)
      else if m == n then Some(i + m)
      else CloseEnd(line, i + m, n)
  }

  /** A backtick run with a later run of equal length stands at `i`. */
  predicate OpensCode(line: string, i: nat)
    requires i < |line|
  {
    RunLength(line, i) > 0 && CloseEnd(line, i + RunLength(line, i), RunLength(line, i)).Some?
  }

  /** Where the code span, the unpaired run or the single character at `i` ends. */
  function PieceEnd(line: string, i: nat): (end: nat)
    requires i < |line|
    ensures i < end <= |line|
  {
    if OpensCode(line, i) then CloseEnd(line, i + RunLength(line, i), RunLength(line, i)).value
    else if RunLength(line, i) > 0 then i + RunLength(line, i)
    else i + 1
  }

  /** Reading the line piece by piece from `i` on, position `k` falls into a code span: an
      opening run without an equal closing run is literal text. */
  predicate CodedFrom(line: string, i: nat, k: nat)
    decreases |line| - i
  {
    && i < |line| && i <= k
    && if k < PieceEnd(line, i) then OpensCode(line, i) else CodedFrom(line, PieceEnd(line, i), k)
  }

  /** The line with the characters of inline code replaced by `x`. */
  function Mask(line: string): (masked: string)
    ensures |masked| == |line|
  {
    seq(|line|, k requires 0 <= k < |line| => if CodedFrom(line, 0, k) then 'x' else line[k])
  }

  // ----- The scanner's way: collect the runs, then pair them

  datatype Run = Run(start: nat, length: nat)

  /** The maximal backtick runs from a position on. */
  function RunsFrom(line: string, i: nat): (runs: seq<Run>)
    requires i <= |line|
    decreases |line| - i
  {
    if i == |line| then []
    else
      var m := RunLength(line, i);
      if m == 0 then RunsFrom(line, i + 1) else [Run(i, m)] + RunsFrom(line, i + m)
  }

  /** The first run from `index` on that has the given length. */
  function NextOfLength(runs: seq<Run>, index: nat, length: nat): (close: Option<nat>)
    ensures close.Some? ==> index <= close.value < |runs|
    decreases |runs| - index
  {
    if index >= |runs| then None
    else if runs[index].length == length then Some(index)
    else NextOfLength(runs, index + 1, length)
  }

  ghost predicate ClosesAs(line: string, i: nat, runs: seq<Run>, index: nat, length: nat)
    requires i <= |line|
  {
    match NextOfLength(runs, index, length)
    case None => CloseEnd(line, i, length) == None
    case Some(close) =>
      var end := runs[close].start + length;
      CloseEnd(line, i, length) == Some(end) && runs[close + 1..] == RunsFrom(line, end)
  }

  lemma FirstOfRuns(runs: seq<Run>, index: nat, first: Run, rest: seq<Run>)
    requires index <= |runs| && runs[index..] == [first] + rest
    ensures index < |runs| && runs[index] == first && runs[index + 1..] == rest
  {
    assert runs[index..][0] == first && runs[index..][1..] == rest;
  }

  /** Pairing by the list of runs finds the closing run of the rule. */
  lemma {:induction false} NextOfLengthIsClose(line: string, i: nat, runs: seq<Run>, index: nat, length: nat)
    requires i <= |line| && index <= |runs| && runs[index..] == RunsFrom(line, i) && length > 0
    ensures ClosesAs(line, i, runs, index, length)
    decreases |line| - i
  {
    if i < |line| {
      var m := RunLength(line, i);
      if m == 0 {
        NextOfLengthIsClose(line, i + 1, runs, index, length);
      } else {
        FirstOfRuns(runs, index, Run(i, m), RunsFrom(line, i + m));
        if m != length {
          NextOfLengthIsClose(line, i + m, runs, index + 1, length);
        }
      }
    }
  }

  /** From `done` on the line is still to be read, and reading on from there decides it. */
  ghost predicate ReadTo(line: string, done: nat) {
    done <= |line| && forall k :: done <= k < |line| ==> CodedFrom(line, 0, k) == CodedFrom(line, done, k)
  }

  ghost predicate MaskedTo(line: string, masked: string, done: nat) {
    && |masked| == |line| && ReadTo(line, done)
    && (forall k :: 0 <= k < done ==> masked[k] == if CodedFrom(line, 0, k) then 'x' else line[k])
    && (forall k :: done <= k < |line| ==> masked[k] == line[k])
  }

  /** Text before the first remaining run is not touched. */
  lemma {:induction false} SkipToRun(line: string, masked: string, done: nat)
    requires MaskedTo(line, masked, done)
    ensures
      var runs := RunsFrom(line, done);
      var start := if runs == [] then |line| else runs[0].start;
      && done <= start && MaskedTo(line, masked, start) && RunsFrom(line, start) == runs
      && (runs != [] ==>
            && start < |line| && runs[0].length == RunLength(line, start) > 0
            && runs[1..] == RunsFrom(line, start + runs[0].length))
    decreases |line| - done
  {
    if done < |line| && RunLength(line, done) == 0 {
      SkipToRun(line, masked, done + 1);
    }
  }

  /** Putting `x` over a code span, and leaving another piece alone, keeps the loop's state. */
  lemma MaskNextPiece(line: string, before: string, start: nat, after: string)
    requires MaskedTo(line, before, start) && start < |line| == |after|
    requires forall k :: 0 <= k < |line| ==>
      after[k] == if OpensCode(line, start) && start <= k < PieceEnd(line, start) then 'x' else before[k]
    ensures MaskedTo(line, after, PieceEnd(line, start))
  {}

  /** The loop's state: the runs from `index` on are those from position `done` on. */
  ghost predicate Pairing(line: string, masked: string, runs: seq<Run>, index: nat, done: nat) {
    MaskedTo(line, masked, done) && index <= |runs| && runs[index..] == RunsFrom(line, done)
  }

  lemma NextRun(line: string, masked: string, runs: seq<Run>, index: nat, done: nat)
    requires Pairing(line, masked, runs, index, done) && index < |runs|
    ensures RunStands(line, runs, index) && MaskedTo(line, masked, runs[index].start)
  {
    SkipToRun(line, masked, done);
    assert runs[index..][0] == runs[index];
    FirstOfRuns(runs, index, runs[index..][0], runs[index..][1..]);
  }

  /** The run at `index` is the run the line has there, and the later ones follow it. */
  ghost predicate RunStands(line: string, runs: seq<Run>, index: nat) {
    && index < |runs| && runs[index].start < |line|
    && RunLength(line, runs[index].start) == runs[index].length > 0
    && runs[index + 1..] == RunsFrom(line, runs[index].start + runs[index].length)
  }

  lemma {:induction false} PairRun(line: string, runs: seq<Run>, index: nat)
    requires RunStands(line, runs, index)
    ensures
      var start, length := runs[index].start, runs[index].length;
      match NextOfLength(runs, index + 1, length)
      case None => !OpensCode(line, start) && PieceEnd(line, start) == start + length
      case Some(close) =>
        && OpensCode(line, start) && PieceEnd(line, start) == runs[close].start + length
        && runs[close + 1..] == RunsFrom(line, PieceEnd(line, start))
  {
    NextOfLengthIsClose(line, runs[index].start + runs[index].length, runs, index + 1, runs[index].length);
  }

  /** `_mask_inline` */
  method MaskInline(line: string) returns (result: string)
    ensures result == Mask(line)
  {
    var masked := line;
    var runs := RunsFrom(line, 0);
    var index := 0;
    ghost var done: nat := 0;
    while index < |runs|
      invariant Pairing(line, masked, runs, index, done)
      decreases |runs| - index
    {
      ghost var before := masked;
      NextRun(line, before, runs, index, done);
      PairRun(line, runs, index);
      var start, length := runs[index].start, runs[index].length;
      var close := NextOfLength(runs, index + 1, length);
      if close == None {
        index := index + 1;
      } else {
        masked := MaskSpan(masked, start, runs[close.value].start + length);
        index := close.value + 1;
      }
      MaskNextPiece(line, before, start, masked);
      done := PieceEnd(line, start);
    }
    SkipToRun(line, masked, done);
    result := masked;
  }

  /** The inner loop of `_mask_inline`. */
  method MaskSpan(text: string, start: nat, end: nat) returns (masked: string)
    requires start <= end <= |text|
    ensures |masked| == |text|
    ensures forall k :: 0 <= k < |text| ==> masked[k] == if start <= k < end then 'x' else text[k]
  {
    masked := text;
    for position := start to end
      invariant |masked| == |text|
      invariant forall k :: 0 <= k < |text| ==> masked[k] == if start <= k < position then 'x' else text[k]
    {
      masked := masked[position := 'x'];
    }
  }

  // ----- Text without backticks around a line

  predicate NoTicks(s: string) {
    forall k :: 0 <= k < |s| ==> s[k] != '`'
  }

  lemma {:induction false} RunLengthShift(p: string, t: string, i: nat)
    requires i <= |t|
    ensures RunLength(p + t, |p| + i) == RunLength(t, i)
    decreases |t| - i
  {
    if i < |t| {
      RunLengthShift(p, t, i + 1);
    }
  }

  lemma {:induction false} CloseEndShift(p: string, t: string, i: nat, n: nat)
    requires i <= |t|
    ensures CloseEnd(p + t, |p| + i, n) ==
      if CloseEnd(t, i, n) == None then None else Some(|p| + CloseEnd(t, i, n).value)
    decreases |t| - i
  {
    if i < |t| {
      RunLengthShift(p, t, i);
      var m := RunLength(t, i);
      CloseEndShift(p, t, if m == 0 then i + 1 else i + m, n);
    }
  }

  lemma PieceShift(p: string, t: string, i: nat)
    requires i < |t|
    ensures PieceEnd(p + t, |p| + i) == |p| + PieceEnd(t, i) && OpensCode(p + t, |p| + i) == OpensCode(t, i)
  {
    RunLengthShift(p, t, i);
    CloseEndShift(p, t, i + RunLength(t, i), RunLength(t, i));
  }

  lemma {:induction false} CodedShift(p: string, t: string, i: nat, k: nat)
    requires i <= |t|
    ensures CodedFrom(p + t, |p| + i, |p| + k) == CodedFrom(t, i, k)
    decreases |t| - i
  {
    if i < |t| {
      PieceShift(p, t, i);
      CodedShift(p, t, PieceEnd(t, i), k);
    }
  }

  lemma {:induction false} CodedAfterPlain(p: string, t: string, i: nat, k: nat)
    requires i <= |p| && NoTicks(p) && i <= k
    ensures CodedFrom(p + t, i, k) == (|p| <= k && CodedFrom(t, 0, k - |p|))
    decreases |p| - i
  {
    if i == |p| {
      CodedShift(p, t, 0, k - |p|);
    } else {
      assert (p + t)[i] == p[i];
      if i < k {
        CodedAfterPlain(p, t, i + 1, k);
      }
    }
  }

  /** Text without backticks in front of a line is not touched. */
  lemma MaskPrefix(p: string, t: string)
    requires NoTicks(p)
    ensures Mask(p + t) == p + Mask(t)
  {
    forall k | 0 <= k < |p + t| ensures Mask(p + t)[k] == (p + Mask(t))[k] {
      CodedAfterPlain(p, t, 0, k);
    }
  }

  lemma {:induction false} RunLengthAppend(t: string, p: string, i: nat)
    requires i <= |t| && NoTicks(p)
    ensures RunLength(t + p, i) == RunLength(t, i)
    decreases |t| - i
  {
    if i < |t| {
      RunLengthAppend(t, p, i + 1);
    } else if p != [] {
      assert (t + p)[i] == p[0];
    }
  }

  lemma {:induction false} CloseEndOfPlain(line: string, i: nat, n: nat)
    requires i <= |line| && forall k :: i <= k < |line| ==> line[k] != '`'
    ensures CloseEnd(line, i, n) == None
    decreases |line| - i
  {
    if i < |line| {
      CloseEndOfPlain(line, i + 1, n);
    }
  }

  lemma {:induction false} CloseEndAppend(t: string, p: string, i: nat, n: nat)
    requires i <= |t| && NoTicks(p)
    ensures CloseEnd(t + p, i, n) == CloseEnd(t, i, n)
    decreases |t| - i
  {
    if i == |t| {
      CloseEndOfPlain(t + p, i, n);
    } else {
      RunLengthAppend(t, p, i);
      var m := RunLength(t, i);
      CloseEndAppend(t, p, if m == 0 then i + 1 else i + m, n);
    }
  }

  lemma {:induction false} CodedOfPlain(line: string, i: nat, k: nat)
    requires i <= |line| && forall j :: i <= j < |line| ==> line[j] != '`'
    ensures !CodedFrom(line, i, k)
    decreases |line| - i
  {
    if i < |line| {
      CodedOfPlain(line, i + 1, k);
    }
  }

  lemma {:induction false} CodedAppend(t: string, p: string, i: nat, k: nat)
    requires i <= |t| && NoTicks(p)
    ensures CodedFrom(t + p, i, k) == CodedFrom(t, i, k)
    decreases |t| - i
  {
    if i == |t| {
      CodedOfPlain(t + p, i, k);
    } else {
      RunLengthAppend(t, p, i);
      CloseEndAppend(t, p, i + RunLength(t, i), RunLength(t, i));
      CodedAppend(t, p, PieceEnd(t, i), k);
    }
  }

  lemma {:induction false} CodedIsInside(t: string, i: nat, k: nat)
    requires CodedFrom(t, i, k)
    ensures k < |t|
    decreases |t| - i
  {
    if k >= PieceEnd(t, i) {
      CodedIsInside(t, PieceEnd(t, i), k);
    }
  }

  /** Text without backticks behind a line is not touched. */
  lemma MaskSuffix(t: string, p: string)
    requires NoTicks(p)
    ensures Mask(t + p) == Mask(t) + p
  {
    forall k | 0 <= k < |t + p| ensures Mask(t + p)[k] == (Mask(t) + p)[k] {
      CodedAppend(t, p, 0, k);
      if CodedFrom(t, 0, k) {
        CodedIsInside(t, 0, k);
      }
    }
  }

  lemma MaskPlain(p: string)
    requires NoTicks(p)
    ensures Mask(p) == p
  {
    forall k | 0 <= k < |p| ensures !CodedFrom(p, 0, k) {
      CodedOfPlain(p, 0, k);
    }
  }

  // ----- What survives

  /** `masked` is the line from `i` on, read piece by piece from there. */
  ghost predicate MaskedFrom(line: string, masked: string, i: nat) {
    && |masked| == |line| && i <= |line|
    && forall k :: i <= k < |line| ==> masked[k] == if CodedFrom(line, i, k) then 'x' else line[k]
  }

  lemma NextPiece(line: string, masked: string, i: nat)
    requires MaskedFrom(line, masked, i) && i < |line|
    ensures MaskedFrom(line, masked, PieceEnd(line, i))
    ensures forall k :: i <= k < PieceEnd(line, i) ==> masked[k] == if OpensCode(line, i) then 'x' else line[k]
  {}

  lemma {:induction false} RunLengthIsMaximal(line: string, i: nat)
    requires i <= |line|
    ensures i + RunLength(line, i) < |line| ==> line[i + RunLength(line, i)] != '`'
    ensures forall k :: i <= k < i + RunLength(line, i) ==> line[k] == '`'
    decreases |line| - i
  {
    if i < |line| && line[i] == '`' {
      RunLengthIsMaximal(line, i + 1);
    }
  }

  lemma {:induction false} RunLengthOfTicks(line: string, i: nat, m: nat)
    requires i + m <= |line| && forall k :: i <= k < i + m ==> line[k] == '`'
    requires i + m < |line| ==> line[i + m] != '`'
    ensures RunLength(line, i) == m
    decreases m
  {
    if m > 0 {
      RunLengthOfTicks(line, i + 1, m - 1);
    }
  }

  /** An unpaired run stays a run of the same length. */
  lemma {:induction false} UnpairedRunStays(line: string, masked: string, i: nat)
    requires MaskedFrom(line, masked, i) && i < |line| && !OpensCode(line, i)
    ensures RunLength(masked, i) == RunLength(line, i)
  {
    var m := RunLength(line, i);
    NextPiece(line, masked, i);
    RunLengthIsMaximal(line, i);
    if m > 0 && i + m < |line| {
      assert masked[i + m] == 'x' || masked[i + m] == line[i + m];
    }
    RunLengthOfTicks(masked, i, m);
  }

  lemma {:induction false} CloseEndOverXs(masked: string, i: nat, end: nat, n: nat)
    requires i <= end <= |masked| && forall k :: i <= k < end ==> masked[k] == 'x'
    ensures CloseEnd(masked, i, n) == CloseEnd(masked, end, n)
    decreases end - i
  {
    if i < end {
      CloseEndOverXs(masked, i + 1, end, n);
    }
  }

  /** A length without a closing run after `i` has none after a later boundary. */
  lemma {:induction false} NoCloseLater(line: string, i: nat, n: nat, m: nat)
    requires i <= |line| && CloseEnd(line, i, n) == None && CloseEnd(line, i, m).Some?
    ensures CloseEnd(line, CloseEnd(line, i, m).value, n) == None
    decreases |line| - i
  {
    var k := RunLength(line, i);
    if k == 0 {
      NoCloseLater(line, i + 1, n, m);
    } else if k != m {
      NoCloseLater(line, i + k, n, m);
    }
  }

  /** Masking never makes a run of a length that was not there. */
  lemma {:induction false} MaskAddsNoRun(line: string, masked: string, i: nat, n: nat)
    requires MaskedFrom(line, masked, i) && n > 0 && CloseEnd(line, i, n) == None
    ensures CloseEnd(masked, i, n) == None
    decreases |line| - i
  {
    if i < |line| {
      var end := PieceEnd(line, i);
      NextPiece(line, masked, i);
      if OpensCode(line, i) {
        NoCloseLater(line, i + RunLength(line, i), n, RunLength(line, i));
        CloseEndOverXs(masked, i, end, n);
      } else {
        UnpairedRunStays(line, masked, i);
      }
      MaskAddsNoRun(line, masked, end, n);
    }
  }

  /** Reading the masked line finds no code span. */
  lemma {:induction false} NoCodeInMasked(line: string, masked: string, i: nat, k: nat)
    requires MaskedFrom(line, masked, i)
    ensures !CodedFrom(masked, i, k)
    decreases |line| - i
  {
    if i < |line| {
      var m, end := RunLength(line, i), PieceEnd(line, i);
      NextPiece(line, masked, i);
      NoCodeInMasked(line, masked, end, k);
      if OpensCode(line, i) {
        CodedOverXs(masked, i, end, k);
      } else {
        UnpairedRunStays(line, masked, i);
        if m > 0 {
          MaskAddsNoRun(line, masked, end, m);
        }
      }
    }
  }

  lemma {:induction false} CodedOverXs(masked: string, i: nat, end: nat, k: nat)
    requires i <= end <= |masked| && forall j :: i <= j < end ==> masked[j] == 'x'
    ensures CodedFrom(masked, i, k) ==> CodedFrom(masked, end, k)
    decreases end - i
  {
    if i < end {
      CodedOverXs(masked, i + 1, end, k);
    }
  }

  /** Masking a masked line changes nothing. */
  lemma MaskIsIdempotent(line: string)
    ensures Mask(Mask(line)) == Mask(line)
  {
    forall k | 0 <= k < |line| ensures Mask(Mask(line))[k] == Mask(line)[k] {
      NoCodeInMasked(line, Mask(line), 0, k);
    }
  }

  /** From `i` on, no two backtick runs have the same length. */
  ghost predicate RunsDiffer(line: string, i: nat)
    requires i <= |line|
  {
    var runs := RunsFrom(line, i);
    forall a, b :: 0 <= a < b < |runs| ==> runs[a].length != runs[b].length
  }

  lemma {:induction false} NoCloseMeansNoRun(line: string, i: nat, n: nat)
    requires i <= |line| && n > 0 && CloseEnd(line, i, n) == None
    ensures forall k :: 0 <= k < |RunsFrom(line, i)| ==> RunsFrom(line, i)[k].length != n
    decreases |line| - i
  {
    if i < |line| {
      var m := RunLength(line, i);
      NoCloseMeansNoRun(line, if m == 0 then i + 1 else i + m, n);
    }
  }

  lemma {:induction false} RunsDifferFrom(line: string, i: nat)
    requires i <= |line| && forall k :: i <= k < |line| ==> !CodedFrom(line, i, k)
    ensures RunsDiffer(line, i)
    decreases |line| - i
  {
    if i < |line| {
      assert !CodedFrom(line, i, i);
      forall k | PieceEnd(line, i) <= k < |line| ensures !CodedFrom(line, PieceEnd(line, i), k) {
        assert !CodedFrom(line, i, k);
      }
      RunsDifferFrom(line, PieceEnd(line, i));
      if RunLength(line, i) > 0 {
        NoCloseMeansNoRun(line, PieceEnd(line, i), RunLength(line, i));
      }
    }
  }

  /** The backtick runs that survive masking have pairwise different lengths. */
  lemma SurvivingRunsDiffer(line: string)
    ensures RunsDiffer(Mask(line), 0)
  {
    forall k | 0 <= k < |line| ensures !CodedFrom(Mask(line), 0, k) {
      NoCodeInMasked(line, Mask(line), 0, k);
    }
    RunsDifferFrom(Mask(line), 0);
  }
}
