/** The entries of a parsed transcript: a setup entry opens every segment, and what was said in the
    segment follows. */
module TranscriptSegments {
  import opened Transcript

  datatype Segment<B> = Segment(setup: B, said: seq<B>)

  /** The entries of one segment, numbered from `at`. */
  function SegmentEntries<B>(segment: Segment<B>, at: nat): seq<Entry<B>> {
    [Entry(at, true, segment.setup)]
    + seq(|segment.said|, i requires 0 <= i < |segment.said| => Entry(at + 1 + i, false, segment.said[i]))
  }

  function EntriesOf<B>(segments: seq<Segment<B>>): seq<Entry<B>> {
    if segments == [] then []
    else
      var before := EntriesOf(segments[..|segments| - 1]);
      before + SegmentEntries(segments[|segments| - 1], |before|)
  }

  /** Where a segment starts, or where they all end. */
  function Start<B>(segments: seq<Segment<B>>, j: nat): nat
    requires j <= |segments|
  {
    |EntriesOf(segments[..j])|
  }

  /** `build_segment_entries`, one number for all the entries. */
  method BuildSegmentEntries<B>(segments: seq<Segment<B>>) returns (entries: seq<Entry<B>>)
    ensures entries == EntriesOf(segments)
    ensures Indexed(entries) && (segments != [] ==> entries != [] && entries[0].setup)
  {
    entries := [];
    var ordinal := 0;
    for j := 0 to |segments|
      invariant entries == EntriesOf(segments[..j]) && ordinal == |entries|
    {
      ghost var before := entries;
      entries := entries + [Entry(ordinal, true, segments[j].setup)];
      ordinal := ordinal + 1;
      var said := segments[j].said;
      for i := 0 to |said|
        invariant ordinal == |before| + 1 + i && entries == before + SegmentEntries(segments[j], |before|)[..i + 1]
      {
        entries := entries + [Entry(ordinal, false, said[i])];
        ordinal := ordinal + 1;
      }
      assert segments[..j + 1][..j] == segments[..j];
    }
    assert segments[..|segments|] == segments;
    EntriesAreIndexed(segments);
  }

  lemma {:induction false} EntriesAreIndexed<B>(segments: seq<Segment<B>>)
    ensures
      var all := EntriesOf(segments);
      Indexed(all) && (segments != [] ==> all != [] && all[0].setup)
  {
    if segments != [] {
      EntriesAreIndexed(segments[..|segments| - 1]);
    }
  }

  /** What the entries of a segment are among all entries. */
  lemma {:induction false} SegmentStands<B>(segments: seq<Segment<B>>, j: nat)
    requires j < |segments|
    ensures
      var all := EntriesOf(segments);
      && Start(segments, j + 1) == Start(segments, j) + 1 + |segments[j].said| <= |all|
      && all[Start(segments, j)].setup
      && forall i :: Start(segments, j) < i < Start(segments, j + 1) ==> !all[i].setup
  {
    var n := |segments| - 1;
    assert segments[..j + 1][..j] == segments[..j];
    if j < n {
      SegmentStands(segments[..n], j);
      assert segments[..n][..j] == segments[..j] && segments[..n][..j + 1] == segments[..j + 1];
    } else {
      assert segments[..j + 1] == segments;
    }
  }

  lemma {:induction false} SegmentOf<B>(segments: seq<Segment<B>>, at: nat) returns (j: nat)
    requires at < |EntriesOf(segments)|
    ensures j < |segments| && Start(segments, j) <= at < Start(segments, j + 1)
  {
    var n := |segments| - 1;
    if at < Start(segments, n) {
      j := SegmentOf(segments[..n], at);
      assert segments[..n][..j] == segments[..j] && segments[..n][..j + 1] == segments[..j + 1];
    } else {
      j := n;
      assert segments[..n + 1] == segments;
    }
  }

  /** Segments in a row in which nothing was said, and the one that follows: their setup entries stand in
      a row. */
  lemma {:induction false} SilentRun<B>(segments: seq<Segment<B>>, j: nat, count: nat)
    requires j + count < |segments| && forall i :: j <= i < j + count ==> segments[i].said == []
    ensures Start(segments, j + count) == Start(segments, j) + count < |EntriesOf(segments)|
    ensures forall i :: Start(segments, j) <= i <= Start(segments, j) + count ==> EntriesOf(segments)[i].setup
    decreases count
  {
    hide EntriesOf;
    SegmentStands(segments, j + count);
    if count > 0 {
      SilentRun(segments, j, count - 1);
      SegmentStands(segments, j + count - 1);
    }
  }

  /** And setup entries in a row are those of segments in a row in which nothing was said. */
  lemma {:induction false} SetupRun<B>(segments: seq<Segment<B>>, at: nat, count: nat) returns (j: nat)
    requires at + count < |EntriesOf(segments)| && forall i :: at <= i <= at + count ==> EntriesOf(segments)[i].setup
    ensures j + count < |segments| && Start(segments, j) == at && Start(segments, j + count) == at + count
    ensures forall i :: j <= i < j + count ==> segments[i].said == []
    decreases count
  {
    hide EntriesOf;
    if count == 0 {
      j := SegmentOf(segments, at);
      SegmentStands(segments, j);
      assert EntriesOf(segments)[at].setup;
    } else {
      j := SetupRun(segments, at, count - 1);
      SegmentStands(segments, j + count - 1);
      var next := SegmentOf(segments, at + count);
      SegmentStands(segments, next);
      assert EntriesOf(segments)[at + count].setup;
      StartsGrow(segments, next, j + count);
      StartsGrow(segments, j + count, next);
    }
  }

  lemma {:induction false} StartsGrow<B>(segments: seq<Segment<B>>, i: nat, j: nat)
    requires i <= j <= |segments| || j <= i <= |segments|
    ensures i < j ==> Start(segments, i) < Start(segments, j)
    decreases j
  {
    hide EntriesOf;
    if i < j {
      SegmentStands(segments, j - 1);
      StartsGrow(segments, i, j - 1);
    }
  }

  lemma {:induction false} NothingShownIsSetup<B>(all: seq<Entry<B>>, lo: nat, hi: nat)
    requires lo <= hi <= |all| && Shown(all, lo, hi) == []
    ensures forall i :: lo <= i < hi ==> all[i].setup
    decreases hi - lo
  {
    if lo < hi {
      NothingShownIsSetup(all, lo + 1, hi);
    }
  }

  /** `count` segments in a row in which nothing was said, with another one behind them. */
  ghost predicate HasSilentRun<B>(segments: seq<Segment<B>>, count: nat) {
    exists j: nat :: IsSilent(segments, j, count)
  }

  ghost predicate IsSilent<B>(segments: seq<Segment<B>>, j: nat, count: nat) {
    j + count < |segments| && forall i :: j <= i < j + count ==> segments[i].said == []
  }

  /** A transcript has a page of setup entries alone exactly when nothing was said in 23 segments in a row
      that another one follows. */
  lemma {:induction false} EmptyPageIffSilent<B>(segments: seq<Segment<B>>)
    ensures NoEmptyPage(EntriesOf(segments)) <==> !HasSilentRun(segments, PAGE - 1)
  {
    hide EntriesOf, Shown;
    var all, count := EntriesOf(segments), PAGE - 1;
    if HasSilentRun(segments, count) {
      var j: nat :| IsSilent(segments, j, count);
      SilentRun(segments, j, count);
      var at := Start(segments, j);
      SetupShowsNothing(all, at, at + PAGE);
      assert PageAt(all, at) == [];
    }
    forall at | 0 <= at && at + PAGE <= |all| && PageAt(all, at) == [] ensures HasSilentRun(segments, PAGE - 1) {
      NothingShownIsSetup(all, at, at + PAGE);
      var j := SetupRun(segments, at, count);
      assert IsSilent(segments, j, count);
    }
  }

  /** A transcript of boundary events in a row: something is said first and last, and nothing in the
      segments between. */
  function Leaping<B>(body: B): seq<Segment<B>> {
    [Segment(body, [body])] + seq(PAGE - 1, i requires 0 <= i < PAGE - 1 => Segment(body, [])) + [Segment(body, [body])]
  }

  /** Its first entry with text is out of reach from the end: the page before the last one shows nothing,
      and the window leaps to the start. */
  lemma APageCanHideEntries<B>(body: B)
    ensures
      var all := EntriesOf(Leaping(body));
      && Indexed(all) && |all| == PAGE + 3 && all[0].setup
      && PageBefore(all, |all|) == [all[PAGE + 2]]
      && PageBefore(all, PAGE + 2) == [] && Shown(all, 0, PAGE + 2) == [all[1]]
  {
    hide EntriesOf;
    var segments, all := Leaping(body), EntriesOf(Leaping(body));
    EntriesAreIndexed(segments);
    StartOfAll(segments);
    SegmentStands(segments, 0);
    SilentRun(segments, 1, PAGE - 1);
    SegmentStands(segments, PAGE);
    SetupShowsNothing(all, 2, PAGE + 2);
    SetupShowsNothing(all, 3, PAGE + 2);
    ShownSplits(all, 3, PAGE + 2, PAGE + 3);
    assert Shown(all, PAGE + 3, PAGE + 3) == [];
  }

  lemma {:induction false} StartOfAll<B>(segments: seq<Segment<B>>)
    ensures Start(segments, 0) == 0 && Start(segments, |segments|) == |EntriesOf(segments)|
  {
    assert segments[..0] == [] && segments[..|segments|] == segments;
  }
}
