/** When the parser complains, and what it gathers, told by the places of the lines alone. */
module ParseLaws {
  import opened Options
  import opened PyText
  import opened ChangelogHeadings
  import opened ChangelogNotes
  import opened SectionCuts
  import ChangelogScan

  // ----- The places of the headings

  /** `### ` and one of the seven names. */
  predicate IsKnown(line: string) {
    match HeadingOf(Strip(line))
    case None => false
    case Some(heading) => heading.level == 3 && heading.title in SECTION_ORDER
  }

  function TitleOf(line: string): string {
    match HeadingOf(Strip(line)) case None => [] case Some(heading) => heading.title
  }

  predicate IsText(line: string) {
    Strip(line) != [] && !IsHead(line)
  }

  predicate IsBullet(line: string) {
    IsText(line) && StartsWith(Strip(line), "- ")
  }

  /** The last heading before line `n`, known or not. */
  function LastHead(visible: seq<string>, n: nat): (h: Option<nat>)
    requires n <= |visible|
    ensures match h
            case None => NoHeads(visible, 0, n)
            case Some(i) => i < n && IsHead(visible[i]) && NoHeads(visible, i + 1, n)
  {
    if n == 0 then None else if IsHead(visible[n - 1]) then Some(n - 1) else LastHead(visible, n - 1)
  }

  /** The next heading from line `from` on, or the end. */
  function NextHead(visible: seq<string>, from: nat): (h: nat)
    requires from <= |visible|
    ensures from <= h <= |visible| && NoHeads(visible, from, h) && (h < |visible| ==> IsHead(visible[h]))
    decreases |visible| - from
  {
    if from == |visible| || IsHead(visible[from]) then from else NextHead(visible, from + 1)
  }

  predicate SomeText(visible: seq<string>, from: nat, to: nat)
    requires from <= to <= |visible|
  {
    exists i :: from <= i < to && Strip(visible[i]) != []
  }

  predicate SomeBullet(visible: seq<string>, from: nat, to: nat)
    requires from <= to <= |visible|
  {
    exists i :: from <= i < to && StartsWith(Strip(visible[i]), "- ")
  }

  // ----- What is gathered

  /** The section of a heading: its title, and the trimmed lines down to the next heading. */
  function SectionAt(visible: seq<string>, clean: seq<string>, h: nat): Section
    requires h < |visible| == |clean|
  {
    Section(TitleOf(visible[h]), Trim(clean[h + 1..NextHead(visible, h + 1)]))
  }

  /** The sections of the known headings before line `n`. */
  function SectionsTo(visible: seq<string>, clean: seq<string>, n: nat): seq<Section>
    requires n <= |visible| == |clean|
  {
    if n == 0 then []
    else SectionsTo(visible, clean, n - 1) + if IsKnown(visible[n - 1]) then [SectionAt(visible, clean, n - 1)] else []
  }

  function TitlesTo(visible: seq<string>, n: nat): seq<string>
    requires n <= |visible|
  {
    if n == 0 then [] else TitlesTo(visible, n - 1) + if IsKnown(visible[n - 1]) then [TitleOf(visible[n - 1])] else []
  }

  // ----- What is complained about

  /** A heading above whose section ends at line `n` without a bullet. */
  function BulletMissing(visible: seq<string>, first: nat, n: nat): seq<Problem>
    requires n <= |visible|
  {
    match LastHead(visible, n)
    case None => []
    case Some(h) => if IsKnown(visible[h]) && !SomeBullet(visible, h + 1, n) then [NoBullet(first + h)] else []
  }

  /** An earlier heading of a section has the same title. */
  predicate IsRepeated(visible: seq<string>, n: nat)
    requires n < |visible|
  {
    exists k :: 0 <= k < n && IsKnown(visible[k]) && TitleOf(visible[k]) == TitleOf(visible[n])
  }

  /** The complaints about one line: a heading closes the section above it and must be one of the seven, once; text
      must stand under a heading, and start a section with a bullet. */
  function Complaints(visible: seq<string>, first: nat, n: nat): seq<Problem>
    requires n < |visible|
  {
    if IsHead(visible[n]) then
      BulletMissing(visible, first, n)
      + (if !IsKnown(visible[n]) then [UnknownSection(first + n)]
         else if IsRepeated(visible, n) then [DuplicateSection(first + n)] else [])
    else if Strip(visible[n]) == [] then []
    else
      match LastHead(visible, n)
      case None => [ContentBeforeSection(first + n)]
      case Some(h) =>
        if IsKnown(visible[h]) && !SomeText(visible, h + 1, n) && !StartsWith(Strip(visible[n]), "- ")
        then [MustStartWithBullet(first + n)] else []
  }

  function ComplaintsTo(visible: seq<string>, first: nat, n: nat): seq<Problem>
    requires n <= |visible|
  {
    if n == 0 then [] else ComplaintsTo(visible, first, n - 1) + Complaints(visible, first, n - 1)
  }

  // ----- The loop's state

  /** The state of the section loop before line `n`. */
  ghost predicate IsState(st: State, visible: seq<string>, clean: seq<string>, first: nat, n: nat)
    requires n <= |visible| == |clean|
  {
    && st.seen == TitlesTo(visible, n) && st.problems == ComplaintsTo(visible, first, n)
    && match LastHead(visible, n)
       case None => !st.unknown && IsOutside(st, visible, clean, n)
       case Some(h) =>
         st.unknown == !IsKnown(visible[h])
         && if IsKnown(visible[h]) then IsInside(st, visible, clean, first, h, n) else IsOutside(st, visible, clean, n)
  }

  ghost predicate IsOutside(st: State, visible: seq<string>, clean: seq<string>, n: nat)
    requires n <= |visible| == |clean|
  {
    st.name == None && st.body == [] && !st.started && !st.hasBullet && st.sections == SectionsTo(visible, clean, n)
  }

  ghost predicate IsInside(st: State, visible: seq<string>, clean: seq<string>, first: nat, h: nat, n: nat)
    requires h < n <= |visible| == |clean|
  {
    && st.name == Some(TitleOf(visible[h])) && st.nameLine == first + h && st.body == clean[h + 1..n]
    && st.started == SomeText(visible, h + 1, n) && st.hasBullet == SomeBullet(visible, h + 1, n)
    && st.sections == SectionsTo(visible, clean, h)
  }

  lemma {:induction false} TitlesAre(visible: seq<string>, n: nat, title: string)
    requires n <= |visible|
    ensures title in TitlesTo(visible, n) <==> exists k :: 0 <= k < n && IsKnown(visible[k]) && TitleOf(visible[k]) == title
  {
    hide IsKnown, TitleOf;
    if n > 0 {
      TitlesAre(visible, n - 1, title);
    }
  }

  /** Between two headings no section is added. */
  lemma {:induction false} NoSectionsBetween(visible: seq<string>, clean: seq<string>, h: nat, n: nat)
    requires h < n <= |visible| == |clean| && NoHeads(visible, h + 1, n)
    ensures SectionsTo(visible, clean, n) == SectionsTo(visible, clean, h + 1)
    decreases n
  {
    hide SectionAt;
    if n > h + 1 {
      assert !IsHead(visible[n - 1]);
      NoSectionsBetween(visible, clean, h, n - 1);
    }
  }

  lemma {:induction false} NextIs(visible: seq<string>, from: nat, n: nat)
    requires from <= n <= |visible| && NoHeads(visible, from, n) && (n < |visible| ==> IsHead(visible[n]))
    ensures NextHead(visible, from) == n
    decreases n - from
  {
    hide IsHead;
    if from < n {
      NextIs(visible, from + 1, n);
    }
  }

  /** Closing the section above line `n`. */
  ghost predicate IsClosed(done: State, st: State, visible: seq<string>, clean: seq<string>, first: nat, n: nat)
    requires n <= |visible| == |clean|
  {
    && IsOutside(done, visible, clean, n) && done.seen == st.seen && done.unknown == st.unknown
    && done.problems == st.problems + BulletMissing(visible, first, n)
  }

  lemma {:induction false} FinishInside(st: State, visible: seq<string>, clean: seq<string>, first: nat, h: nat, n: nat)
    requires h < n <= |visible| == |clean| && IsInside(st, visible, clean, first, h, n) && LastHead(visible, n) == Some(h)
    requires IsKnown(visible[h]) && (n < |visible| ==> IsHead(visible[n]))
    ensures IsClosed(Finish(st), st, visible, clean, first, n)
  {
    hide IsHead, IsKnown, TitleOf, SomeText, SomeBullet, Trim, NextHead, LastHead;
    LastHeadMeans(visible, h, n);
    NoSectionsBetween(visible, clean, h, n);
    NextIs(visible, h + 1, n);
  }

  lemma {:induction false} LastHeadMeans(visible: seq<string>, h: nat, n: nat)
    requires n <= |visible| && LastHead(visible, n) == Some(h)
    ensures h < n && IsHead(visible[h]) && NoHeads(visible, h + 1, n)
  {
  }

  lemma FinishAt(st: State, visible: seq<string>, clean: seq<string>, first: nat, n: nat)
    requires n <= |visible| == |clean| && IsState(st, visible, clean, first, n) && (n < |visible| ==> IsHead(visible[n]))
    ensures IsClosed(Finish(st), st, visible, clean, first, n)
  {
    hide IsHead, IsKnown, IsInside, SomeBullet, SectionsTo, TitlesTo, ComplaintsTo, Trim, LastHead, Finish;
    match LastHead(visible, n)
    case None => FinishOutside(st);
    case Some(h) =>
      if IsKnown(visible[h]) {
        FinishInside(st, visible, clean, first, h, n);
      } else {
        FinishOutside(st);
      }
  }

  lemma FinishOutside(st: State)
    requires st.name == None
    ensures Finish(st) == st && st.problems + [] == st.problems
  {
  }

  lemma HeadStep(st: State, visible: seq<string>, clean: seq<string>, first: nat, n: nat)
    requires n < |visible| == |clean| && IsState(st, visible, clean, first, n) && IsHead(visible[n])
    ensures IsState(Step(st, visible[n], clean[n], first + n), visible, clean, first, n + 1)
  {
    hide *;
    FinishAt(st, visible, clean, first, n);
    HeadOpens(st, visible, clean, first, n);
    StateParts(st, visible, clean, first, n);
    StateAfterHead(st, Step(st, visible[n], clean[n], first + n), visible, clean, first, n);
  }

  lemma {:induction false} StateParts(st: State, visible: seq<string>, clean: seq<string>, first: nat, n: nat)
    requires n <= |visible| == |clean| && IsState(st, visible, clean, first, n)
    ensures st.seen == TitlesTo(visible, n) && st.problems == ComplaintsTo(visible, first, n)
  {
    hide IsHead, IsInside, IsOutside, IsKnown;
  }

  /** What a heading does to the state. */
  lemma {:induction false} HeadOpens(st: State, visible: seq<string>, clean: seq<string>, first: nat, n: nat)
    requires n < |visible| == |clean| && IsHead(visible[n]) && IsClosed(Finish(st), st, visible, clean, first, n)
    ensures
      var next := Step(st, visible[n], clean[n], first + n);
      && next.unknown == !IsKnown(visible[n]) && next.body == [] && !next.started && !next.hasBullet
      && next.sections == SectionsTo(visible, clean, n)
      && next.name == (if IsKnown(visible[n]) then Some(TitleOf(visible[n])) else None)
      && (IsKnown(visible[n]) ==> next.nameLine == first + n)
      && next.seen == st.seen + (if IsKnown(visible[n]) then [TitleOf(visible[n])] else [])
      && next.problems == st.problems + BulletMissing(visible, first, n)
         + (if !IsKnown(visible[n]) then [UnknownSection(first + n)]
            else if TitleOf(visible[n]) in st.seen then [DuplicateSection(first + n)] else [])
  {
    hide Strip, HeadingOf, Finish, BulletMissing, SectionsTo, Step;
    StepOnHeading(st, visible[n], clean[n], first + n);
    assert st.seen + [] == st.seen;
    assert st.problems + BulletMissing(visible, first, n) + [] == st.problems + BulletMissing(visible, first, n);
  }

  lemma {:induction false} StateAfterHead(st: State, next: State, visible: seq<string>, clean: seq<string>, first: nat, n: nat)
    requires n < |visible| == |clean| && IsHead(visible[n])
    requires st.seen == TitlesTo(visible, n) && st.problems == ComplaintsTo(visible, first, n)
    requires next.unknown == !IsKnown(visible[n]) && next.body == [] && !next.started && !next.hasBullet
    requires next.sections == SectionsTo(visible, clean, n)
    requires next.name == if IsKnown(visible[n]) then Some(TitleOf(visible[n])) else None
    requires IsKnown(visible[n]) ==> next.nameLine == first + n
    requires next.seen == st.seen + (if IsKnown(visible[n]) then [TitleOf(visible[n])] else [])
    requires next.problems == st.problems + BulletMissing(visible, first, n)
               + (if !IsKnown(visible[n]) then [UnknownSection(first + n)]
                  else if TitleOf(visible[n]) in st.seen then [DuplicateSection(first + n)] else [])
    ensures IsState(next, visible, clean, first, n + 1)
  {
    hide IsHead, IsKnown, TitleOf, BulletMissing, SectionAt, SomeText, SomeBullet, Complaints, ComplaintsTo;
    TitlesAre(visible, n, TitleOf(visible[n]));
    NothingRead(visible, n);
    assert LastHead(visible, n + 1) == Some(n);
    assert TitlesTo(visible, n + 1) == next.seen;
    HeadComplaintsAre(visible, first, n);
    ComplaintsGrow(visible, first, n, BulletMissing(visible, first, n),
                   if !IsKnown(visible[n]) then [UnknownSection(first + n)]
                   else if IsRepeated(visible, n) then [DuplicateSection(first + n)] else []);
    if IsKnown(visible[n]) {
      assert clean[n + 1..n + 1] == [];
      assert IsInside(next, visible, clean, first, n, n + 1);
    } else {
      assert SectionsTo(visible, clean, n + 1) == SectionsTo(visible, clean, n) + [] == SectionsTo(visible, clean, n);
    }
  }

  lemma HeadComplaintsAre(visible: seq<string>, first: nat, n: nat)
    requires n < |visible| && IsHead(visible[n])
    ensures
      Complaints(visible, first, n)
      == BulletMissing(visible, first, n)
         + (if !IsKnown(visible[n]) then [UnknownSection(first + n)]
            else if IsRepeated(visible, n) then [DuplicateSection(first + n)] else [])
  {
    hide IsHead, IsKnown, BulletMissing, IsRepeated;
  }

  lemma ComplaintsGrow(visible: seq<string>, first: nat, n: nat, a: seq<Problem>, b: seq<Problem>)
    requires n < |visible| && Complaints(visible, first, n) == a + b
    ensures ComplaintsTo(visible, first, n + 1) == ComplaintsTo(visible, first, n) + a + b
  {
    hide Complaints;
  }

  lemma NothingRead(visible: seq<string>, n: nat)
    requires n < |visible|
    ensures !SomeText(visible, n + 1, n + 1) && !SomeBullet(visible, n + 1, n + 1)
  {
  }

  lemma LineStep(st: State, visible: seq<string>, clean: seq<string>, first: nat, n: nat)
    requires n < |visible| == |clean| && IsState(st, visible, clean, first, n) && !IsHead(visible[n])
    ensures IsState(Step(st, visible[n], clean[n], first + n), visible, clean, first, n + 1)
  {
    hide SomeText, SomeBullet, Trim, SectionAt, IsInside, IsOutside, TitleOf, IsHead, Step, SectionsTo, Complaints, IsKnown;
    var last := LastHead(visible, n);
    assert LastHead(visible, n + 1) == last;
    NoTitle(visible, n);
    match last
    case None => LineOutside(st, visible, clean, first, n);
    case Some(h) =>
      if IsKnown(visible[h]) {
        LineInside(st, visible, clean, first, h, n);
        ComplaintInside(visible, first, h, n);
      } else {
        LineOutside(st, visible, clean, first, n);
      }
  }

  lemma NoTitle(visible: seq<string>, n: nat)
    requires n < |visible| && !IsHead(visible[n])
    ensures TitlesTo(visible, n + 1) == TitlesTo(visible, n)
  {
  }

  lemma {:induction false} ComplaintInside(visible: seq<string>, first: nat, h: nat, n: nat)
    requires h < n < |visible| && !IsHead(visible[n]) && LastHead(visible, n) == Some(h) && IsKnown(visible[h])
    ensures
      Complaints(visible, first, n)
      == if Strip(visible[n]) != [] && !SomeText(visible, h + 1, n) && !StartsWith(Strip(visible[n]), "- ")
         then [MustStartWithBullet(first + n)] else []
  {
    hide Strip, IsHead, IsKnown, SomeText, LastHead;
  }

  lemma {:induction false} LineOutside(st: State, visible: seq<string>, clean: seq<string>, first: nat, n: nat)
    requires n < |visible| == |clean| && IsOutside(st, visible, clean, n) && !IsHead(visible[n])
    requires match LastHead(visible, n) case None => !st.unknown case Some(h) => st.unknown && !IsKnown(visible[h])
    ensures
      var next := Step(st, visible[n], clean[n], first + n);
      && IsOutside(next, visible, clean, n + 1) && next.seen == st.seen && next.unknown == st.unknown
      && next.problems == st.problems + Complaints(visible, first, n)
  {
    hide Strip, HeadingOf, LastHead, SectionAt;
    assert SectionsTo(visible, clean, n + 1) == SectionsTo(visible, clean, n);
    assert st.problems + [] == st.problems;
  }

  lemma LineInside(st: State, visible: seq<string>, clean: seq<string>, first: nat, h: nat, n: nat)
    requires h < n < |visible| == |clean| && IsInside(st, visible, clean, first, h, n) && !st.unknown && !IsHead(visible[n])
    ensures
      var next := Step(st, visible[n], clean[n], first + n);
      && IsInside(next, visible, clean, first, h, n + 1) && next.seen == st.seen && !next.unknown
      && next.problems == st.problems
         + if Strip(visible[n]) != [] && !SomeText(visible, h + 1, n) && !StartsWith(Strip(visible[n]), "- ")
           then [MustStartWithBullet(first + n)] else []
  {
    hide TitleOf, SectionsTo, Strip, StartsWith;
    assert clean[h + 1..n + 1] == clean[h + 1..n] + [clean[n]];
    OneMoreText(visible, h + 1, n);
    BlankIsNoBullet(visible[n]);
  }

  lemma OneMoreText(visible: seq<string>, from: nat, n: nat)
    requires from <= n < |visible|
    ensures SomeText(visible, from, n + 1) <==> SomeText(visible, from, n) || Strip(visible[n]) != []
    ensures SomeBullet(visible, from, n + 1) <==> SomeBullet(visible, from, n) || StartsWith(Strip(visible[n]), "- ")
  {
    hide Strip, StartsWith;
  }

  lemma BlankIsNoBullet(line: string)
    ensures Strip(line) == [] ==> !StartsWith(Strip(line), "- ")
  {
  }

  lemma {:induction false} StateAt(visible: seq<string>, clean: seq<string>, first: nat, n: nat)
    requires n <= |visible| == |clean|
    ensures IsState(Steps(START, visible[..n], clean[..n], first), visible, clean, first, n)
  {
    hide IsState, Step, IsHead;
    if n == 0 {
      StartState(visible, clean, first);
    } else {
      StateAt(visible, clean, first, n - 1);
      assert visible[..n][..n - 1] == visible[..n - 1] && clean[..n][..n - 1] == clean[..n - 1];
      var st := Steps(START, visible[..n - 1], clean[..n - 1], first);
      if IsHead(visible[n - 1]) {
        HeadStep(st, visible, clean, first, n - 1);
      } else {
        LineStep(st, visible, clean, first, n - 1);
      }
    }
  }

  lemma StartState(visible: seq<string>, clean: seq<string>, first: nat)
    requires |visible| == |clean|
    ensures IsState(START, visible, clean, first, 0)
  {
  }

  /** What the section loop gives on any content: the sections of the known headings, and every line's complaints in
      order, the last section's missing bullet at the end. */
  lemma {:induction false} SectionsAndComplaints(visible: seq<string>, clean: seq<string>, first: nat)
    requires |visible| == |clean|
    ensures
      var done := Finish(Steps(START, visible, clean, first));
      && done.sections == SectionsTo(visible, clean, |visible|)
      && done.problems == ComplaintsTo(visible, first, |visible|) + BulletMissing(visible, first, |visible|)
  {
    hide IsHead, BulletMissing, SectionsTo, ComplaintsTo, Finish, Steps;
    StateAt(visible, clean, first, |visible|);
    assert visible[..|visible|] == visible && clean[..|clean|] == clean;
    var st := Steps(START, visible, clean, first);
    FinishAt(st, visible, clean, first, |visible|);
    StateProblems(st, visible, clean, first);
  }

  lemma {:induction false} StateProblems(st: State, visible: seq<string>, clean: seq<string>, first: nat)
    requires |visible| == |clean| && IsState(st, visible, clean, first, |visible|)
    ensures st.problems == ComplaintsTo(visible, first, |visible|)
  {
  }

  // ----- Content without a complaint

  /** What a heading and the lines below it must be: one of the seven sections, once, that starts with a bullet. */
  ghost predicate HeadFits(visible: seq<string>, h: nat)
    requires h < |visible|
  {
    && IsKnown(visible[h]) && !IsRepeated(visible, h)
    && SomeBullet(visible, h + 1, NextHead(visible, h + 1))
    && forall i :: h < i < NextHead(visible, h + 1) && Strip(visible[i]) != [] && !SomeText(visible, h + 1, i) ==>
         StartsWith(Strip(visible[i]), "- ")
  }

  /** Every heading fits, and all text stands under one. */
  ghost predicate SectionsFit(visible: seq<string>) {
    && (forall h :: 0 <= h < |visible| && IsHead(visible[h]) ==> HeadFits(visible, h))
    && (forall i :: 0 <= i < |visible| && Strip(visible[i]) != [] ==> IsHead(visible[i]) || LastHead(visible, i).Some?)
  }

  lemma {:induction false} NoComplaints(visible: seq<string>, first: nat, n: nat)
    requires n <= |visible|
    ensures ComplaintsTo(visible, first, n) == [] <==> forall i :: 0 <= i < n ==> Complaints(visible, first, i) == []
  {
    hide Complaints;
    if n > 0 {
      NoComplaints(visible, first, n - 1);
    }
  }

  lemma {:induction false} LastHeadIs(visible: seq<string>, h: nat, n: nat)
    requires h < n <= |visible| && IsHead(visible[h]) && NoHeads(visible, h + 1, n)
    ensures LastHead(visible, n) == Some(h)
  {
    hide IsHead;
    if n > h + 1 {
      LastHeadIs(visible, h, n - 1);
    }
  }

  /** One heading: the complaints about it, about the text below it, and about a missing bullet at its end. */
  ghost predicate QuietAt(visible: seq<string>, first: nat, h: nat)
    requires h < |visible|
  {
    && IsKnown(visible[h]) && !IsRepeated(visible, h)
    && BulletMissing(visible, first, NextHead(visible, h + 1)) == []
    && forall i :: h < i < NextHead(visible, h + 1) ==> Complaints(visible, first, i) == []
  }

  lemma HeadIsQuiet(visible: seq<string>, first: nat, h: nat)
    requires h < |visible| && IsHead(visible[h])
    ensures QuietAt(visible, first, h) <==> HeadFits(visible, h)
  {
    hide Strip, IsHead, IsKnown, IsRepeated, LastHead, NextHead, SomeText, SomeBullet, Complaints;
    var n := NextHead(visible, h + 1);
    NextHeadMeans(visible, h + 1);
    LastHeadIs(visible, h, n);
    if IsKnown(visible[h]) {
      forall i | h < i < n
        ensures Complaints(visible, first, i)
                == if Strip(visible[i]) != [] && !SomeText(visible, h + 1, i) && !StartsWith(Strip(visible[i]), "- ")
                   then [MustStartWithBullet(first + i)] else []
      {
        NoHeadAt(visible, h + 1, n, i);
        LastHeadIs(visible, h, i);
        ComplaintInside(visible, first, h, i);
      }
    }
  }

  lemma {:induction false} NextHeadMeans(visible: seq<string>, from: nat)
    requires from <= |visible|
    ensures
      var n := NextHead(visible, from);
      from <= n <= |visible| && NoHeads(visible, from, n) && (n < |visible| ==> IsHead(visible[n]))
  {
  }

  lemma NoHeadAt(visible: seq<string>, from: nat, n: nat, i: nat)
    requires from <= i < n <= |visible| && NoHeads(visible, from, n)
    ensures !IsHead(visible[i]) && NoHeads(visible, from, i)
  {
    hide IsHead;
  }

  /** No line and no end is complained about. */
  ghost predicate AllQuiet(visible: seq<string>, first: nat) {
    && (forall i :: 0 <= i < |visible| ==> Complaints(visible, first, i) == [])
    && BulletMissing(visible, first, |visible|) == []
  }

  lemma HeadComplaints(visible: seq<string>, first: nat, n: nat)
    requires n < |visible| && IsHead(visible[n])
    ensures Complaints(visible, first, n) == [] <==> BulletMissing(visible, first, n) == [] && IsKnown(visible[n]) && !IsRepeated(visible, n)
  {
    hide IsHead, IsKnown, IsRepeated, BulletMissing;
  }

  lemma QuietMeansFits(visible: seq<string>, first: nat)
    requires AllQuiet(visible, first)
    ensures SectionsFit(visible)
  {
    hide Strip, IsHead, IsKnown, IsRepeated, LastHead, NextHead, SomeText, SomeBullet, Complaints, BulletMissing, HeadFits;
    forall h | 0 <= h < |visible| && IsHead(visible[h]) ensures HeadFits(visible, h) {
      HeadComplaints(visible, first, h);
      NextHeadMeans(visible, h + 1);
      var n := NextHead(visible, h + 1);
      if n < |visible| {
        HeadComplaints(visible, first, n);
      }
      HeadIsQuiet(visible, first, h);
    }
    forall i | 0 <= i < |visible| && Strip(visible[i]) != [] ensures IsHead(visible[i]) || LastHead(visible, i).Some? {
      if !IsHead(visible[i]) && LastHead(visible, i) == None {
        TextNeedsHead(visible, first, i);
      }
    }
  }

  lemma {:induction false} TextNeedsHead(visible: seq<string>, first: nat, i: nat)
    requires i < |visible| && !IsHead(visible[i]) && LastHead(visible, i) == None
    ensures Complaints(visible, first, i) == [] <==> Strip(visible[i]) == []
  {
    hide IsHead, Strip;
  }

  lemma FitsMeansQuiet(visible: seq<string>, first: nat)
    requires SectionsFit(visible)
    ensures AllQuiet(visible, first)
  {
    hide Strip, IsHead, IsKnown, IsRepeated, LastHead, NextHead, SomeText, SomeBullet, Complaints, BulletMissing, HeadFits;
    forall i | 0 <= i < |visible| ensures Complaints(visible, first, i) == [] {
      BulletsThere(visible, first, i);
      if IsHead(visible[i]) {
        HeadIsQuiet(visible, first, i);
        HeadComplaints(visible, first, i);
      } else if LastHead(visible, i) == None {
        TextNeedsHead(visible, first, i);
      } else {
        var h := LastHead(visible, i).value;
        LastHeadMeans(visible, h, i);
        HeadIsQuiet(visible, first, h);
        NextIsLater(visible, h, i);
      }
    }
    BulletsThere(visible, first, |visible|);
  }

  lemma NextIsLater(visible: seq<string>, h: nat, i: nat)
    requires h < i < |visible| && NoHeads(visible, h + 1, i) && !IsHead(visible[i])
    ensures i < NextHead(visible, h + 1)
  {
    hide IsHead;
    NextHeadMeans(visible, h + 1);
  }

  lemma BulletsThere(visible: seq<string>, first: nat, n: nat)
    requires SectionsFit(visible) && n <= |visible|
    ensures n == |visible| || IsHead(visible[n]) ==> BulletMissing(visible, first, n) == []
  {
    hide Strip, IsHead, IsKnown, IsRepeated, LastHead, NextHead, SomeText, SomeBullet, Complaints, HeadFits;
    if n == |visible| || IsHead(visible[n]) {
      match LastHead(visible, n)
      case None =>
      case Some(h) =>
        LastHeadMeans(visible, h, n);
        NextIs(visible, h + 1, n);
        HeadIsQuiet(visible, first, h);
    }
  }

  /** The section loop complains about nothing exactly when every heading fits and all text stands under one. */
  lemma {:induction false} SectionsFitIff(visible: seq<string>, clean: seq<string>, first: nat)
    requires |visible| == |clean|
    ensures Finish(Steps(START, visible, clean, first)).problems == [] <==> SectionsFit(visible)
  {
    hide Complaints, BulletMissing, SectionsFit, Steps, Finish;
    SectionsAndComplaints(visible, clean, first);
    NoComplaints(visible, first, |visible|);
    if SectionsFit(visible) {
      FitsMeansQuiet(visible, first);
    } else if AllQuiet(visible, first) {
      QuietMeansFits(visible, first);
    }
  }

  // ----- The whole parser

  /** The lines of the one `## Changelog` heading's block: down to the next heading of level one or two. */
  ghost predicate IsBlock(visible: seq<string>, start: nat, end: nat) {
    && start < end <= |visible|
    && (forall i :: 0 <= i < |visible| ==> (IsChangelogHeading(visible[i]) <==> i == start))
    && (forall i :: start < i < end ==> !IsTopHeading(visible[i]))
    && (end < |visible| ==> IsTopHeading(visible[end]))
  }

  /** No section heading has fallen out of the block. */
  ghost predicate NothingStray(visible: seq<string>, start: nat, end: nat) {
    forall i :: 0 <= i < |visible| && IsHead(visible[i]) && TitleOf(visible[i]) in SECTION_ORDER ==> start < i < end
  }

  /** The first line with text. */
  ghost predicate IsFirstText(visible: seq<string>, at: nat) {
    at < |visible| && Strip(visible[at]) != [] && forall i :: 0 <= i < at ==> Strip(visible[i]) == []
  }

  /** Content of a single `None.` line with a reason, or of sections without a leftover placeholder. */
  ghost predicate ContentFits(visible: seq<string>, clean: seq<string>)
    requires |visible| == |clean|
  {
    exists at: nat :: IsFirstText(visible, at)
      && if StartsWith(Strip(visible[at]), "None.") then
           && IsNoneLine(Strip(clean[at])) && !PlaceholderOnly(Strip(Strip(clean[at])[5..]))
           && forall i :: 0 <= i < |visible| && i != at ==> Strip(visible[i]) == []
         else
           && SectionsFit(visible)
           && forall i :: 0 <= i < |visible| && Strip(visible[i]) != [] ==> !LeftoverPlaceholder(Strip(visible[i]))
  }

  lemma {:induction false} FirstTextIs(visible: seq<string>, from: nat)
    requires from <= |visible|
    ensures
      match TextFrom(visible, from)
      case None => forall i :: from <= i < |visible| ==> Strip(visible[i]) == []
      case Some(at) => at < |visible| && Strip(visible[at]) != [] && forall i :: from <= i < at ==> Strip(visible[i]) == []
    decreases |visible| - from
  {
    hide Strip;
    if from < |visible| && Strip(visible[from]) == [] {
      FirstTextIs(visible, from + 1);
    }
  }

  /** Which lines are reported as placeholders. */
  lemma {:induction false} PlaceholdersAre(visible: seq<string>, skip: Option<nat>, first: nat, p: Problem)
    ensures
      p in Placeholders(visible, skip, first) <==>
        exists i :: 0 <= i < |visible| && skip != Some(i) && IsHole(visible[i]) && p == Placeholder(first + i)
  {
    hide IsHole;
    if visible != [] {
      var n := |visible| - 1;
      PlaceholdersAre(visible[..n], skip, first, p);
      if i :| 0 <= i < |visible| && skip != Some(i) && IsHole(visible[i]) && p == Placeholder(first + i) {
        assert i < n ==> visible[..n][i] == visible[i];
      }
    }
  }

  /** Which lines stand beside a `None.` line. */
  lemma {:induction false} NotAloneAre(visible: seq<string>, at: nat, first: nat, k: nat)
    ensures
      NoneNotAlone(first + k) in NotAlone(visible, at, first) <==> at < k < |visible| && Strip(visible[k]) != []
  {
    hide Strip;
    if visible != [] {
      NotAloneAre(visible[..|visible| - 1], at, first, k);
    }
  }

  lemma {:induction false} NonePlaceholders(visible: seq<string>, skip: Option<nat>, first: nat)
    ensures Placeholders(visible, skip, first) == [] <==> forall i :: 0 <= i < |visible| && skip != Some(i) ==> !IsHole(visible[i])
  {
    hide IsHole, Placeholders;
    if Placeholders(visible, skip, first) != [] {
      PlaceholdersAre(visible, skip, first, Placeholders(visible, skip, first)[0]);
    }
    forall i | 0 <= i < |visible| && skip != Some(i) && IsHole(visible[i]) ensures Placeholders(visible, skip, first) != [] {
      PlaceholdersAre(visible, skip, first, Placeholder(first + i));
    }
  }

  lemma {:induction false} AloneIff(visible: seq<string>, at: nat, first: nat)
    ensures NotAlone(visible, at, first) == [] <==> BlankBehind(visible, at)
  {
    hide Strip, BlankBehind;
    if visible == [] {
      NothingBehind(at);
    } else {
      AloneIff(visible[..|visible| - 1], at, first);
      BlankBack(visible, at);
    }
  }

  /** Only blank lines follow. */
  ghost predicate BlankBehind(visible: seq<string>, at: nat) {
    forall i :: at < i < |visible| ==> Strip(visible[i]) == []
  }

  lemma NothingBehind(at: nat)
    ensures BlankBehind([], at)
  {
  }

  lemma BlankBack(visible: seq<string>, at: nat)
    requires visible != []
    ensures
      var n := |visible| - 1;
      BlankBehind(visible, at) <==> BlankBehind(visible[..n], at) && (n > at ==> Strip(visible[n]) == [])
  {
    hide Strip;
    var n := |visible| - 1;
    assert forall i :: 0 <= i < n ==> visible[..n][i] == visible[i];
  }

  lemma NoneIsFine(noneLine: string, line: nat)
    ensures NoneProblems(noneLine, line) == [] <==> IsNoneLine(noneLine) && !PlaceholderOnly(Strip(noneLine[5..]))
  {
    hide PlaceholderOnly, Strip, IsBlank;
  }

  lemma OneFirstText(visible: seq<string>, at: nat, other: nat)
    requires IsFirstText(visible, at) && IsFirstText(visible, other)
    ensures at == other
  {
    hide Strip;
  }

  /** The content is accepted exactly when it fits. */
  lemma ContentFitsIff(visible: seq<string>, clean: seq<string>, heading: nat)
    requires |visible| == |clean|
    ensures ParseContent(visible, clean, heading).1 == [] <==> ContentFits(visible, clean)
  {
    hide Strip, IsHole, Placeholders, NotAlone, Steps, Finish, SectionsFit, PlaceholderOnly, IsNoneLine, NoneProblems, LeftoverPlaceholder;
    FirstTextIs(visible, 0);
    var first := heading + 1;
    match TextFrom(visible, 0)
    case None =>
    case Some(at) =>
      assert IsFirstText(visible, at);
      forall other: nat | IsFirstText(visible, other) ensures other == at {
        OneFirstText(visible, at, other);
      }
      if StartsWith(Strip(visible[at]), "None.") {
        NonePlaceholders(visible, Some(at), first);
        NoneIsFine(Strip(clean[at]), first + at);
        AloneIff(visible, at, first);
        HolesHaveText(visible);
      } else {
        NonePlaceholders(visible, None, first);
        SectionsFitIff(visible, clean, first);
        HolesHaveText(visible);
      }
  }

  lemma HolesHaveText(visible: seq<string>)
    ensures forall i :: 0 <= i < |visible| ==> (IsHole(visible[i]) <==> Strip(visible[i]) != [] && LeftoverPlaceholder(Strip(visible[i])))
  {
  }

  lemma {:induction false} FoundAre(visible: seq<string>, from: nat, i: nat)
    requires from <= i < |visible|
    ensures i in ChangelogHeadingsFrom(visible, from) <==> IsChangelogHeading(visible[i])
    decreases |visible| - from
  {
    hide IsChangelogHeading;
    if from < i {
      FoundAre(visible, from + 1, i);
    }
  }

  ghost predicate Ascends(found: seq<nat>) {
    forall j, k :: 0 <= j < k < |found| ==> found[j] < found[k]
  }

  lemma AscendsBefore(at: nat, found: seq<nat>)
    requires Ascends(found) && forall k :: 0 <= k < |found| ==> at < found[k]
    ensures Ascends([at] + found)
  {
  }

  lemma {:induction false} FoundAscend(visible: seq<string>, from: nat)
    requires from <= |visible|
    ensures Ascends(ChangelogHeadingsFrom(visible, from))
    decreases |visible| - from
  {
    hide IsChangelogHeading, Ascends;
    if from == |visible| {
      assert Ascends([]) by { NoneAscend(); }
    } else {
      FoundAscend(visible, from + 1);
      var rest := ChangelogHeadingsFrom(visible, from + 1);
      if IsChangelogHeading(visible[from]) {
        AscendsBefore(from, rest);
      } else {
        assert [] + rest == rest;
      }
    }
  }

  lemma NoneAscend()
    ensures Ascends([])
  {
  }

  /** The first section heading outside the block is complained about. */
  lemma {:induction false} StraysAre(visible: seq<string>, start: nat, end: nat, from: nat, at: nat)
    requires from <= at < |visible| && IsStray(visible[at]) && !(start < at < end)
    requires forall i :: from <= i < at && IsStray(visible[i]) ==> start < i < end
    ensures Strays(visible, start, end, from) == [OutsideChangelog(at + 1)]
    decreases |visible| - from
  {
    hide IsStray;
    if from < at {
      StraysAre(visible, start, end, from + 1, at);
    }
  }

  lemma {:induction false} StraysNone(visible: seq<string>, start: nat, end: nat, from: nat)
    requires from <= |visible|
    ensures Strays(visible, start, end, from) == [] <==> forall i :: from <= i < |visible| && IsStray(visible[i]) ==> start < i < end
    decreases |visible| - from
  {
    hide IsStray;
    if from < |visible| {
      StraysNone(visible, start, end, from + 1);
    }
  }

  lemma StrayIs(line: string)
    ensures IsStray(line) <==> IsHead(line) && TitleOf(line) in SECTION_ORDER
  {
    hide HeadingOf, Strip;
  }

  lemma {:induction false} NoStrays(visible: seq<string>, start: nat, end: nat)
    ensures Strays(visible, start, end, 0) == [] <==> NothingStray(visible, start, end)
  {
    hide IsStray, IsHead, TitleOf, Strays;
    StraysNone(visible, start, end, 0);
    forall i | 0 <= i < |visible| ensures IsStray(visible[i]) <==> IsHead(visible[i]) && TitleOf(visible[i]) in SECTION_ORDER {
      StrayIs(visible[i]);
    }
  }

  /** Where a second `## Changelog` heading is complained about: at each but the first. */
  lemma {:induction false} SecondsAre(visible: seq<string>, k: nat)
    requires k < |visible| && ChangelogHeadingsFrom(visible, 0) != []
    ensures
      SecondChangelog(k + 1) in SecondHeadings(ChangelogHeadingsFrom(visible, 0)[1..]) <==>
        IsChangelogHeading(visible[k]) && exists j :: 0 <= j < k && IsChangelogHeading(visible[j])
  {
    hide IsChangelogHeading, ChangelogHeadingsFrom, SecondHeadings;
    var found := ChangelogHeadingsFrom(visible, 0);
    FoundAre(visible, 0, k);
    FoundAscend(visible, 0);
    SecondsOf(found[1..], k);
    assert found == [found[0]] + found[1..];
    forall j | 0 <= j < k && IsChangelogHeading(visible[j]) && IsChangelogHeading(visible[k]) ensures k in found[1..] {
      FoundAre(visible, 0, j);
    }
    FirstIsHeading(visible);
  }

  lemma {:induction false} FirstIsHeading(visible: seq<string>)
    requires ChangelogHeadingsFrom(visible, 0) != []
    ensures
      var found := ChangelogHeadingsFrom(visible, 0);
      found[0] < |visible| && IsChangelogHeading(visible[found[0]])
  {
    hide IsChangelogHeading;
  }

  lemma SecondsOf(found: seq<nat>, k: nat)
    ensures SecondChangelog(k + 1) in SecondHeadings(found) <==> k in found
  {
    if i :| 0 <= i < |found| && found[i] == k {
      assert SecondHeadings(found)[i] == SecondChangelog(k + 1);
    }
  }

  /** The two views are accepted exactly when they hold one block with nothing outside it, whose content fits. */
  ghost predicate ViewsFit(visible: seq<string>, clean: seq<string>)
    requires |visible| == |clean|
  {
    exists start: nat, end: nat ::
      IsBlock(visible, start, end) && NothingStray(visible, start, end) && ContentFits(visible[start + 1..end], clean[start + 1..end])
  }

  lemma {:induction false} BlockIsIt(visible: seq<string>, start: nat, end: nat)
    requires IsBlock(visible, start, end)
    ensures ChangelogHeadingsFrom(visible, 0) == [start] && BlockEnd(visible, start) == end
  {
    hide IsChangelogHeading, IsTopHeading;
    FoundAre(visible, 0, start);
    var found := ChangelogHeadingsFrom(visible, 0);
    FoundAscend(visible, 0);
    FoundAreHeadings(visible, start);
  }

  lemma ViewsFitIff(visible: seq<string>, clean: seq<string>)
    requires |visible| == |clean|
    ensures ParseViews(visible, clean).1 == [] <==> ViewsFit(visible, clean)
  {
    hide ParseContent, ContentFits, IsChangelogHeading, IsTopHeading, IsStray, Strays, ChangelogHeadingsFrom, IsHead, TitleOf;
    if start: nat, end: nat :| IsBlock(visible, start, end) && NothingStray(visible, start, end)
                               && ContentFits(visible[start + 1..end], clean[start + 1..end]) {
      BlockIsIt(visible, start, end);
      NoStrays(visible, start, end);
      ContentFitsIff(visible[start + 1..end], clean[start + 1..end], start + 1);
    }
    var found := ChangelogHeadingsFrom(visible, 0);
    if ParseViews(visible, clean).1 == [] && found != [] {
      var start, end := found[0], BlockEnd(visible, found[0]);
      NoStrays(visible, start, end);
      ContentFitsIff(visible[start + 1..end], clean[start + 1..end], start + 1);
      assert |SecondHeadings(found[1..])| == |found[1..]| == 0;
      OneFound(visible, start);
      assert IsBlock(visible, start, end);
    }
  }

  lemma {:induction false} FoundAreHeadings(visible: seq<string>, start: nat)
    requires start in ChangelogHeadingsFrom(visible, 0)
    requires forall i :: 0 <= i < |visible| ==> (IsChangelogHeading(visible[i]) <==> i == start)
    ensures ChangelogHeadingsFrom(visible, 0) == [start]
  {
    hide *;
    FoundAscend(visible, 0);
    OneAscends(ChangelogHeadingsFrom(visible, 0), start);
  }

  lemma OneAscends(found: seq<nat>, start: nat)
    requires Ascends(found) && start in found && forall k :: 0 <= k < |found| ==> found[k] == start
    ensures found == [start]
  {
    assert found[0] == found[|found| - 1] == start;
  }

  lemma {:induction false} OneFound(visible: seq<string>, start: nat)
    requires ChangelogHeadingsFrom(visible, 0) == [start] && start < |visible|
    ensures forall i :: 0 <= i < |visible| ==> (IsChangelogHeading(visible[i]) <==> i == start)
  {
    hide IsChangelogHeading;
    forall i | 0 <= i < |visible| ensures IsChangelogHeading(visible[i]) <==> i == start {
      FoundAre(visible, 0, i);
    }
  }

  /** A file is accepted exactly when no block is left open and its views fit; then the notes are its `None.` line, or
      its sections in the order of their headings. */
  lemma AcceptsIff(lines: seq<string>)
    ensures
      var visible, clean := ChangelogScan.Visible(ChangelogScan.Prose, lines), ChangelogScan.Clean(ChangelogScan.Prose, lines);
      Parse(lines).1 == [] <==> ChangelogScan.IssueOf(lines) == None && ViewsFit(visible, clean)
  {
    hide ViewsFit, ParseViews, ChangelogScan.Visible, ChangelogScan.Clean;
    ViewsFitIff(ChangelogScan.Visible(ChangelogScan.Prose, lines), ChangelogScan.Clean(ChangelogScan.Prose, lines));
  }

  /** What the parser takes from one block, complaints or not. */
  lemma NotesAre(visible: seq<string>, clean: seq<string>, start: nat, end: nat, at: nat)
    requires |visible| == |clean| && IsBlock(visible, start, end) && IsFirstText(visible[start + 1..end], at)
    ensures
      var v, c := visible[start + 1..end], clean[start + 1..end];
      ParseViews(visible, clean).0
      == if StartsWith(Strip(v[at]), "None.") then Notes([], Some(Strip(c[at]))) else Notes(SectionsTo(v, c, |v|), None)
  {
    var v, c := visible[start + 1..end], clean[start + 1..end];
    hide Strip, IsHole, Placeholders, NotAlone, Steps, Finish, NoneProblems, Strays, SectionsTo, ChangelogHeadingsFrom, IsBlock;
    BlockIsIt(visible, start, end);
    FirstTextIs(v, 0);
    OneFirstText(v, at, TextFrom(v, 0).value);
    SectionsAndComplaints(v, c, start + 2);
  }
}
