/** What the section loop has gathered when it has nothing to complain about: every section
    is a stretch of content between two headings. */
module SectionCuts {
  import opened Options
  import opened PyText
  import opened ChangelogHeadings
  import opened ChangelogNotes
  import opened AcceptedNotes
  import opened SectionLoop

  predicate IsHead(visible: string) {
    HeadingOf(Strip(visible)).Some?
  }

  predicate NoHeads(visible: seq<string>, h: nat, i: nat)
    requires h <= i <= |visible|
  {
    forall j :: h <= j < i ==> !IsHead(visible[j])
  }

  /** The first line with text from `h` on, before `i`, is a bullet. */
  ghost predicate BulletFrom(visible: seq<string>, h: nat, i: nat)
    requires h <= i <= |visible|
  {
    exists at :: h <= at < i && StartsWith(Strip(visible[at]), "- ") && BlankBetween(visible, h, at)
  }

  predicate BlankBetween(visible: seq<string>, h: nat, i: nat)
    requires h <= i <= |visible|
  {
    forall j :: h <= j < i ==> Strip(visible[j]) == []
  }

  /** The lines from `h` up to `i` stand between two headings, or a heading and the end. */
  ghost predicate IsCut(visible: seq<string>, h: nat, i: nat) {
    && 1 <= h <= i <= |visible| && IsHead(visible[h - 1]) && NoHeads(visible, h, i)
    && (i == |visible| || IsHead(visible[i])) && BulletFrom(visible, h, i)
  }

  ghost predicate FromCut(section: Section, visible: seq<string>, clean: seq<string>) {
    exists h: nat, i: nat :: IsCut(visible, h, i) && i <= |clean| && section.lines == Trim(clean[h..i])
  }

  function OpenName(st: State): seq<string> {
    if st.name == None then [] else [st.name.value]
  }

  /** The current section has gathered the lines from `h` up to `n`. */
  ghost predicate IsOpen(st: State, visible: seq<string>, clean: seq<string>, n: nat, h: nat) {
    && 1 <= h <= n <= |visible| == |clean| && st.body == clean[h..n]
    && IsHead(visible[h - 1]) && NoHeads(visible, h, n)
    && st.started == st.hasBullet
    && (if st.started then BulletFrom(visible, h, n) else BlankBetween(visible, h, n))
  }

  ghost predicate NamesRead(st: State) {
    && st.seen == SectionNames(st.sections) + OpenName(st)
    && Distinct(st.seen) && forall i :: 0 <= i < |st.seen| ==> st.seen[i] in SECTION_ORDER
  }

  ghost predicate SectionsRead(st: State, visible: seq<string>, clean: seq<string>) {
    forall k :: 0 <= k < |st.sections| ==> FromCut(st.sections[k], visible, clean)
  }

  /** The loop's state before line `n`, when there was nothing to complain about. */
  ghost predicate Reading(st: State, visible: seq<string>, clean: seq<string>, n: nat, h: nat) {
    && n <= |visible| == |clean| && st.problems == [] && !st.unknown
    && NamesRead(st) && SectionsRead(st, visible, clean)
    && (if st.name == None then
          st.sections == [] && st.body == [] && !st.started && !st.hasBullet && BlankBetween(visible, 0, n)
        else IsOpen(st, visible, clean, n, h))
  }

  lemma StepKeepsProblems(st: State, visible: string, clean: string, line: nat)
    ensures st.problems <= Step(st, visible, clean, line).problems
  {}

  lemma {:induction false} NoProblemsSoFar(tr: seq<State>, visible: seq<string>, clean: seq<string>, first: nat, n: nat)
    requires IsTrace(tr, visible, clean, first) && n <= |visible| && tr[|visible|].problems == []
    ensures tr[n].problems == []
    decreases |visible| - n
  {
    if n < |visible| {
      NoProblemsSoFar(tr, visible, clean, first, n + 1);
      assert Follows(tr, visible, clean, first, n);
      StepKeepsProblems(tr[n], visible[n], clean[n], first + n);
    }
  }

  /** Closing the current section adds a stretch up to `n`. */
  lemma FinishReading(st: State, visible: seq<string>, clean: seq<string>, n: nat, h: nat)
    requires Reading(st, visible, clean, n, h) && Finish(st).problems == []
    requires n == |visible| || IsHead(visible[n])
    ensures
      var done := Finish(st);
      && done.name == None && !done.unknown && done.seen == st.seen
      && NamesRead(done) && SectionsRead(done, visible, clean)
      && (st.name == None ==> done.sections == st.sections)
      && (st.name != None ==> done.sections != [])
  {
    if st.name != None {
      var section := Section(st.name.value, Trim(st.body));
      assert IsCut(visible, h, n);
      assert FromCut(section, visible, clean);
      NamesOfFront(st.sections + [section]);
      assert (st.sections + [section])[..|st.sections|] == st.sections;
    }
  }

  lemma StepOnHeading(st: State, visible: string, clean: string, line: nat)
    requires IsHead(visible)
    ensures Step(st, visible, clean, line) == OnHeading(st, HeadingOf(Strip(visible)).value, line)
  {
    hide Strip, OnHeading, OnText, Finish;
    assert Strip(visible) != [];
  }

  /** The section a heading opens has gathered nothing yet. */
  lemma Opens(next: State, visible: seq<string>, clean: seq<string>, n: nat)
    requires n < |visible| == |clean| && IsHead(visible[n])
    requires next.name.Some? && next.body == [] && !next.started && !next.hasBullet
    ensures IsOpen(next, visible, clean, n + 1, n + 1)
  {
    hide IsHead, BulletFrom;
  }

  lemma HeadingStep(st: State, visible: seq<string>, clean: seq<string>, n: nat, h: nat, line: nat)
    requires Reading(st, visible, clean, n, h) && n < |visible| && IsHead(visible[n])
    requires Step(st, visible[n], clean[n], line).problems == []
    ensures Reading(Step(st, visible[n], clean[n], line), visible, clean, n + 1, n + 1)
  {
    hide Strip, HeadingOf, Step, Finish, FromCut, Distinct, BulletFrom, BlankBetween, IsOpen;
    var done, heading := Finish(st), HeadingOf(Strip(visible[n])).value;
    StepOnHeading(st, visible[n], clean[n], line);
    FinishClears(st);
    FinishReading(st, visible, clean, n, h);
    var next := Step(st, visible[n], clean[n], line);
    assert next.seen == done.seen + [heading.title] && next.sections == done.sections;
    Opens(next, visible, clean, n);
    DistinctAppend(done.seen, heading.title);
  }

  lemma FinishClears(st: State)
    requires st.name == None ==> st.body == [] && !st.started && !st.hasBullet
    ensures Finish(st).body == [] && !Finish(st).started && !Finish(st).hasBullet && Finish(st).name == None
  {
  }

  lemma DistinctAppend(names: seq<string>, name: string)
    requires Distinct(names) && name !in names
    ensures Distinct(names + [name])
  {}

  /** The loop gathers one more line into the current section. */
  lemma GatherStep(st: State, next: State, visible: seq<string>, clean: seq<string>, n: nat, h: nat)
    requires IsOpen(st, visible, clean, n, h) && n < |visible| && !IsHead(visible[n])
    requires next.body == st.body + [clean[n]] && next.started == next.hasBullet
    requires if Strip(visible[n]) == [] || st.started then next.started == st.started
             else next.started && StartsWith(Strip(visible[n]), "- ")
    ensures IsOpen(next, visible, clean, n + 1, h)
  {
    assert clean[h..n + 1] == clean[h..n] + [clean[n]];
    if st.started {
      var at :| h <= at < n && StartsWith(Strip(visible[at]), "- ") && BlankBetween(visible, h, at);
      assert BulletFrom(visible, h, n + 1);
    } else if Strip(visible[n]) != [] {
      assert BlankBetween(visible, h, n);
      assert BulletFrom(visible, h, n + 1);
    }
  }

  /** What a line that is no heading does to the state. */
  lemma TextStepFields(st: State, text: string, clean: string, line: nat)
    requires !IsHead(text) && !st.unknown && st.problems == [] && Step(st, text, clean, line).problems == []
    ensures
      var next := Step(st, text, clean, line);
      && next.sections == st.sections && next.seen == st.seen && next.name == st.name && !next.unknown
      && (st.name == None ==> Strip(text) == [] && next == st)
      && (st.name != None ==> next.body == st.body + [clean])
      && (st.name != None && Strip(text) == [] ==> next.started == st.started && next.hasBullet == st.hasBullet)
      && (st.name != None && Strip(text) != [] ==>
            next.started && (st.started || StartsWith(Strip(text), "- "))
            && next.hasBullet == (st.hasBullet || StartsWith(Strip(text), "- ")))
  {}

  lemma TextStep(st: State, visible: seq<string>, clean: seq<string>, n: nat, h: nat, line: nat)
    requires Reading(st, visible, clean, n, h) && n < |visible| && !IsHead(visible[n])
    requires Step(st, visible[n], clean[n], line).problems == []
    ensures Reading(Step(st, visible[n], clean[n], line), visible, clean, n + 1, h)
  {
    var next := Step(st, visible[n], clean[n], line);
    TextStepFields(st, visible[n], clean[n], line);
    if st.name != None {
      GatherStep(st, next, visible, clean, n, h);
    }
    KeepReading(st, next, visible, clean);
  }

  lemma KeepReading(st: State, next: State, visible: seq<string>, clean: seq<string>)
    requires next.sections == st.sections && next.seen == st.seen && next.name == st.name
    ensures NamesRead(st) ==> NamesRead(next)
    ensures SectionsRead(st, visible, clean) ==> SectionsRead(next, visible, clean)
  {}

  lemma ReadingNothing(visible: seq<string>, clean: seq<string>)
    requires |visible| == |clean|
    ensures Reading(START, visible, clean, 0, 0)
  {
    assert SectionNames([]) == [];
  }

  lemma {:induction false} ReadingAll(tr: seq<State>, visible: seq<string>, clean: seq<string>, first: nat, n: nat) returns (h: nat)
    requires IsTrace(tr, visible, clean, first) && n <= |visible| && tr[|visible|].problems == []
    ensures Reading(tr[n], visible, clean, n, h)
  {
    hide Reading, Step;
    if n == 0 {
      h := 0;
      ReadingNothing(visible, clean);
    } else {
      h := ReadingAll(tr, visible, clean, first, n - 1);
      NoProblemsSoFar(tr, visible, clean, first, n);
      assert Follows(tr, visible, clean, first, n - 1);
      h := ReadingStep(tr[n - 1], tr[n], visible, clean, n - 1, h, first + (n - 1));
    }
  }

  lemma ReadingStep(st: State, next: State, visible: seq<string>, clean: seq<string>, n: nat, h: nat, line: nat) returns (h': nat)
    requires Reading(st, visible, clean, n, h) && n < |visible|
    requires next == Step(st, visible[n], clean[n], line) && next.problems == []
    ensures Reading(next, visible, clean, n + 1, h')
  {
    if IsHead(visible[n]) {
      HeadingStep(st, visible, clean, n, h, line);
      h' := n + 1;
    } else {
      TextStep(st, visible, clean, n, h, line);
      h' := h;
    }
  }

  lemma {:induction false} TextFromFacts(visible: seq<string>, from: nat)
    requires from <= |visible|
    ensures
      match TextFrom(visible, from)
      case None => BlankBetween(visible, from, |visible|)
      case Some(at) => from <= at < |visible| && Strip(visible[at]) != [] && BlankBetween(visible, from, at)
    decreases |visible| - from
  {
    if from < |visible| && Strip(visible[from]) == [] {
      TextFromFacts(visible, from + 1);
    }
  }

  /** When the loop has nothing to complain about, the names are distinct section names and
      every section is a stretch of content. */
  lemma {:induction false} SectionsAreCuts(visible: seq<string>, clean: seq<string>, first: nat)
    requires |visible| == |clean| && TextFrom(visible, 0).Some?
    requires Finish(Steps(START, visible, clean, first)).problems == []
    ensures
      var sections := Finish(Steps(START, visible, clean, first)).sections;
      && sections != [] && Distinct(SectionNames(sections))
      && forall k :: 0 <= k < |sections| ==>
           sections[k].name in SECTION_ORDER && FromCut(sections[k], visible, clean)
  {
    var tr := TraceOf(visible, clean, first);
    var st := tr[|visible|];
    assert st.problems <= Finish(st).problems;
    var h := ReadingAll(tr, visible, clean, first, |visible|);
    TextFromFacts(visible, 0);
    FinishReading(st, visible, clean, |visible|, h);
    var sections := Finish(st).sections;
    assert SectionNames(sections) == Finish(st).seen;
    forall k | 0 <= k < |sections| ensures sections[k].name in SECTION_ORDER {
      assert SectionNames(sections)[k] == sections[k].name;
    }
  }
}
