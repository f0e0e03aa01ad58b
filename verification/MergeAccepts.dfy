/** Merging accepted notes gives accepted notes, in canonical order. */
module MergeAccepts {
  import opened Options
  import opened PyText
  import opened ChangelogHeadings
  import opened ChangelogNotes
  import opened ChangelogScan
  import opened AcceptedNotes
  import PrintThenParse
  import SectionLoop

  lemma GoodTextInARow(a: seq<string>, b: seq<string>)
    requires GoodText(a) && GoodText(b)
    ensures GoodText(a + b)
  {
    var at :| 0 <= at < |a| && StartsWith(Strip(a[at]), "- ") && BlankTo(a, at);
    assert (a + b)[at] == a[at] && BlankTo(a + b, at);
  }

  /** The lines of two good bodies in a row are a good body. */
  lemma GoodBodiesInARow(a: seq<string>, b: seq<string>)
    requires GoodBody(a) && GoodBody(b)
    ensures GoodBody(a + b)
  {
    PrintThenParse.ReadsInARow(a, b);
    GoodTextInARow(Visible(Prose, a), Visible(Prose, b));
    EndsInARow(a, b);
  }

  lemma EndsInARow(a: seq<string>, b: seq<string>)
    requires GoodEnds(a) && GoodEnds(b)
    ensures GoodEnds(a + b)
  {
    assert (a + b)[0] == a[0] && (a + b)[|a + b| - 1] == b[|b| - 1];
  }

  /** Nothing, or a good body. */
  ghost predicate GoodOrEmpty(lines: seq<string>, some: bool) {
    if some then GoodBody(lines) else lines == []
  }

  lemma AddGood(a: seq<string>, someA: bool, b: seq<string>, someB: bool)
    requires GoodOrEmpty(a, someA) && GoodOrEmpty(b, someB)
    ensures GoodOrEmpty(a + b, someA || someB)
  {
    if someA && someB {
      GoodBodiesInARow(a, b);
    } else if someA {
      assert a + b == a;
    } else {
      assert a + b == b;
    }
  }

  lemma NamesOneMore(sections: seq<Section>, name: string)
    requires sections != []
    ensures Names(sections, name) <==>
      Names(sections[..|sections| - 1], name) || sections[|sections| - 1].name == name
  {
    var n := |sections| - 1;
    if Names(sections[..n], name) {
      var i :| 0 <= i < n && sections[..n][i].name == name;
      assert sections[i].name == name;
    }
    if Names(sections, name) && sections[n].name != name {
      var i :| 0 <= i < |sections| && sections[i].name == name;
      assert sections[..n][i].name == name;
    }
  }

  lemma {:induction false} LinesOfGood(sections: seq<Section>, name: string)
    requires forall i :: 0 <= i < |sections| ==> GoodBody(sections[i].lines)
    ensures GoodOrEmpty(LinesOf(sections, name), Names(sections, name))
  {
    if sections != [] {
      var n := |sections| - 1;
      LinesOfGood(sections[..n], name);
      NamesOneMore(sections, name);
      AddGood(LinesOf(sections[..n], name), Names(sections[..n], name),
              if sections[n].name == name then sections[n].lines else [], sections[n].name == name);
    }
  }

  ghost predicate AllAccepted(files: seq<Notes>) {
    forall i :: 0 <= i < |files| ==> Accepted(files[i])
  }

  lemma {:induction false} MergedLinesGood(files: seq<Notes>, name: string)
    requires AllAccepted(files)
    ensures GoodOrEmpty(MergedLines(files, name), MergedNames(files, name))
  {
    if files != [] {
      var n := |files| - 1;
      var last := files[n];
      MergedLinesGood(files[..n], name);
      MergedNamesOneMore(files, n, name);
      assert files[..n + 1] == files;
      var some := last.noneLine == None && Names(last.sections, name);
      if last.noneLine == None {
        LinesOfGood(last.sections, name);
      }
      AddGood(MergedLines(files[..n], name), MergedNames(files[..n], name),
              if last.noneLine.Some? then [] else LinesOf(last.sections, name), some);
    }
  }

  lemma OrderIsDistinct()
    ensures Distinct(SECTION_ORDER)
  {
    assert SECTION_ORDER[0][0] == 'U' && SECTION_ORDER[1][0] == 'A' && SECTION_ORDER[2][0] == 'C' &&
           SECTION_ORDER[3][0] == 'D' && SECTION_ORDER[4][0] == 'R' && SECTION_ORDER[5][0] == 'F' && SECTION_ORDER[6][0] == 'S';
  }

  /** Sections named by the first `n` names of the canonical order, each with a good body. */
  ghost predicate CanonicalTo(sections: seq<Section>, n: nat) {
    && n <= |SECTION_ORDER| && Distinct(SectionNames(sections))
    && forall i :: 0 <= i < |sections| ==> sections[i].name in SECTION_ORDER[..n] && GoodBody(sections[i].lines)
  }

  lemma NameIsLater(name: string, n: nat)
    requires n < |SECTION_ORDER| && name in SECTION_ORDER[..n]
    ensures name != SECTION_ORDER[n] && name in SECTION_ORDER[..n + 1]
  {
    OrderIsDistinct();
    var k :| 0 <= k < n && SECTION_ORDER[..n][k] == name;
    assert SECTION_ORDER[..n + 1][k] == SECTION_ORDER[k] != SECTION_ORDER[n];
  }

  lemma DistinctWithLast(names: seq<string>, last: string)
    requires Distinct(names) && last !in names
    ensures Distinct(names + [last])
  {}

  lemma AddCanonical(sections: seq<Section>, n: nat, section: Section)
    requires CanonicalTo(sections, n) && n < |SECTION_ORDER| && section.name == SECTION_ORDER[n] && GoodBody(section.lines)
    ensures CanonicalTo(sections + [section], n + 1)
  {
    hide GoodBody;
    forall i | 0 <= i < |sections| ensures sections[i].name != section.name && sections[i].name in SECTION_ORDER[..n + 1] {
      NameIsLater(sections[i].name, n);
    }
    assert SECTION_ORDER[..n + 1][n] == section.name;
    SectionLoop.NamesOfFront(sections + [section]);
    assert (sections + [section])[..|sections|] == sections;
    DistinctWithLast(SectionNames(sections), section.name);
  }

  lemma WidenCanonical(sections: seq<Section>, n: nat)
    requires CanonicalTo(sections, n) && n < |SECTION_ORDER|
    ensures CanonicalTo(sections, n + 1)
  {
    forall i | 0 <= i < |sections| ensures sections[i].name in SECTION_ORDER[..n + 1] {
      var k :| 0 <= k < n && SECTION_ORDER[..n][k] == sections[i].name;
      assert SECTION_ORDER[..n + 1][k] == sections[i].name;
    }
  }

  lemma {:induction false} MergedSectionsGood(files: seq<Notes>, n: nat)
    requires AllAccepted(files) && n <= |SECTION_ORDER|
    ensures CanonicalTo(MergedSections(files, n), n)
  {
    if n > 0 {
      MergedSectionsGood(files, n - 1);
      MergedLinesGood(files, SECTION_ORDER[n - 1]);
      MergeOneMore(MergedSections(files, n - 1), n - 1, MergedLines(files, SECTION_ORDER[n - 1]),
                   MergedNames(files, SECTION_ORDER[n - 1]), MergedSections(files, n));
    }
  }

  lemma MergeOneMore(rest: seq<Section>, n: nat, lines: seq<string>, some: bool, merged: seq<Section>)
    requires CanonicalTo(rest, n) && n < |SECTION_ORDER| && GoodOrEmpty(lines, some)
    requires merged == rest + if some then [Section(SECTION_ORDER[n], lines)] else []
    ensures CanonicalTo(merged, n + 1)
  {
    if some {
      AddCanonical(rest, n, Section(SECTION_ORDER[n], lines));
    } else {
      WidenCanonical(rest, n);
      assert merged == rest;
    }
  }

  lemma {:induction false} MergedSectionsSome(files: seq<Notes>, n: nat, k: nat)
    requires k < n <= |SECTION_ORDER| && MergedNames(files, SECTION_ORDER[k])
    ensures MergedSections(files, n) != []
  {
    if k < n - 1 {
      MergedSectionsSome(files, n - 1, k);
    }
  }

  lemma {:induction false} LastNoneGood(files: seq<Notes>)
    requires AllAccepted(files) && files != [] && forall i :: 0 <= i < |files| ==> files[i].noneLine.Some?
    ensures LastNoneLine(files) == files[|files| - 1].noneLine
  {}

  /** Any number of accepted values, at least one, merge into an accepted value. */
  lemma MergeIsAccepted(files: seq<Notes>)
    requires AllAccepted(files) && files != []
    ensures Accepted(Merge(files))
  {
    if i :| 0 <= i < |files| && files[i].noneLine == None && files[i].sections != [] {
      MergedSectionsGood(files, |SECTION_ORDER|);
      var name := files[i].sections[0].name;
      var k :| 0 <= k < |SECTION_ORDER| && SECTION_ORDER[k] == name;
      assert Names(files[i].sections, name);
      assert MergedNames(files, name);
      MergedSectionsSome(files, |SECTION_ORDER|, k);
      CanonicalIsGood(MergedSections(files, |SECTION_ORDER|));
    } else {
      forall i | 0 <= i < |files| ensures files[i].noneLine.Some? {
        assert Accepted(files[i]);
      }
      LastNoneGood(files);
      assert Accepted(files[|files| - 1]);
    }
  }

  lemma CanonicalIsGood(sections: seq<Section>)
    requires CanonicalTo(sections, |SECTION_ORDER|) && sections != []
    ensures GoodSections(sections)
  {
    assert SECTION_ORDER[..|SECTION_ORDER|] == SECTION_ORDER;
  }
}
