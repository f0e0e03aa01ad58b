/** The forms of single lines that the changelog script goes by, told character by character. */
module LineForms {
  import opened Options
  import opened PyText
  import opened ChangelogHeadings
  import opened ChangelogRelease

  // ----- Blanks

  /** The characters that `str.isspace` knows. */
  const SPACES: set<char> :=
    {'\U{9}', '\U{A}', '\U{B}', '\U{C}', '\U{D}', '\U{1C}', '\U{1D}', '\U{1E}', '\U{1F}', '\U{20}', '\U{85}',
     '\U{A0}', '\U{1680}', '\U{2000}', '\U{2001}', '\U{2002}', '\U{2003}', '\U{2004}', '\U{2005}', '\U{2006}',
     '\U{2007}', '\U{2008}', '\U{2009}', '\U{200A}', '\U{2028}', '\U{2029}', '\U{202F}', '\U{205F}', '\U{3000}'}

  lemma SpacesAre(c: char)
    ensures IsSpace(c) <==> c in SPACES
  {
  }

  /** No blank at either end. */
  ghost predicate IsTrimmed(s: string) {
    s != [] ==> s[0] !in SPACES && s[|s| - 1] !in SPACES
  }

  ghost predicate AllBlank(s: string) {
    forall i :: 0 <= i < |s| ==> s[i] in SPACES
  }

  lemma BlankIs(s: string)
    ensures IsBlank(s) <==> AllBlank(s)
  {
    forall i | 0 <= i < |s| ensures IsSpace(s[i]) <==> s[i] in SPACES {
      SpacesAre(s[i]);
    }
  }

  /** Stripping takes the blanks at both ends away, and only these. */
  lemma StripTakes(front: string, s: string, back: string)
    requires AllBlank(front) && AllBlank(back) && IsTrimmed(s)
    ensures Strip(front + s + back) == s
  {
    hide SPACES, AllBlank, IsBlank, IsSpace;
    BlankIs(front);
    BlankIs(back);
    if s != [] {
      SpacesAre(s[0]);
      SpacesAre(s[|s| - 1]);
    }
    StripTakesBlanks(front, s, back);
  }

  lemma StripTakesBlanks(front: string, s: string, back: string)
    requires IsBlank(front) && IsBlank(back) && (s != [] ==> !IsSpace(s[0]) && !IsSpace(s[|s| - 1]))
    ensures Strip(front + s + back) == s
  {
    hide IsBlank, IsSpace;
    LStripFront(front, s + back);
    assert front + s + back == front + (s + back);
    if s == [] {
      assert s + back == back;
      LStripBlank(back);
    } else {
      RStripAppendBlank(s, back);
      RStripStripped(s);
      assert (s + back)[0] == s[0];
    }
  }

  lemma {:induction false} LStripFront(front: string, s: string)
    requires IsBlank(front)
    ensures LStrip(front + s) == LStrip(s)
  {
    if front == [] {
      assert front + s == s;
    } else {
      assert (front + s)[1..] == front[1..] + s && (front + s)[0] == front[0];
      LStripFront(front[1..], s);
    }
  }

  /** Every line is blanks, what stripping leaves, and blanks. */
  lemma StripLeaves(s: string) returns (front: string, back: string)
    ensures AllBlank(front) && AllBlank(back) && IsTrimmed(Strip(s)) && s == front + Strip(s) + back
  {
    hide SPACES, AllBlank, IsBlank, IsSpace, LStrip, RStrip;
    LStripFacts(s);
    var l := LStrip(s);
    RStripFacts(l);
    StripFacts(s);
    front, back := s[..|s| - |l|], l[|Strip(s)|..];
    BlankIs(front);
    BlankIs(back);
    var r := Strip(s);
    if r != [] {
      SpacesAre(r[0]);
      SpacesAre(r[|r| - 1]);
    }
    assert l == r + back;
    assert s == front + l;
  }

  // ----- Headings

  /** `n` times `#`, a blank, and the title between blanks. */
  ghost predicate HasForm(s: string, n: nat, title: string) {
    && 1 <= n < |s| && (forall i :: 0 <= i < n ==> s[i] == '#') && s[n] in SPACES
    && Strip(s[n..]) == title
  }

  lemma {:induction false} LeadIs(s: string, c: char)
    ensures forall i :: 0 <= i < Lead(s, c) ==> s[i] == c
    ensures Lead(s, c) < |s| ==> s[Lead(s, c)] != c
  {
    if s != [] && s[0] == c {
      LeadIs(s[1..], c);
      forall i | 0 <= i < Lead(s, c) ensures s[i] == c {
        assert i > 0 ==> s[i] == s[1..][i - 1];
      }
    }
  }

  lemma HashIsNoSpace()
    ensures '#' !in SPACES
  {
    SpacesAre('#');
  }

  lemma HeadingIs(s: string, n: nat, title: string)
    ensures HeadingOf(s) == Some(Heading(n, title)) <==> n <= 6 && HasForm(s, n, title)
  {
    hide Strip, IsSpace, Lead;
    HashIsNoSpace();
    LeadIs(s, '#');
    LeadIsWithin(s);
    if Lead(s, '#') < |s| {
      SpacesAre(s[Lead(s, '#')]);
    }
    if HasForm(s, n, title) {
      LeadOfPrefix(n, '#', s);
    }
  }

  lemma {:induction false} LeadIsWithin(s: string)
    ensures Lead(s, '#') <= |s|
  {
  }

  /** `#` or `##` and a blank. */
  lemma TopHeadingIs(s: string)
    ensures
      IsTopHeading(s) <==>
        && |s| > 1 && s[0] == '#'
        && (s[1] in SPACES || (|s| > 2 && s[1] == '#' && s[2] in SPACES))
  {
    hide Strip, SPACES, HeadingOf;
    HashIsNoSpace();
    if HeadingOf(s).Some? {
      HeadingIs(s, HeadingOf(s).value.level, HeadingOf(s).value.title);
    }
    if |s| > 1 && s[0] == '#' && s[1] in SPACES {
      HeadingIs(s, 1, Strip(s[1..]));
    } else if |s| > 2 && s[0] == '#' && s[1] == '#' && s[2] in SPACES {
      HeadingIs(s, 2, Strip(s[2..]));
    }
  }

  lemma ChangelogHeadingIs(s: string)
    ensures IsChangelogHeading(s) <==> |s| > 2 && s[0] == s[1] == '#' && s[2] in SPACES && Strip(s[2..]) == "Changelog"
  {
    hide Strip, SPACES, HeadingOf;
    HeadingIs(s, 2, "Changelog");
  }

  lemma UnreleasedIs(s: string)
    ensures IsUnreleased(s) <==> |s| > 2 && s[0] == s[1] == '#' && s[2] in SPACES && Strip(s[2..]) == "[Unreleased]"
  {
    hide Strip, SPACES, HeadingOf;
    HeadingIs(s, 2, "[Unreleased]");
  }

  /** `name` stands before the first `]`. */
  ghost predicate EndsAt(s: string, name: string) {
    |name| < |s| && s[|name|] == ']' && forall i :: 0 <= i < |name| ==> s[i] == name[i] && s[i] != ']'
  }

  lemma EndsBelow(s: string, name: string)
    requires s != [] && s[0] != ']'
    ensures EndsAt(s, name) <==> name != [] && s[0] == name[0] && EndsAt(s[1..], name[1..])
  {
    if name != [] && s[0] == name[0] && EndsAt(s[1..], name[1..]) {
      forall i | 0 <= i < |name| ensures s[i] == name[i] && s[i] != ']' {
        assert i > 0 ==> s[1..][i - 1] == name[1..][i - 1];
      }
    }
  }

  lemma {:induction false} UntilBracketIs(s: string, name: string)
    ensures UntilBracket(s) == Some(name) <==> EndsAt(s, name)
  {
    hide EndsAt;
    if s == [] || s[0] == ']' {
      EndsHere(s, name);
    } else {
      EndsBelow(s, name);
      if name != [] {
        UntilBracketIs(s[1..], name[1..]);
        assert name == [name[0]] + name[1..];
      }
    }
  }

  lemma EndsHere(s: string, name: string)
    requires s == [] || s[0] == ']'
    ensures EndsAt(s, name) <==> s != [] && name == []
  {
  }

  lemma EndsOnce(s: string, name: string)
    ensures EndsAt(s, name) && EndsAt(s, []) ==> name == []
  {
  }

  /** `##`, blanks, and the label in brackets: it is not empty, and it ends at the first closing bracket. */
  lemma ReleaseLabelIs(s: string, name: string)
    ensures
      ReleaseLabel(s) == Some(name) <==>
        && name != [] && |s| > 2 && s[0] == s[1] == '#' && s[2] in SPACES
        && Strip(s[2..]) != [] && Strip(s[2..])[0] == '[' && EndsAt(Strip(s[2..])[1..], name)
  {
    hide Strip, SPACES, HeadingOf, UntilBracket, EndsAt;
    match HeadingOf(s) {
      case None =>
        if |s| > 2 && s[0] == s[1] == '#' && s[2] in SPACES {
          HeadingIs(s, 2, Strip(s[2..]));
        }
      case Some(h) =>
        HeadingIs(s, h.level, h.title);
        if |s| > 2 && s[0] == s[1] == '#' && s[2] in SPACES {
          HeadingIs(s, 2, Strip(s[2..]));
        }
        if h.title != [] {
          UntilBracketIs(h.title[1..], name);
          UntilBracketIs(h.title[1..], []);
          EndsOnce(h.title[1..], name);
        }
    }
  }

  // ----- Versions

  /** A letter or a digit of ASCII, by code point. */
  predicate IsAlphanumeric(c: char) {
    var n := c as int;
    48 <= n <= 57 || 65 <= n <= 90 || 97 <= n <= 122
  }

  /** A letter or a digit, then letters, digits, `.`, `+` and `-`. */
  ghost predicate HasVersionForm(version: string) {
    && version != [] && IsAlphanumeric(version[0])
    && forall i :: 0 <= i < |version| ==> IsAlphanumeric(version[i]) || version[i] in ".+-"
  }

  /** Extracting refuses a version for its form exactly when it has another one. */
  lemma VersionIs(lines: seq<string>, version: string)
    ensures IsVersion(version) <==> HasVersionForm(version)
    ensures Extract(lines, version) == Err(BadVersion) <==> !HasVersionForm(version)
  {
    hide ExtractViews;
    ViewsKnowVersions(lines, version);
  }

  lemma ViewsKnowVersions(lines: seq<string>, version: string)
    ensures Extract(lines, version) == Err(BadVersion) <==> !IsVersion(version)
  {
    hide IsVersion;
  }

  // ----- `None.` lines

  /** `None.`, a blank, and a reason. */
  lemma NoneLineIs(s: string)
    ensures
      IsNoneLine(s) <==> |s| > 6 && s[..5] == "None." && s[5] in SPACES && exists i :: 5 < i < |s| && s[i] !in SPACES
  {
    hide SPACES, IsSpace;
    if |s| > 5 {
      SpacesAre(s[5]);
      BlankIs(s[5..]);
      if !AllBlank(s[5..]) {
        var k :| 0 <= k < |s[5..]| && s[5..][k] !in SPACES;
        assert s[k + 5] !in SPACES;
      }
      forall i | 5 < i < |s| && s[i] !in SPACES ensures !AllBlank(s[5..]) {
        assert s[5..][i - 5] == s[i];
      }
    }
  }

  // ----- Placeholders

  /** Letters match in either case. */
  lemma FoldIs(c: char)
    ensures 65 <= c as int <= 90 ==> Fold(c) as int == c as int + 32
    ensures c as int < 65 || 90 < c as int < 128 ==> Fold(c) == c
  {
  }

  /** Words in angle brackets are template prose. */
  lemma WordsAreTemplate(first: string, rest: string, blank: char)
    requires first != [] && rest != [] && blank in SPACES && NoAngles(first) && NoAngles(rest)
    requires first[0] !in SPACES && rest[|rest| - 1] !in SPACES
    ensures TemplateInside(first + [blank] + rest)
  {
    hide SPACES, IsSpace, SameIgnoringCase;
    var inside := first + [blank] + rest;
    SpacesAre(blank);
    SpacesAre(first[0]);
    SpacesAre(rest[|rest| - 1]);
    AnglesAreNoSpaces(blank);
    assert inside[|first|] == blank && inside[0] == first[0] && inside[|inside| - 1] == rest[|rest| - 1];
  }

  lemma AnglesAreNoSpaces(c: char)
    requires IsSpace(c)
    ensures c != '<' && c != '>' && c != '.'
  {
  }

  /** A single word is a metavariable, unless it says that it is none, or is dots. */
  lemma WordIsNoTemplate(word: string)
    requires forall i :: 0 <= i < |word| ==> word[i] !in SPACES
    ensures
      TemplateInside(word) <==>
        || SameIgnoringCase(word, "description") || SameIgnoringCase(word, "placeholder")
        || (|word| >= 2 && forall i :: 0 <= i < |word| ==> word[i] == '.')
  {
    hide SPACES, IsSpace, SameIgnoringCase;
    forall i | 0 <= i < |word| ensures !IsSpace(word[i]) {
      SpacesAre(word[i]);
    }
  }

  /** A comparison is no placeholder: a blank stands inside a bracket. */
  lemma ComparisonIsNoTemplate(inside: string)
    requires inside != [] && (inside[0] in SPACES || inside[|inside| - 1] in SPACES)
    ensures !TemplateInside(inside)
  {
    hide SPACES;
    SpacesAre(inside[0]);
    SpacesAre(inside[|inside| - 1]);
    if inside[0] in SPACES {
      SpaceIsNoLetter(inside, 0);
    } else {
      SpaceIsNoLetter(inside, |inside| - 1);
    }
  }

  lemma SpaceIsNoLetter(inside: string, i: nat)
    requires i < |inside| && IsSpace(inside[i])
    ensures !SameIgnoringCase(inside, "description") && !SameIgnoringCase(inside, "placeholder") && inside[i] != '.'
  {
    assert Fold(inside[i]) == inside[i];
    if SameIgnoringCase(inside, "description") {
      assert inside[i] == "description"[i];
      NoSpaceIn("description", i);
    } else if SameIgnoringCase(inside, "placeholder") {
      assert inside[i] == "placeholder"[i];
      NoSpaceIn("placeholder", i);
    }
  }

  lemma NoSpaceIn(word: string, i: nat)
    requires i < |word| && (word == "description" || word == "placeholder")
    ensures !IsSpace(word[i])
  {
    assert forall k :: 0 <= k < |word| ==> 'a' <= word[k] <= 'z';
  }
}
