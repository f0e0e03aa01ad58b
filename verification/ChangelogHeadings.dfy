/** How the changelog script reads one visible line: headings, placeholders, `None.` lines. */
module ChangelogHeadings {
  import opened Options
  import opened PyText

  const SECTION_ORDER: seq<string> :=
    ["Upgrade notes", "Added", "Changed", "Deprecated", "Removed", "Fixed", "Security"]

  datatype Heading = Heading(level: nat, title: string)

  /** `^(#{1,6})\s+(.*)$`, with the title stripped. */
  function HeadingOf(s: string): Option<Heading> {
    var n := Lead(s, '#');
    if 1 <= n <= 6 && n < |s| && IsSpace(s[n]) then Some(Heading(n, Strip(s[n..]))) else None
  }

  /** `^#{1,2}\s+` */
  predicate IsTopHeading(s: string) {
    HeadingOf(s).Some? && HeadingOf(s).value.level <= 2
  }

  /** `^##\s+Changelog\s*$` */
  predicate IsChangelogHeading(s: string) {
    HeadingOf(s) == Some(Heading(2, "Changelog"))
  }

  /** `^##\s+\[Unreleased\]\s*$` */
  predicate IsUnreleased(s: string) {
    HeadingOf(s) == Some(Heading(2, "[Unreleased]"))
  }

  /** The text before the first `]`. */
  function UntilBracket(s: string): Option<string> {
    if s == [] then None
    else if s[0] == ']' then Some([])
    else
      match UntilBracket(s[1..])
      case None => None
      case Some(rest) => Some([s[0]] + rest)
  }

  /** `^##\s+\[([^\]]+)\]`: the label of a release heading. */
  function ReleaseLabel(s: string): Option<string> {
    match HeadingOf(s)
    case None => None
    case Some(h) =>
      if h.level == 2 && h.title != [] && h.title[0] == '[' && UntilBracket(h.title[1..]) != Some([])
      then UntilBracket(h.title[1..]) else None
  }

  /** Index of the next `#` or `##` heading after `start`, or the line count. */
  function BlockEnd(visible: seq<string>, start: nat): (end: nat)
    requires start < |visible|
    ensures start < end <= |visible|
    ensures forall i :: start < i < end ==> !IsTopHeading(visible[i])
    ensures end < |visible| ==> IsTopHeading(visible[end])
  {
    TopHeadingFrom(visible, start + 1)
  }

  function TopHeadingFrom(visible: seq<string>, from: nat): (end: nat)
    requires from <= |visible|
    ensures from <= end <= |visible|
    ensures forall i :: from <= i < end ==> !IsTopHeading(visible[i])
    ensures end < |visible| ==> IsTopHeading(visible[end])
    decreases |visible| - from
  {
    if from == |visible| || IsTopHeading(visible[from]) then from else TopHeadingFrom(visible, from + 1)
  }

  // ----- Placeholders

  /** One character under a regular expression's IGNORECASE. */
  function Fold(c: char): char {
    if 'A' <= c <= 'Z' then (c as int - 'A' as int + 'a' as int) as char
    else if c as int == 0x130 || c as int == 0x131 then 'i'
    else if c as int == 0x17F then 's'
    else c
  }

  predicate SameIgnoringCase(s: string, lower: string) {
    |s| == |lower| && forall i :: 0 <= i < |s| ==> Fold(s[i]) == lower[i]
  }

  predicate NoAngles(s: string) {
    forall i :: 0 <= i < |s| ==> s[i] != '<' && s[i] != '>'
  }

  /** The inside of an angle-bracket token that is template prose. */
  predicate TemplateInside(inside: string) {
    || SameIgnoringCase(inside, "description")
    || SameIgnoringCase(inside, "placeholder")
    || (|inside| >= 2 && forall i :: 0 <= i < |inside| ==> inside[i] == '.')
    || (&& inside != [] && NoAngles(inside)
        && !IsSpace(inside[0]) && !IsSpace(inside[|inside| - 1])
        && exists i :: 0 <= i < |inside| && IsSpace(inside[i]))
  }

  predicate HasPlaceholder(text: string) {
    exists i, j :: 0 <= i < j < |text| && text[i] == '<' && text[j] == '>' && TemplateInside(text[i + 1..j])
  }

  predicate PlaceholderOnly(text: string) {
    || (|text| >= 3 && text[0] == '<' && text[|text| - 1] == '>' && NoAngles(text[1..|text| - 1]))
    || SameIgnoringCase(text, "todo")
    || SameIgnoringCase(text, "tbd")
  }

  /** A content line with a leftover placeholder: the whole line or bullet, or a token in it. */
  predicate LeftoverPlaceholder(text: string) {
    || PlaceholderOnly(if StartsWith(text, "- ") then Strip(text[2..]) else text)
    || HasPlaceholder(text)
  }

  /** `^None\.\s+\S` */
  predicate IsNoneLine(s: string) {
    StartsWith(s, "None.") && |s| > 5 && IsSpace(s[5]) && !IsBlank(s[5..])
  }

  // ----- Facts

  lemma {:induction false} LeadOfPrefix(n: nat, c: char, s: string)
    requires n <= |s| && (forall i :: 0 <= i < n ==> s[i] == c) && (n < |s| ==> s[n] != c)
    ensures Lead(s, c) == n
    decreases n
  {
    if n > 0 {
      LeadOfPrefix(n - 1, c, s[1..]);
    }
  }

  /** A heading starts its line, so a line without trailing blanks is stripped already. */
  lemma {:induction false} HeadingIsStripped(s: string)
    requires HeadingOf(s).Some? && RStrip(s) == s
    ensures Strip(s) == s
  {
    assert s[0] == '#';
  }
}
