/** Wildcard matching of the shell policy hook: the greedy leftmost matcher, and the
    meaning of a pattern it must agree with. */
module Glob {
  import opened PyText

  // ----- The meaning

  /** `*` stands for any run of characters, every other character for itself. */
  ghost predicate Means(pattern: string, value: string) {
    if pattern == [] then value == []
    else if pattern[0] == '*' then
      exists k :: 0 <= k <= |value| && Means(pattern[1..], value[k..])
    else value != [] && value[0] == pattern[0] && Means(pattern[1..], value[1..])
  }

  /** `git status *` also covers a bare `git status`. */
  predicate CoversBare(pattern: string, value: string) {
    EndsWith(pattern, " *") && value == pattern[..|pattern| - 2]
  }

  // ----- Cutting a pattern at its stars

  /** `pattern.split("*")` */
  function Parts(pattern: string): (parts: seq<string>)
    ensures parts != []
  {
    if pattern == [] then [[]]
    else if pattern[0] == '*' then [[]] + Parts(pattern[1..])
    else [[pattern[0]] + Parts(pattern[1..])[0]] + Parts(pattern[1..])[1..]
  }

  /** Some assignment of the stars: `value` is `w1 m1 w2 m2 ... wn mn w` for any runs `w`. */
  ghost predicate Fits(middle: seq<string>, value: string) {
    middle == [] ||
    exists i :: StandsAt(value, middle[0], i) && Fits(middle[1..], value[i + |middle[0]|..])
  }

  ghost predicate FitsParts(parts: seq<string>, value: string)
    requires parts != []
  {
    var first, last := parts[0], parts[|parts| - 1];
    if |parts| == 1 then value == first
    else
      && |first| + |last| <= |value|
      && StartsWith(value, first) && EndsWith(value, last)
      && Fits(parts[1..|parts| - 1], value[|first|..|value| - |last|])
  }

  /** More text before the middle parts leaves room for the same assignment. */
  lemma {:induction false} FitsInLongerText(middle: seq<string>, value: string, k: nat)
    requires k <= |value| && Fits(middle, value[k..])
    ensures Fits(middle, value)
  {
    if middle != [] {
      var i :| StandsAt(value[k..], middle[0], i) && Fits(middle[1..], value[k..][i + |middle[0]|..]);
      assert value[k..][i..i + |middle[0]|] == value[k + i..k + i + |middle[0]|];
      assert value[k..][i + |middle[0]|..] == value[k + i + |middle[0]|..];
      assert StandsAt(value, middle[0], k + i);
    }
  }

  /** Exchange: if any assignment works, the one that puts the first part leftmost works. */
  lemma {:induction false} LeftmostIsBest(middle: seq<string>, value: string, found: nat)
    requires middle != [] && StandsAt(value, middle[0], found)
    requires forall i :: 0 <= i < found ==> !StandsAt(value, middle[0], i)
    ensures Fits(middle, value) <==> Fits(middle[1..], value[found + |middle[0]|..])
  {
    if Fits(middle, value) {
      var i :| StandsAt(value, middle[0], i) && Fits(middle[1..], value[i + |middle[0]|..]);
      assert found <= i;
      var rest := value[found + |middle[0]|..];
      assert rest[i - found..] == value[i + |middle[0]|..];
      FitsInLongerText(middle[1..], rest, i - found);
    }
  }

  // ----- The parts have the pattern's meaning

  lemma {:induction false} PartsMeanPattern(pattern: string, value: string)
    ensures Means(pattern, value) <==> FitsParts(Parts(pattern), value)
    decreases |pattern|
  {
    if pattern == [] {
    } else if pattern[0] == '*' {
      forall k | 0 <= k <= |value|
        ensures Means(pattern[1..], value[k..]) <==> FitsParts(Parts(pattern[1..]), value[k..])
      {
        PartsMeanPattern(pattern[1..], value[k..]);
      }
      StarBeforeParts(Parts(pattern[1..]), value);
    } else {
      if value != [] {
        PartsMeanPattern(pattern[1..], value[1..]);
        CharBeforeParts(pattern[0], Parts(pattern[1..]), value);
      }
    }
  }

  lemma StarBeforeParts(parts: seq<string>, value: string)
    requires parts != []
    ensures FitsParts([[]] + parts, value) <==>
            exists k :: 0 <= k <= |value| && FitsParts(parts, value[k..])
  {
    var all, first, last := [[]] + parts, parts[0], parts[|parts| - 1];
    assert all[|all| - 1] == last;
    if |parts| == 1 {
      assert all[1..|all| - 1] == [];
      if FitsParts(all, value) {
        assert FitsParts(parts, value[|value| - |last|..]);
      }
    } else {
      var middle := parts[1..|parts| - 1];
      assert all[1..|all| - 1] == [first] + middle;
      assert ([first] + middle)[1..] == middle;
      if FitsParts(all, value) {
        var text := value[..|value| - |last|];
        assert value[0..|value| - |last|] == text;
        var i :| StandsAt(text, first, i) && Fits(middle, text[i + |first|..]);
        StarSkips(parts, value, i);
      }
      forall k | 0 <= k <= |value| && FitsParts(parts, value[k..])
        ensures FitsParts(all, value)
      {
        StarAbsorbs(parts, value, k);
      }
    }
  }

  lemma StarSkips(parts: seq<string>, value: string, i: nat)
    requires |parts| > 1 && |parts[|parts| - 1]| <= |value| && EndsWith(value, parts[|parts| - 1])
    requires StandsAt(value[..|value| - |parts[|parts| - 1]|], parts[0], i)
    requires Fits(parts[1..|parts| - 1], value[..|value| - |parts[|parts| - 1]|][i + |parts[0]|..])
    ensures i <= |value| && FitsParts(parts, value[i..])
  {
    var first, last := parts[0], parts[|parts| - 1];
    var text, rest := value[..|value| - |last|], value[i..];
    assert rest[..|first|] == text[i..i + |first|];
    assert rest[|rest| - |last|..] == value[|value| - |last|..];
    assert rest[|first|..|rest| - |last|] == text[i + |first|..];
  }

  lemma {:induction false} FitsFirstAt(middle: seq<string>, text: string, k: nat)
    requires middle != [] && StandsAt(text, middle[0], k) && Fits(middle[1..], text[k + |middle[0]|..])
    ensures Fits(middle, text)
  {}

  lemma StarAbsorbs(parts: seq<string>, value: string, k: nat)
    requires |parts| > 1 && k <= |value| && FitsParts(parts, value[k..])
    ensures FitsParts([[]] + parts, value)
  {
    var all, first, last := [[]] + parts, parts[0], parts[|parts| - 1];
    var middle := parts[1..|parts| - 1];
    var text, rest := value[..|value| - |last|], value[k..];
    assert all[1..|all| - 1] == [first] + middle && ([first] + middle)[1..] == middle;
    assert rest[|rest| - |last|..] == value[|value| - |last|..];
    assert text[k..k + |first|] == rest[..|first|];
    assert text[k + |first|..] == rest[|first|..|rest| - |last|];
    assert StandsAt(text, first, k);
    assert value[0..|value| - |last|] == text;
    FitsFirstAt([first] + middle, text, k);
  }

  lemma CharBeforeParts(c: char, parts: seq<string>, value: string)
    requires parts != [] && value != []
    ensures FitsParts([[c] + parts[0]] + parts[1..], value) <==>
            value[0] == c && FitsParts(parts, value[1..])
  {
    var all, first, last := [[c] + parts[0]] + parts[1..], parts[0], parts[|parts| - 1];
    var rest := value[1..];
    if |parts| == 1 {
      assert value == [value[0]] + rest;
    } else {
      assert all[|all| - 1] == last;
      assert all[1..|all| - 1] == parts[1..|parts| - 1];
      PrefixAfterChar(c, first, value);
      if |first| + |last| <= |rest| {
        assert rest[|rest| - |last|..] == value[|value| - |last|..];
        assert value == value[0..|value|];
        SliceOfSlice(value, 1, |value|, |first|, |rest| - |last|);
      }
    }
  }

  lemma PrefixAfterChar(c: char, first: string, value: string)
    requires value != []
    ensures StartsWith(value, [c] + first) <==> value[0] == c && StartsWith(value[1..], first)
  {
    if |first| < |value| {
      assert value[..|first| + 1] == [value[0]] + value[1..][..|first|];
    }
  }

  // ----- The matcher

  /** `_glob_matches`: greedy, leftmost, never backtracking - and yet it accepts exactly
      the values the pattern means, for any number of stars and empty parts. */
  method GlobMatches(pattern: string, value: string) returns (matched: bool)
    ensures matched <==> Means(pattern, value) || CoversBare(pattern, value)
  {
    hide Means, FitsParts, Parts;
    PartsMeanPattern(pattern, value);
    if EndsWith(pattern, " *") && value == pattern[..|pattern| - 2] {
      return true;
    }
    matched := MatchParts(Parts(pattern), value);
  }

  /** The greedy part of `_glob_matches`: the parts between stars, each leftmost. */
  method MatchParts(parts: seq<string>, value: string) returns (matched: bool)
    requires parts != []
    ensures matched <==> FitsParts(parts, value)
  {
    var first, middle := parts[0], parts[1..];
    if middle == [] {
      return value == first;
    }
    var last := middle[|middle| - 1];
    middle := middle[..|middle| - 1];
    assert middle == parts[1..|parts| - 1];
    var end := |value| - |last|;
    if end < |first| || !StartsWith(value, first) || !EndsWith(value, last) {
      return false;
    }
    var position := |first|;
    for n := 0 to |middle|
      invariant |first| <= position <= end
      invariant FitsParts(parts, value) <==> Fits(middle[n..], value[position..end])
    {
      GreedyStep(middle[n..], value, position, end);
      assert middle[n..][0] == middle[n] && middle[n..][1..] == middle[n + 1..];
      var found := Find(value, middle[n], position, end);
      if found < 0 {
        return false;
      }
      position := found + |middle[n]|;
    }
    return true;
  }

  /** One step of the greedy loop decides nothing the meaning leaves open. */
  lemma {:induction false} GreedyStep(middle: seq<string>, value: string, position: nat, end: nat)
    requires middle != [] && position <= end <= |value|
    ensures
      var found := Find(value, middle[0], position, end);
      Fits(middle, value[position..end]) <==>
      found >= 0 && Fits(middle[1..], value[found + |middle[0]|..end])
  {
    var part, window := middle[0], value[position..end];
    var found := Find(value, part, position, end);
    FindWithin(value, part, position, end);
    if found >= 0 {
      LeftmostIsBest(middle, window, found - position);
      assert window[found - position + |part|..] == value[found + |part|..end];
    }
  }

  /** Positions in the window between the bounds are positions in the value. */
  lemma FindWithin(value: string, part: string, position: nat, end: nat)
    requires position <= end <= |value|
    ensures forall i :: StandsAt(value[position..end], part, i) <==>
              0 <= i <= end - position - |part| && StandsAt(value, part, position + i)
  {
    forall i | 0 <= i <= end - position - |part|
      ensures StandsAt(value[position..end], part, i) <==> StandsAt(value, part, position + i)
    {
      SliceOfSlice(value, position, end, i, i + |part|);
    }
  }

  lemma SliceOfSlice(s: string, p: nat, q: nat, i: nat, j: nat)
    requires p <= q <= |s| && i <= j <= q - p
    ensures s[p..q][i..j] == s[p + i..p + j]
  {
    var window := s[p..q];
    forall k | 0 <= k < j - i
      ensures window[i..j][k] == s[p + i..p + j][k]
    {
      assert window[i..j][k] == window[i + k] == s[p + (i + k)];
    }
  }
}
