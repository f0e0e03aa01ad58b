/** The text primitives the modelled code takes from Python's `str`. */
module PyText {
  /** `str.isspace` of one character: what `str.strip` and a regular expression's `\s` remove. */
  predicate IsSpace(c: char) {
    var n := c as int;
    || 9 <= n <= 13 || 28 <= n <= 32
    || n == 0x85 || n == 0xA0 || n == 0x1680 || 0x2000 <= n <= 0x200A
    || n == 0x2028 || n == 0x2029 || n == 0x202F || n == 0x205F || n == 0x3000
  }

  predicate IsBlank(s: string) {
    forall i :: 0 <= i < |s| ==> IsSpace(s[i])
  }

  function LStrip(s: string): (r: string)
    ensures |r| <= |s|
  {
    if s == [] || !IsSpace(s[0]) then s else LStrip(s[1..])
  }

  function RStrip(s: string): (r: string)
    ensures |r| <= |s|
  {
    if s == [] || !IsSpace(s[|s| - 1]) then s else RStrip(s[..|s| - 1])
  }

  function Strip(s: string): string {
    RStrip(LStrip(s))
  }

  lemma {:induction false} LStripFacts(s: string)
    ensures
      var r := LStrip(s);
      && (r == [] || !IsSpace(r[0]))
      && r == s[|s| - |r|..] && IsBlank(s[..|s| - |r|])
  {
    if s != [] && IsSpace(s[0]) {
      LStripFacts(s[1..]);
      LStripStep(s, LStrip(s[1..]));
    }
  }

  lemma LStripStep(s: string, r: string)
    requires s != [] && IsSpace(s[0]) && |r| < |s|
    requires r == s[1..][|s| - 1 - |r|..] && IsBlank(s[1..][..|s| - 1 - |r|])
    ensures r == s[|s| - |r|..] && IsBlank(s[..|s| - |r|])
  {
    hide IsSpace;
    var n := |s| - |r|;
    forall k | 0 <= k < n ensures IsSpace(s[k]) {
      if k > 0 {
        assert s[1..][..n - 1][k - 1] == s[k];
      }
    }
  }

  lemma {:induction false} RStripFacts(s: string)
    ensures
      var r := RStrip(s);
      && (r == [] || !IsSpace(r[|r| - 1]))
      && r == s[..|r|] && IsBlank(s[|r|..])
  {
    if s != [] && IsSpace(s[|s| - 1]) {
      RStripFacts(s[..|s| - 1]);
      var n := |RStrip(s)|;
      assert s[n..] == s[..|s| - 1][n..] + [s[|s| - 1]];
    }
  }

  /** Stripping leaves nothing blank at either end. */
  lemma StripFacts(s: string)
    ensures
      var r := Strip(s);
      r == [] || (!IsSpace(r[0]) && !IsSpace(r[|r| - 1]))
  {
    LStripFacts(s);
    RStripFacts(LStrip(s));
    var l, r := LStrip(s), Strip(s);
    assert r != [] ==> r[0] == l[0];
  }

  predicate StartsWith(s: string, prefix: string) {
    |prefix| <= |s| && s[..|prefix|] == prefix
  }

  predicate EndsWith(s: string, suffix: string) {
    |suffix| <= |s| && s[|s| - |suffix|..] == suffix
  }

  /** `part` stands in `s` at position `i`. */
  predicate StandsAt(s: string, part: string, i: int) {
    0 <= i <= |s| - |part| && s[i..i + |part|] == part
  }

  ghost predicate Contains(s: string, part: string) {
    exists i :: StandsAt(s, part, i)
  }

  /** `str.find(part, position, end)`: the leftmost place of `part` within the bounds, or -1. */
  function Find(value: string, part: string, position: nat, end: nat): (found: int)
    requires position <= end + 1 && end <= |value|
    ensures found == -1 || (position <= found <= end - |part| && StandsAt(value, part, found))
    ensures forall i :: position <= i <= end - |part| && (found == -1 || i < found) ==>
              !StandsAt(value, part, i)
    decreases end + 1 - position
  {
    if position > end - |part| then -1
    else if StandsAt(value, part, position) then position
    else Find(value, part, position + 1, end)
  }

  /** How often `c` stands in a row at the front. */
  function Lead(s: string, c: char): (n: nat)
    ensures n <= |s|
  {
    if s == [] || s[0] != c then 0 else 1 + Lead(s[1..], c)
  }

  // ----- Stripping

  lemma {:induction false} RStripAppendBlank(s: string, b: string)
    requires IsBlank(b)
    ensures RStrip(s + b) == RStrip(s)
  {
    if b == [] {
      assert s + b == s;
    } else {
      assert (s + b)[..|s + b| - 1] == s + b[..|b| - 1];
      assert (s + b)[|s + b| - 1] == b[|b| - 1];
      RStripAppendBlank(s, b[..|b| - 1]);
    }
  }

  lemma {:induction false} RStripStripped(s: string)
    requires s == [] || !IsSpace(s[|s| - 1])
    ensures RStrip(s) == s
  {}

  lemma {:induction false} LStripBlank(b: string)
    requires IsBlank(b)
    ensures LStrip(b) == []
  {
    if b != [] {
      LStripBlank(b[1..]);
    }
  }

  lemma {:induction false} RStripBlank(b: string)
    requires IsBlank(b)
    ensures RStrip(b) == []
  {
    if b != [] {
      RStripBlank(b[..|b| - 1]);
    }
  }

  /** Trailing blanks stay behind what is left of the front. */
  lemma {:induction false} LStripAppendBlank(s: string, b: string)
    requires IsBlank(b)
    ensures LStrip(s + b) == if LStrip(s) == [] then [] else LStrip(s) + b
  {
    if s == [] {
      assert s + b == b;
      LStripBlank(b);
    } else if IsSpace(s[0]) {
      assert (s + b)[1..] == s[1..] + b;
      LStripAppendBlank(s[1..], b);
    }
  }

  lemma {:induction false} StripOfRStrip(s: string)
    ensures Strip(RStrip(s)) == Strip(s)
  {
    var c := RStrip(s);
    RStripFacts(s);
    var b := s[|c|..];
    assert s == c + b;
    LStripAppendBlank(c, b);
    if LStrip(c) != [] {
      RStripAppendBlank(LStrip(c), b);
    }
  }

  lemma {:induction false} LeadAppend(s: string, b: string, c: char)
    requires b == [] || b[0] != c
    ensures Lead(s + b, c) == Lead(s, c)
  {
    if s == [] {
      assert s + b == b;
    } else if s[0] == c {
      assert (s + b)[1..] == s[1..] + b;
      LeadAppend(s[1..], b, c);
    }
  }
}
