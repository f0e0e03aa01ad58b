/** URL path components of artifact serves: their grammar, and how a free one is derived. */
module Slugs {
  import opened Options

  const LONGEST: nat := 64

  predicate IsSlugChar(c: char) {
    'a' <= c <= 'z' || '0' <= c <= '9'
  }

  /** Runs of `[a-z0-9]` separated by single dashes. */
  predicate IsDashed(s: string) {
    && s != [] && IsSlugChar(s[0]) && IsSlugChar(s[|s| - 1])
    && (forall i :: 0 <= i < |s| ==> IsSlugChar(s[i]) || s[i] == '-')
    && (forall i :: 0 < i < |s| ==> s[i - 1] != '-' || s[i] != '-')
  }

  /** `is_valid_slug` */
  predicate IsValidSlug(s: string) {
    1 <= |s| <= LONGEST && IsDashed(s)
  }

  // ----- The base

  /** `re.sub(r"[^a-z0-9-]", "-", s)` */
  function Dashed(s: string): string {
    seq(|s|, i requires 0 <= i < |s| => if IsSlugChar(s[i]) then s[i] else '-')
  }

  /** `re.sub(r"-+", "-", s)` */
  function Collapsed(s: string): string {
    if s == [] then []
    else if |s| > 1 && s[0] == '-' && s[1] == '-' then Collapsed(s[1..])
    else [s[0]] + Collapsed(s[1..])
  }

  function StripLeft(s: string): string {
    if s != [] && s[0] == '-' then StripLeft(s[1..]) else s
  }

  function StripRight(s: string): string {
    if s != [] && s[|s| - 1] == '-' then StripRight(s[..|s| - 1]) else s
  }

  /** Python's `s[:n]`; a negative `n` counts from the end. */
  function Front(s: string, n: int): string {
    if n >= |s| then s else if n >= 0 then s[..n] else if |s| + n >= 0 then s[..|s| + n] else []
  }

  function Base(lowered: string): string {
    StripRight(Front(StripRight(StripLeft(Collapsed(Dashed(lowered)))), LONGEST))
  }

  /** Slug characters and single dashes; a stripped piece of it is empty or a slug. */
  predicate IsLoose(s: string) {
    && (forall i :: 0 <= i < |s| ==> IsSlugChar(s[i]) || s[i] == '-')
    && (forall i :: 0 < i < |s| ==> s[i - 1] != '-' || s[i] != '-')
  }

  predicate HasSlugChar(s: string) {
    exists i :: 0 <= i < |s| && IsSlugChar(s[i])
  }

  lemma {:induction false} CollapsedIsLoose(s: string)
    requires forall i :: 0 <= i < |s| ==> IsSlugChar(s[i]) || s[i] == '-'
    ensures IsLoose(Collapsed(s)) && (HasSlugChar(Collapsed(s)) <==> HasSlugChar(s))
    ensures (s == [] <==> Collapsed(s) == []) && (s != [] ==> Collapsed(s)[0] == s[0])
  {
    if s != [] {
      CollapsedIsLoose(s[1..]);
      var rest := Collapsed(s[1..]);
      assert HasSlugChar(s) <==> IsSlugChar(s[0]) || HasSlugChar(s[1..]) by {
        HasSlugCharSplits(s);
      }
      if !(|s| > 1 && s[0] == '-' && s[1] == '-') {
        HasSlugCharSplits([s[0]] + rest);
        assert ([s[0]] + rest)[1..] == rest;
      }
    }
  }

  lemma HasSlugCharSplits(s: string)
    requires s != []
    ensures HasSlugChar(s) <==> IsSlugChar(s[0]) || HasSlugChar(s[1..])
  {
    if i :| 0 <= i < |s| && IsSlugChar(s[i]) {
      if i > 0 {
        assert IsSlugChar(s[1..][i - 1]);
      }
    }
    if i :| 0 <= i < |s[1..]| && IsSlugChar(s[1..][i]) {
      assert IsSlugChar(s[i + 1]);
    }
  }

  lemma {:induction false} StripLeftKeeps(s: string)
    requires IsLoose(s)
    ensures IsLoose(StripLeft(s)) && (HasSlugChar(StripLeft(s)) <==> HasSlugChar(s))
    ensures StripLeft(s) != [] ==> IsSlugChar(StripLeft(s)[0])
  {
    if s != [] && s[0] == '-' {
      StripLeftKeeps(s[1..]);
      HasSlugCharSplits(s);
    }
  }

  /** Stripping the end keeps the start, and what starts with a slug character keeps that. */
  lemma {:induction false} StripRightKeeps(s: string)
    requires IsLoose(s)
    ensures StripRight(s) <= s && (s != [] && IsSlugChar(s[0]) ==> IsDashed(StripRight(s)))
    ensures s == [] ==> StripRight(s) == []
  {
    if s != [] && s[|s| - 1] == '-' {
      StripRightKeeps(s[..|s| - 1]);
    }
  }

  /** The base is a valid slug exactly when the name has a letter or a digit. */
  lemma BaseIsValid(lowered: string)
    ensures IsValidSlug(Base(lowered)) <==> HasSlugChar(lowered)
  {
    var dashed := Dashed(lowered);
    assert HasSlugChar(dashed) <==> HasSlugChar(lowered) by {
      if i :| 0 <= i < |lowered| && IsSlugChar(lowered[i]) {
        assert IsSlugChar(dashed[i]);
      }
      if i :| 0 <= i < |dashed| && IsSlugChar(dashed[i]) {
        assert IsSlugChar(lowered[i]);
      }
    }
    CollapsedIsLoose(dashed);
    StripLeftKeeps(Collapsed(dashed));
    var left := StripLeft(Collapsed(dashed));
    BaseOfStripped(left);
    assert left != [] ==> IsSlugChar(left[0]) && HasSlugChar(left);
  }

  lemma {:induction false} BaseOfStripped(left: string)
    requires IsLoose(left) && (left != [] ==> IsSlugChar(left[0]))
    ensures
      var base := StripRight(Front(StripRight(left), LONGEST));
      IsValidSlug(base) <==> left != []
  {
    StripRightKeeps(left);
    var front := Front(StripRight(left), LONGEST);
    StripRightKeeps(front);
    if left != [] {
      assert front[0] == left[0];
    }
  }

  // ----- Numbered candidates

  function Decimal(n: nat): (s: string)
    ensures s != []
  {
    if n < 10 then ["0123456789"[n]] else Decimal(n / 10) + ["0123456789"[n % 10]]
  }

  predicate IsNumeral(s: string) {
    s != [] && forall i :: 0 <= i < |s| ==> '0' <= s[i] <= '9'
  }

  lemma {:induction false} DecimalIsNumeral(n: nat)
    ensures IsNumeral(Decimal(n))
  {
    if n >= 10 {
      DecimalIsNumeral(n / 10);
    }
  }

  lemma {:induction false} DecimalIsInjective(m: nat, n: nat)
    requires Decimal(m) == Decimal(n)
    ensures m == n
    decreases m
  {
    assert Decimal(m)[|Decimal(m)| - 1] == "0123456789"[m % 10];
    assert Decimal(n)[|Decimal(n)| - 1] == "0123456789"[n % 10];
    DecimalLength(m);
    DecimalLength(n);
    if m >= 10 && n >= 10 {
      assert Decimal(m)[..|Decimal(m)| - 1] == Decimal(m / 10);
      assert Decimal(n)[..|Decimal(n)| - 1] == Decimal(n / 10);
      DecimalIsInjective(m / 10, n / 10);
    }
  }

  lemma {:induction false} DecimalLength(n: nat)
    ensures |Decimal(n)| == 1 <==> n < 10
  {
  }

  /** The suffix of an attempt: the port, then the port and the attempt's number. */
  function Suffix(port: nat, attempt: nat): string {
    if attempt == 1 then Decimal(port) else Decimal(port) + "-" + Decimal(attempt)
  }

  function Candidate(base: string, port: nat, attempt: nat): string {
    StripRight(Front(base, 63 - |Suffix(port, attempt)|)) + "-" + Suffix(port, attempt)
  }

  lemma {:induction false} CandidateEnds(base: string, port: nat, n: nat)
    requires 2 <= n
    ensures EndsWithNumeral(Candidate(base, port, n), Decimal(n))
  {
    hide Decimal, StripRight, Front;
    DecimalIsNumeral(n);
    EndsAfterDash(StripRight(Front(base, 63 - |Suffix(port, n)|)), Decimal(port), Decimal(n));
  }

  /** Attempts from the second on give different candidates: the number after the last dash. */
  lemma CandidatesDiffer(base: string, port: nat, m: nat, n: nat)
    requires 2 <= m < n
    ensures Candidate(base, port, m) != Candidate(base, port, n)
  {
    hide *;
    CandidateEnds(base, port, m);
    CandidateEnds(base, port, n);
    if Candidate(base, port, m) == Candidate(base, port, n) {
      SameAfterDash(Candidate(base, port, m), Decimal(m), Decimal(n));
      DecimalIsInjective(m, n);
    }
  }

  /** A string that ends in a dash and then a numeral. */
  ghost predicate EndsWithNumeral(s: string, numeral: string) {
    |numeral| < |s| && s[|s| - |numeral|..] == numeral && s[|s| - |numeral| - 1] == '-' && IsNumeral(numeral)
  }

  lemma EndsAfterDash(front: string, port: string, numeral: string)
    requires IsNumeral(numeral)
    ensures EndsWithNumeral(front + "-" + (port + "-" + numeral), numeral)
  {
    hide IsNumeral;
    var s := front + "-" + (port + "-" + numeral);
    assert s == (front + "-" + port + "-") + numeral;
  }

  lemma SameAfterDash(s: string, a: string, b: string)
    requires EndsWithNumeral(s, a) && EndsWithNumeral(s, b)
    ensures a == b
  {
    if |a| < |b| {
      DashInside(s, a, b);
    } else if |b| < |a| {
      DashInside(s, b, a);
    }
  }

  /** A longer end of the string has the dash in it. */
  lemma DashInside(s: string, a: string, longer: string)
    requires EndsWithNumeral(s, a) && |a| < |longer| <= |s| && s[|s| - |longer|..] == longer
    ensures !IsNumeral(longer)
  {
    assert longer[|longer| - |a| - 1] == '-';
  }

  lemma NumeralIsDashed(s: string)
    requires IsNumeral(s)
    ensures IsDashed(s)
  {
  }

  lemma JoinIsDashed(a: string, b: string)
    requires IsDashed(a) && IsDashed(b)
    ensures IsDashed(a + "-" + b)
  {
    hide IsSlugChar;
    var s := a + "-" + b;
    assert forall i :: 0 <= i < |s| ==> s[i] == if i < |a| then a[i] else if i == |a| then '-' else b[i - |a| - 1];
    DashIsNoSlugChar();
  }

  lemma DashIsNoSlugChar()
    ensures !IsSlugChar('-')
  {
  }

  lemma SuffixIsDashed(port: nat, attempt: nat)
    ensures IsDashed(Suffix(port, attempt))
  {
    DecimalIsNumeral(port);
    DecimalIsNumeral(attempt);
    NumeralIsDashed(Decimal(port));
    NumeralIsDashed(Decimal(attempt));
    JoinIsDashed(Decimal(port), Decimal(attempt));
  }

  /** A candidate is a valid slug as long as its suffix leaves room for a character of the base. */
  lemma CandidateIsValid(base: string, port: nat, attempt: nat)
    requires IsValidSlug(base) && |Suffix(port, attempt)| < 63
    ensures IsValidSlug(Candidate(base, port, attempt))
  {
    var front := Front(base, 63 - |Suffix(port, attempt)|);
    assert IsLoose(front) && front != [] && IsSlugChar(front[0]);
    StripRightKeeps(front);
    SuffixIsDashed(port, attempt);
    JoinIsDashed(StripRight(front), Suffix(port, attempt));
  }

  // ----- Deriving

  datatype SlugError = NoLetterOrNumber | NotSafe

  /** What the loop has tried from its second attempt on. */
  ghost function Tried(base: string, port: nat, attempt: nat): set<string> {
    set n | 2 <= n < attempt :: Candidate(base, port, n)
  }

  lemma {:induction false} TriedCount(base: string, port: nat, attempt: nat)
    requires attempt >= 2
    ensures |Tried(base, port, attempt)| == attempt - 2
  {
    hide Candidate;
    if attempt == 2 {
      assert Tried(base, port, 2) == {};
    } else {
      TriedCount(base, port, attempt - 1);
      assert Tried(base, port, attempt) == Tried(base, port, attempt - 1) + {Candidate(base, port, attempt - 1)};
      forall n | 2 <= n < attempt - 1 ensures Candidate(base, port, n) != Candidate(base, port, attempt - 1) {
        CandidatesDiffer(base, port, n, attempt - 1);
      }
    }
  }

  lemma TriedFits(base: string, port: nat, attempt: nat, occupied: set<string>)
    requires attempt >= 2 && forall n :: 2 <= n < attempt ==> Candidate(base, port, n) in occupied
    ensures attempt - 2 <= |occupied|
  {
    hide Candidate;
    TriedCount(base, port, attempt);
    SubsetCount(Tried(base, port, attempt), occupied);
  }

  /** Every candidate from the second attempt on and before this one is occupied. */
  ghost predicate AllTaken(base: string, port: nat, attempt: nat, occupied: set<string>) {
    attempt <= 2 || (Candidate(base, port, attempt - 1) in occupied && AllTaken(base, port, attempt - 1, occupied))
  }

  lemma {:induction false} AllTakenIs(base: string, port: nat, attempt: nat, occupied: set<string>)
    ensures AllTaken(base, port, attempt, occupied) <==> forall n :: 2 <= n < attempt ==> Candidate(base, port, n) in occupied
  {
    hide Candidate;
    if attempt > 2 {
      AllTakenIs(base, port, attempt - 1, occupied);
    }
  }

  lemma {:induction false} AttemptsFit(base: string, port: nat, attempt: nat, occupied: set<string>)
    requires attempt >= 1 && AllTaken(base, port, attempt, occupied)
    ensures attempt <= |occupied| + 2
  {
    hide Candidate;
    if attempt >= 2 {
      AllTakenIs(base, port, attempt, occupied);
      TriedFits(base, port, attempt, occupied);
    }
  }

  lemma SubsetCount(a: set<string>, b: set<string>)
    requires a <= b
    ensures |a| <= |b|
  {
    assert b == a + (b - a);
  }

  /** The first candidate that is free, from an attempt on. */
  function FreeFrom(base: string, port: nat, occupied: set<string>, attempt: nat): string
    requires attempt >= 1 && AllTaken(base, port, attempt, occupied)
    decreases |occupied| + 3 - attempt
  {
    hide Candidate;
    AttemptsFit(base, port, attempt, occupied);
    if Candidate(base, port, attempt) in occupied then FreeFrom(base, port, occupied, attempt + 1)
    else Candidate(base, port, attempt)
  }

  lemma FreeStep(base: string, port: nat, occupied: set<string>, attempt: nat)
    requires attempt >= 1 && AllTaken(base, port, attempt, occupied)
    ensures Candidate(base, port, attempt) !in occupied ==> FreeFrom(base, port, occupied, attempt) == Candidate(base, port, attempt)
    ensures
      Candidate(base, port, attempt) in occupied ==>
        AllTaken(base, port, attempt + 1, occupied)
        && FreeFrom(base, port, occupied, attempt) == FreeFrom(base, port, occupied, attempt + 1)
  {
    hide Candidate;
  }

  /** The slug a serve gets. */
  function DerivedSlug(lowered: string, occupied: set<string>, port: nat): Result<string, SlugError> {
    var base := Base(lowered);
    if !IsValidSlug(base) then Err(NoLetterOrNumber)
    else
      var slug := if base in occupied then FreeFrom(base, port, occupied, 1) else base;
      if IsValidSlug(slug) then Ok(slug) else Err(NotSafe)
  }

  lemma RefusedIffNameless(lowered: string, occupied: set<string>, port: nat)
    ensures DerivedSlug(lowered, occupied, port) == Err(NoLetterOrNumber) <==> !HasSlugChar(lowered)
  {
    hide *;
    BaseIsValid(lowered);
    DerivedIs(lowered, occupied, port);
  }

  /** `derive_slug`, from the lowered name. It raises at once exactly when the name has no letter or
      digit; otherwise it takes at most two attempts more than there are occupied slugs, and its
      result is free, and valid unless so many are occupied that a suffix fills the slug. */
  method DeriveSlug(lowered: string, occupied: set<string>, port: nat) returns (r: Result<string, SlugError>, ghost attempts: nat)
    ensures r == DerivedSlug(lowered, occupied, port)
    ensures r == Err(NoLetterOrNumber) <==> !HasSlugChar(lowered)
    ensures attempts <= |occupied| + 2
    ensures r.Ok? ==> r.value !in occupied && IsValidSlug(r.value)
    ensures r.Ok? ==> r.value == if attempts == 0 then Base(lowered) else Candidate(Base(lowered), port, attempts)
    ensures r.Ok? && attempts > 0 ==> Base(lowered) in occupied && forall n :: 1 <= n < attempts ==> Candidate(Base(lowered), port, n) in occupied
    ensures r == Err(NotSafe) ==> |Suffix(port, attempts)| >= 63
  {
    hide *;
    attempts := 0;
    BaseIsValid(lowered);
    DerivedIs(lowered, occupied, port);
    NoneTaken(Base(lowered), port, occupied);
    var base := Base(lowered);
    if !IsValidSlug(base) || lowered in {".", "..", "/"} {
      if lowered in {".", "..", "/"} {
        DotsHaveNone(lowered);
      }
      return Err(NoLetterOrNumber), 0;
    }
    var candidate := base;
    var attempt := 1;
    while candidate in occupied
      invariant attempt >= 1 && attempts == attempt - 1
      invariant candidate == if attempt == 1 then base else Candidate(base, port, attempt - 1)
      invariant attempt > 1 ==> base in occupied && forall n :: 1 <= n < attempt - 1 ==> Candidate(base, port, n) in occupied
      invariant attempts <= |occupied| + 2
      invariant attempts > 0 ==> AllTaken(base, port, attempts, occupied)
      invariant attempts > 0 ==> FreeFrom(base, port, occupied, attempts) == FreeFrom(base, port, occupied, 1)
      decreases |occupied| + 3 - attempt
    {
      if attempts > 0 {
        FreeStep(base, port, occupied, attempts);
      }
      AttemptsFit(base, port, attempt, occupied);
      candidate := Candidate(base, port, attempt);
      attempts := attempt;
      attempt := attempt + 1;
    }
    if attempts > 0 {
      FreeStep(base, port, occupied, attempts);
    }
    if !IsValidSlug(candidate) {
      if |Suffix(port, attempts)| < 63 {
        CandidateIsValid(base, port, attempts);
      }
      return Err(NotSafe), attempts;
    }
    return Ok(candidate), attempts;
  }

  lemma {:induction false} DerivedIs(lowered: string, occupied: set<string>, port: nat)
    ensures
      var base := Base(lowered);
      var slug := if base in occupied then FreeFrom(base, port, occupied, 1) else base;
      DerivedSlug(lowered, occupied, port)
      == if !IsValidSlug(base) then Err(NoLetterOrNumber) else if IsValidSlug(slug) then Ok(slug) else Err(NotSafe)
  {
    hide Base, FreeFrom, IsValidSlug;
  }

  lemma {:induction false} NoneTaken(base: string, port: nat, occupied: set<string>)
    ensures AllTaken(base, port, 1, occupied)
  {
  }

  lemma DotsHaveNone(lowered: string)
    requires lowered in {".", "..", "/"}
    ensures !HasSlugChar(lowered)
  {
  }
}
