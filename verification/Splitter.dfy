/** The quote-aware command splitter of the shell policy hook. */
module Splitter {
  import opened Options
  import opened PyText

  datatype Quote = Unquoted | Single | Double

  predicate IsSeparator(c: char) {
    c == ';' || c == '|' || c == '&' || c == '\n'
  }

  // ----- The meaning

  /** The quote state after one character. Nothing escapes a quote. */
  function Advance(quote: Quote, c: char): Quote {
    match quote
    case Unquoted => if c == '\'' then Single else if c == '"' then Double else Unquoted
    case Single => if c == '\'' then Unquoted else Single
    case Double => if c == '"' then Unquoted else Double
  }

  function QuoteAfter(src: string): Quote {
    if src == [] then Unquoted
    else Advance(QuoteAfter(src[..|src| - 1]), src[|src| - 1])
  }

  /** Position `i` holds a separator outside quotes. */
  predicate CutsAt(src: string, i: nat)
    requires i < |src|
  {
    QuoteAfter(src[..i]) == Unquoted && IsSeparator(src[i])
  }

  /** Shell syntax outside quotes that an allowlist will not vouch for. */
  predicate StrictUnquoted(c: char) {
    || c == '\\' || c == '$' || c == '`' || c == '(' || c == ')' || c == '<' || c == '>'
    || c == '#' || c == '{' || c == '}' || c == '\r'
  }

  predicate StrictInDouble(c: char) {
    c == '$' || c == '`' || c == '\\'
  }

  predicate Refused(quote: Quote, c: char) {
    match quote
    case Unquoted => StrictUnquoted(c)
    case Single => false
    case Double => StrictInDouble(c)
  }

  /** Position `i` holds syntax an allowlist refuses. */
  predicate ForbiddenAt(src: string, i: nat)
    requires i < |src|
  {
    Refused(QuoteAfter(src[..i]), src[i])
  }

  /** No position before `n` holds syntax an allowlist refuses. */
  predicate CleanBefore(src: string, n: nat)
    requires n <= |src|
  {
    forall i :: 0 <= i < n ==> !ForbiddenAt(src, i)
  }

  predicate HasForbidden(src: string) {
    exists i :: 0 <= i < |src| && ForbiddenAt(src, i)
  }

  /** The text between the last cut and the end. */
  function Tail(src: string): string {
    if src == [] then []
    else if CutsAt(src, |src| - 1) then []
    else Tail(src[..|src| - 1]) + [src[|src| - 1]]
  }

  /** A piece is kept as a segment unless stripping leaves nothing. */
  function Kept(piece: string): seq<string> {
    if Strip(piece) == [] then [] else [Strip(piece)]
  }

  /** The segments that a cut has already ended. */
  function Ended(src: string): seq<string> {
    if src == [] then []
    else if CutsAt(src, |src| - 1) then Ended(src[..|src| - 1]) + Kept(Tail(src[..|src| - 1]))
    else Ended(src[..|src| - 1])
  }

  /** The segments of a command, when nothing is refused. */
  function Segments(src: string): seq<string> {
    Ended(src) + Kept(Tail(src))
  }

  // ----- The splitter

  datatype Action = Refuse | Cut | Take(quote: Quote)

  /** The branch the loop takes on one character. */
  function Classify(quote: Quote, c: char, strict: bool): Action {
    if quote != Unquoted then
      if c == (if quote == Single then '\'' else '"') then Take(Unquoted)
      else if strict && quote == Double && StrictInDouble(c) then Refuse
      else Take(quote)
    else if c == '\'' || c == '"' then Take(if c == '\'' then Single else Double)
    else if IsSeparator(c) then Cut
    else if strict && StrictUnquoted(c) then Refuse
    else Take(Unquoted)
  }

  /** `split_segments`: lenient mode gives the segments; strict mode gives None exactly on
      forbidden syntax, an open quote or no segment, and otherwise what lenient mode gives. */
  method SplitSegments(src: string, strict: bool) returns (result: Option<seq<string>>)
    ensures result ==
      if strict && (HasForbidden(src) || QuoteAfter(src) != Unquoted || Segments(src) == [])
      then None else Some(Segments(src))
  {
    var segments: seq<string> := [];
    var current: string := [];
    var quote := Unquoted;
    for n := 0 to |src|
      invariant SplitTo(src, n, segments, current, quote)
      invariant strict ==> CleanBefore(src, n)
    {
      SplitOneMore(src, n, segments, current, quote, strict);
      match Classify(quote, src[n], strict)
      case Refuse =>
        return None;
      case Cut =>
        segments := Flush(segments, current);
        current := [];
      case Take(next) =>
        quote := next;
        current := current + [src[n]];
    }
    SplitAll(src, segments, current, quote);
    segments := Flush(segments, current);
    result := if strict && (quote != Unquoted || segments == []) then None else Some(segments);
  }

  /** The splitter's variables after `n` characters. */
  predicate SplitTo(src: string, n: nat, segments: seq<string>, current: string, quote: Quote)
    requires n <= |src|
  {
    segments == Ended(src[..n]) && current == Tail(src[..n]) && quote == QuoteAfter(src[..n])
  }

  lemma SplitOneMore(src: string, n: nat, segments: seq<string>, current: string, quote: Quote, strict: bool)
    requires n < |src| && SplitTo(src, n, segments, current, quote)
    ensures match Classify(quote, src[n], strict)
            case Refuse => strict && HasForbidden(src)
            case Cut => SplitTo(src, n + 1, Flush(segments, current), [], quote)
            case Take(next) => SplitTo(src, n + 1, segments, current + [src[n]], next)
    ensures strict && CleanBefore(src, n) && !Classify(quote, src[n], strict).Refuse? ==>
              CleanBefore(src, n + 1)
  {
    assert src[..n + 1][..n] == src[..n];
    assert CutsAt(src[..n + 1], n) == CutsAt(src, n);
    assert Refused(quote, src[n]) == ForbiddenAt(src, n);
  }

  lemma {:induction false} SplitAll(src: string, segments: seq<string>, current: string, quote: Quote)
    requires SplitTo(src, |src|, segments, current, quote)
    ensures Flush(segments, current) == Segments(src) && quote == QuoteAfter(src)
    ensures CleanBefore(src, |src|) <==> !HasForbidden(src)
  {
    assert src[..|src|] == src;
  }

  /** `flush`, without the clearing of `current`. */
  function Flush(segments: seq<string>, current: string): (flushed: seq<string>)
    ensures flushed == segments + Kept(current)
  {
    var text := Strip(current);
    if text != [] then segments + [text] else segments
  }

  // ----- Splitting is a homomorphism over separators

  lemma {:induction false} QuoteAfterConcat(a: string, b: string)
    requires QuoteAfter(a) == Unquoted
    ensures QuoteAfter(a + b) == QuoteAfter(b)
  {
    if b == [] {
      assert a + b == a;
    } else {
      assert (a + b)[..|a + b| - 1] == a + b[..|b| - 1];
      QuoteAfterConcat(a, b[..|b| - 1]);
    }
  }

  /** A cut splits the work in two: what was split before, and the rest split on its own. */
  lemma {:induction false} SplitAfterCut(a: string, b: string)
    requires QuoteAfter(a) == Unquoted && Tail(a) == []
    ensures Ended(a + b) == Ended(a) + Ended(b) && Tail(a + b) == Tail(b)
  {
    if b == [] {
      assert a + b == a;
    } else {
      var b' := b[..|b| - 1];
      assert (a + b)[..|a + b| - 1] == a + b';
      SplitAfterCut(a, b');
      QuoteAfterConcat(a, b');
    }
  }

  /** Splitting at a separator outside quotes is splitting both sides. */
  lemma {:induction false} SplitIsHomomorphism(a: string, sep: char, b: string)
    requires IsSeparator(sep) && QuoteAfter(a) == Unquoted
    ensures Segments(a + [sep] + b) == Segments(a) + Segments(b)
  {
    var cut := a + [sep];
    assert cut[..|cut| - 1] == a;
    SplitAfterCut(cut, b);
    assert Ended(cut) == Segments(a);
  }

  // ----- Re-splitting

  /** No cut anywhere in the text. */
  ghost predicate Uncut(text: string) {
    forall i :: 0 <= i < |text| ==> !CutsAt(text, i)
  }

  lemma {:induction false} UncutText(text: string)
    requires Uncut(text)
    ensures Ended(text) == [] && Tail(text) == text
  {
    if text != [] {
      var shorter := text[..|text| - 1];
      forall i | 0 <= i < |shorter| ensures !CutsAt(shorter, i) {
        assert shorter[..i] == text[..i];
        assert !CutsAt(text, i);
      }
      UncutText(shorter);
    }
  }

  lemma {:induction false} TailIsUncut(src: string)
    ensures Uncut(Tail(src)) && QuoteAfter(Tail(src)) == QuoteAfter(src)
  {
    if src != [] {
      var src' := src[..|src| - 1];
      TailIsUncut(src');
      if !CutsAt(src, |src| - 1) {
        var tail, tail' := Tail(src), Tail(src');
        assert tail[..|tail| - 1] == tail';
        forall i | 0 <= i < |tail| ensures !CutsAt(tail, i) {
          if i < |tail'| {
            assert tail[..i] == tail'[..i];
            assert !CutsAt(tail', i);
          }
        }
      }
    }
  }

  lemma {:induction false} BlankIsUnquoted(s: string)
    requires IsBlank(s)
    ensures QuoteAfter(s) == Unquoted
  {
    if s != [] {
      BlankIsUnquoted(s[..|s| - 1]);
    }
  }

  lemma {:induction false} QuoteBeforeBlank(a: string, s: string)
    requires IsBlank(s)
    ensures QuoteAfter(a + s) == QuoteAfter(a)
  {
    if s == [] {
      assert a + s == a;
    } else {
      assert (a + s)[..|a + s| - 1] == a + s[..|s| - 1];
      QuoteBeforeBlank(a, s[..|s| - 1]);
    }
  }

  lemma {:induction false} DropLeadingBlanks(lead: string, text: string)
    requires IsBlank(lead) && Uncut(lead + text)
    ensures Uncut(text) && QuoteAfter(text) == QuoteAfter(lead + text)
  {
    BlankIsUnquoted(lead);
    QuoteAfterConcat(lead, text);
    forall i | 0 <= i < |text| ensures !CutsAt(text, i) {
      assert (lead + text)[..|lead| + i] == lead + text[..i];
      QuoteAfterConcat(lead, text[..i]);
      assert !CutsAt(lead + text, |lead| + i);
    }
  }

  lemma {:induction false} DropTrailingBlanks(text: string, trail: string)
    requires IsBlank(trail) && Uncut(text + trail)
    ensures Uncut(text) && QuoteAfter(text) == QuoteAfter(text + trail)
  {
    QuoteBeforeBlank(text, trail);
    forall i | 0 <= i < |text| ensures !CutsAt(text, i) {
      assert (text + trail)[..i] == text[..i];
      assert !CutsAt(text + trail, i);
    }
  }

  /** Stripping a piece neither makes a cut nor changes its quotes. */
  lemma {:induction false} StripKeepsUncut(piece: string)
    requires Uncut(piece)
    ensures Uncut(Strip(piece)) && QuoteAfter(Strip(piece)) == QuoteAfter(piece)
  {
    var left := LStrip(piece);
    LStripFacts(piece);
    var lead := piece[..|piece| - |left|];
    assert piece == lead + left;
    DropLeadingBlanks(lead, left);
    var text := RStrip(left);
    RStripFacts(left);
    var trail := left[|text|..];
    assert left == text + trail;
    DropTrailingBlanks(text, trail);
  }

  lemma {:induction false} StripTwice(s: string)
    ensures Strip(Strip(s)) == Strip(s)
  {
    StripFacts(s);
    StripOfStripped(Strip(s));
  }

  lemma StripOfStripped(s: string)
    requires s == [] || (!IsSpace(s[0]) && !IsSpace(s[|s| - 1]))
    ensures Strip(s) == s
  {}

  /** Re-splitting the segment of a piece without cuts keeps it whole. */
  lemma {:induction false} ResplitPiece(piece: string)
    requires Uncut(piece) && Strip(piece) != []
    ensures Segments(Strip(piece)) == [Strip(piece)]
    ensures QuoteAfter(Strip(piece)) == QuoteAfter(piece)
  {
    StripKeepsUncut(piece);
    StripTwice(piece);
    UncutSegment(Strip(piece));
  }

  lemma UncutSegment(segment: string)
    requires Uncut(segment) && Strip(segment) == segment != []
    ensures Segments(segment) == [segment]
  {
    UncutText(segment);
  }

  /** Splitting any segment again gives just that segment, and every segment that a
      separator ended has closed quotes. */
  lemma {:induction false} ResplitEnded(src: string)
    ensures forall segment :: segment in Ended(src) ==>
      Segments(segment) == [segment] && QuoteAfter(segment) == Unquoted
  {
    if src != [] {
      var src' := src[..|src| - 1];
      ResplitEnded(src');
      TailIsUncut(src');
      if CutsAt(src, |src| - 1) && Strip(Tail(src')) != [] {
        ResplitPiece(Tail(src'));
      }
    }
  }

  lemma ResplitIsIdentity(src: string, segment: string)
    requires segment in Segments(src)
    ensures Segments(segment) == [segment]
  {
    ResplitEnded(src);
    TailIsUncut(src);
    if Strip(Tail(src)) != [] {
      ResplitPiece(Tail(src));
    }
  }

  // ----- Joining

  /** `";".join(segments)` */
  function Join(segments: seq<string>): string {
    if segments == [] then []
    else if |segments| == 1 then segments[0]
    else segments[0] + [';'] + Join(segments[1..])
  }

  lemma {:induction false} JoinedSegments(segments: seq<string>)
    requires forall i :: 0 <= i < |segments| ==> Segments(segments[i]) == [segments[i]]
    requires forall i :: 0 <= i < |segments| - 1 ==> QuoteAfter(segments[i]) == Unquoted
    ensures Segments(Join(segments)) == segments
  {
    if |segments| > 1 {
      JoinedSegments(segments[1..]);
      SplitIsHomomorphism(segments[0], ';', Join(segments[1..]));
      assert segments == [segments[0]] + segments[1..];
    } else if |segments| == 1 {
      assert segments == [segments[0]];
    }
  }

  /** Joining the segments with `;` and splitting again is the identity. */
  lemma JoinThenSplit(src: string)
    ensures Segments(Join(Segments(src))) == Segments(src)
  {
    var segments := Segments(src);
    forall i | 0 <= i < |segments| ensures Segments(segments[i]) == [segments[i]] {
      ResplitIsIdentity(src, segments[i]);
    }
    forall i | 0 <= i < |segments| - 1 ensures QuoteAfter(segments[i]) == Unquoted {
      ResplitEnded(src);
      assert segments[i] in Ended(src);
    }
    JoinedSegments(segments);
  }
}
