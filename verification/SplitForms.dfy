/** Where a command is cut and what a strict policy refuses, told by closed quotes and sets of characters. */
module SplitForms {
  import opened Options
  import opened PyText
  import opened Splitter

  // ----- Quotes

  predicate IsQuote(c: char) {
    c == '\'' || c == '"'
  }

  /** The next `c` from `from` on stands at `j`. */
  ghost predicate IsNext(s: string, c: char, from: nat, j: nat) {
    from <= j < |s| && s[j] == c && forall i :: from <= i < j ==> s[i] != c
  }

  /** Every quote that opens is closed by the next one of its kind; what stands between is text. */
  ghost predicate Closed(s: string)
    decreases |s|
  {
    if s == [] then true
    else if IsQuote(s[0]) then exists j: nat :: IsNext(s, s[0], 1, j) && Closed(s[j + 1..])
    else Closed(s[1..])
  }

  /** A quote `c` is open: it stands behind closed text and no further one follows. */
  ghost predicate OpenWith(s: string, c: char) {
    exists i :: 0 <= i < |s| && s[i] == c && Closed(s[..i]) && forall k :: i < k < |s| ==> s[k] != c
  }

  function QuoteFrom(quote: Quote, s: string): Quote
    decreases |s|
  {
    if s == [] then quote else QuoteFrom(Advance(quote, s[0]), s[1..])
  }

  lemma {:induction false} QuoteFromBack(quote: Quote, s: string, c: char)
    ensures QuoteFrom(quote, s + [c]) == Advance(QuoteFrom(quote, s), c)
    decreases |s|
  {
    if s == [] {
      assert [] + [c] == [c] && [c][1..] == [];
      assert QuoteFrom(quote, [c]) == QuoteFrom(Advance(quote, c), []);
    } else {
      assert (s + [c])[1..] == s[1..] + [c] && (s + [c])[0] == s[0];
      QuoteFromBack(Advance(quote, s[0]), s[1..], c);
    }
  }

  lemma {:induction false} QuoteIsFrom(s: string)
    ensures QuoteAfter(s) == QuoteFrom(Unquoted, s)
  {
    if s != [] {
      var n := |s| - 1;
      QuoteIsFrom(s[..n]);
      QuoteFromBack(Unquoted, s[..n], s[n]);
      assert s == s[..n] + [s[n]];
    }
  }

  function Mark(quote: Quote): char
    requires quote != Unquoted
  {
    if quote == Single then '\'' else '"'
  }

  /** Within quotes only the same quote counts. */
  lemma {:induction false} InQuotes(quote: Quote, s: string)
    requires quote != Unquoted
    ensures (forall i :: 0 <= i < |s| ==> s[i] != Mark(quote)) ==> QuoteFrom(quote, s) == quote
    ensures forall j: nat :: IsNext(s, Mark(quote), 0, j) ==> QuoteFrom(quote, s) == QuoteFrom(Unquoted, s[j + 1..])
    decreases |s|
  {
    if s != [] {
      if s[0] == Mark(quote) {
        assert forall j: nat :: IsNext(s, Mark(quote), 0, j) ==> j == 0;
      } else {
        InQuotes(quote, s[1..]);
        forall j: nat | IsNext(s, Mark(quote), 0, j) ensures QuoteFrom(quote, s) == QuoteFrom(Unquoted, s[j + 1..]) {
          assert IsNext(s[1..], Mark(quote), 0, j - 1);
          assert s[1..][j..] == s[j + 1..];
        }
      }
    }
  }

  lemma {:induction false} NextOrNone(s: string, c: char, from: nat) returns (j: Option<nat>)
    requires from <= |s|
    ensures match j case None => forall i :: from <= i < |s| ==> s[i] != c case Some(at) => IsNext(s, c, from, at)
    decreases |s| - from
  {
    if from == |s| {
      j := None;
    } else if s[from] == c {
      j := Some(from);
    } else {
      j := NextOrNone(s, c, from + 1);
    }
  }

  /** After an opening quote. */
  lemma {:induction false} AfterOpening(s: string, quote: Quote, j: Option<nat>)
    requires s != [] && quote != Unquoted && s[0] == Mark(quote)
    requires match j case None => forall i :: 1 <= i < |s| ==> s[i] != s[0] case Some(at) => IsNext(s, s[0], 1, at)
    ensures
      QuoteFrom(Unquoted, s) == match j case None => quote case Some(at) => QuoteFrom(Unquoted, s[at + 1..])
  {
    InQuotes(quote, s[1..]);
    assert QuoteFrom(Unquoted, s) == QuoteFrom(quote, s[1..]);
    match j
    case None => assert forall i :: 0 <= i < |s[1..]| ==> s[1..][i] != s[0];
    case Some(at) =>
      assert IsNext(s[1..], s[0], 0, at - 1) by {
        assert forall i :: 0 <= i < at - 1 ==> s[1..][i] == s[i + 1];
      }
      assert s[1..][at..] == s[at + 1..];
  }

  /** Nothing is quoted exactly when every quote is closed. */
  lemma {:induction false} ClosedIs(s: string)
    ensures QuoteFrom(Unquoted, s) == Unquoted <==> Closed(s)
    decreases |s|
  {
    if s != [] {
      if IsQuote(s[0]) {
        var quote := if s[0] == '\'' then Single else Double;
        var j := NextOrNone(s, s[0], 1);
        AfterOpening(s, quote, j);
        match j
        case None =>
        case Some(at) =>
          ClosedIs(s[at + 1..]);
          forall k: nat | IsNext(s, s[0], 1, k) ensures k == at {
          }
      } else {
        ClosedIs(s[1..]);
      }
    }
  }

  lemma {:induction false} QuoteIsClosed(s: string)
    ensures QuoteAfter(s) == Unquoted <==> Closed(s)
  {
    hide Closed;
    QuoteIsFrom(s);
    ClosedIs(s);
  }

  /** A quote is open exactly when it stands behind closed text and none of its kind follows. */
  lemma {:induction false} OpenIs(s: string, quote: Quote)
    requires quote != Unquoted
    ensures QuoteAfter(s) == quote <==> OpenWith(s, Mark(quote))
  {
    hide Closed;
    if s == [] {
      assert QuoteAfter(s) == Unquoted;
    } else {
      var n := |s| - 1;
      OpenIs(s[..n], quote);
      QuoteIsClosed(s[..n]);
      OpenBack(s, Mark(quote));
    }
  }

  lemma OpenBack(s: string, c: char)
    requires s != []
    ensures
      var n := |s| - 1;
      OpenWith(s, c) <==> if s[n] == c then Closed(s[..n]) else OpenWith(s[..n], c)
  {
    hide Closed;
    var n := |s| - 1;
    if s[n] != c {
      if i :| 0 <= i < |s| && s[i] == c && Closed(s[..i]) && forall k :: i < k < |s| ==> s[k] != c {
        assert s[..n][..i] == s[..i] && s[..n][i] == c;
      }
      if i :| 0 <= i < n && s[..n][i] == c && Closed(s[..n][..i]) && forall k :: i < k < n ==> s[..n][k] != c {
        assert s[..n][..i] == s[..i];
        assert forall k :: i < k < n ==> s[k] == s[..n][k];
      }
    }
  }

  // ----- Cuts and refusals

  /** A command is cut at `;`, `|`, `&` and line ends behind closed text. */
  lemma CutsAre(src: string, i: nat)
    requires i < |src|
    ensures CutsAt(src, i) <==> src[i] in ";|&\n" && Closed(src[..i])
  {
    hide Closed;
    QuoteIsClosed(src[..i]);
  }

  /** A strict policy refuses what the shell would expand or redirect: outside quotes, and of it `$`, backticks and
      backslashes in double quotes. */
  lemma ForbiddenAre(src: string, i: nat)
    requires i < |src|
    ensures
      ForbiddenAt(src, i) <==>
        || (src[i] in "\\$`()<>#{}\r" && Closed(src[..i]))
        || (src[i] in "$`\\" && OpenWith(src[..i], '"'))
  {
    hide Closed, OpenWith;
    QuoteIsClosed(src[..i]);
    OpenIs(src[..i], Double);
  }

  /** What is not cut is one segment, without the blanks around it, or none. */
  lemma UncutIsOne(src: string)
    requires Uncut(src)
    ensures Segments(src) == if Strip(src) == [] then [] else [Strip(src)]
  {
    UncutText(src);
  }
}
