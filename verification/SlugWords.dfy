/** What a derived slug is made of: the words of the name, joined by single dashes and cut to length. */
module SlugWords {
  import opened Options
  import opened Slugs

  /** The runs of letters and digits. */
  function Words(s: string): (words: seq<string>)
    ensures s != [] && IsSlugChar(s[0]) ==> words != []
    ensures forall i :: 0 <= i < |words| ==> words[i] != [] && forall j :: 0 <= j < |words[i]| ==> IsSlugChar(words[i][j])
  {
    if s == [] then []
    else if !IsSlugChar(s[0]) then Words(s[1..])
    else if |s| > 1 && IsSlugChar(s[1]) then [[s[0]] + Words(s[1..])[0]] + Words(s[1..])[1..]
    else [[s[0]]] + Words(s[1..])
  }

  function Joined(words: seq<string>): string {
    if words == [] then [] else if |words| == 1 then words[0] else words[0] + "-" + Joined(words[1..])
  }

  lemma {:induction false} WordsOfDashed(s: string)
    ensures Words(Dashed(s)) == Words(s)
  {
    if s != [] {
      assert Dashed(s)[1..] == Dashed(s[1..]);
      WordsOfDashed(s[1..]);
    }
  }

  lemma {:induction false} WordsOfCollapsed(s: string)
    requires forall i :: 0 <= i < |s| ==> IsSlugChar(s[i]) || s[i] == '-'
    ensures Words(Collapsed(s)) == Words(s)
  {
    if s != [] {
      CollapsedIsLoose(s[1..]);
      WordsOfCollapsed(s[1..]);
      if !(|s| > 1 && s[0] == '-' && s[1] == '-') {
        assert Collapsed(s)[1..] == Collapsed(s[1..]);
      }
    }
  }

  lemma {:induction false} WordsOfLeft(s: string)
    ensures Words(StripLeft(s)) == Words(s)
  {
    if s != [] && s[0] == '-' {
      WordsOfLeft(s[1..]);
    }
  }

  lemma {:induction false} DashEndsNoWord(s: string)
    ensures Words(s + "-") == Words(s)
  {
    if s == [] {
      assert s + "-" == "-" && "-"[1..] == [];
    } else {
      assert (s + "-")[1..] == s[1..] + "-";
      DashEndsNoWord(s[1..]);
    }
  }

  lemma {:induction false} WordsOfRight(s: string)
    ensures Words(StripRight(s)) == Words(s)
  {
    if s != [] && s[|s| - 1] == '-' {
      WordsOfRight(s[..|s| - 1]);
      DashEndsNoWord(s[..|s| - 1]);
      assert s == s[..|s| - 1] + "-";
    }
  }

  /** A dashed string is its words joined again. */
  lemma {:induction false} JoinedBack(s: string)
    requires IsDashed(s)
    ensures Words(s) != [] && Joined(Words(s)) == s
  {
    if |s| > 1 {
      if IsSlugChar(s[1]) {
        JoinedBack(s[1..]);
        var words := Words(s[1..]);
        assert s == [s[0]] + s[1..];
        LongerFirst(s[0], words);
      } else {
        assert s[1] == '-' && IsSlugChar(s[2]);
        JoinedBack(s[2..]);
        assert s[1..][1..] == s[2..] && Words(s[1..]) == Words(s[2..]);
        assert Words(s) == [[s[0]]] + Words(s[2..]) && Words(s)[1..] == Words(s[2..]);
        assert s == [s[0]] + "-" + s[2..];
      }
    }
  }

  lemma {:induction false} LongerFirst(c: char, words: seq<string>)
    requires words != []
    ensures Joined([[c] + words[0]] + words[1..]) == [c] + Joined(words)
  {
    var longer := [[c] + words[0]] + words[1..];
    if |words| > 1 {
      assert longer[1..] == words[1..];
      assert [c] + words[0] + "-" + Joined(words[1..]) == [c] + (words[0] + "-" + Joined(words[1..]));
    }
  }

  lemma {:induction false} JoinedIsDashed(words: seq<string>)
    requires words != []
    requires forall i :: 0 <= i < |words| ==> words[i] != [] && forall j :: 0 <= j < |words[i]| ==> IsSlugChar(words[i][j])
    ensures IsDashed(Joined(words))
  {
    WordIsDashed(words[0]);
    if |words| > 1 {
      JoinedIsDashed(words[1..]);
      JoinIsDashed(words[0], Joined(words[1..]));
    }
  }

  lemma WordIsDashed(word: string)
    requires word != [] && forall j :: 0 <= j < |word| ==> IsSlugChar(word[j])
    ensures IsDashed(word)
  {
    DashIsNoSlugChar();
  }

  /** A slug is one word or several joined by single dashes, of at most 64 characters: `[a-z0-9]+(-[a-z0-9]+)*`. */
  lemma {:induction false} SlugsAreWords(s: string)
    ensures IsValidSlug(s) <==> Words(s) != [] && Joined(Words(s)) == s && |s| <= 64
    ensures forall c: char :: IsSlugChar(c) <==> 97 <= c as int <= 122 || 48 <= c as int <= 57
  {
    if IsDashed(s) {
      JoinedBack(s);
    }
    if Words(s) != [] {
      JoinedIsDashed(Words(s));
    }
  }

  /** The base of a slug: the words of the name joined, as much of it as fits. */
  lemma {:induction false} BaseIsWords(lowered: string)
    ensures
      var whole, base := Joined(Words(lowered)), Base(lowered);
      if |whole| <= 64 then base == whole
      else base <= whole && 63 <= |base| <= 64 && base[|base| - 1] != '-' && (|base| == 63 ==> whole[63] == '-')
  {
    hide *;
    var whole := StripRight(StripLeft(Collapsed(Dashed(lowered))));
    WholeIsWords(lowered);
    BaseIsFront(lowered);
    FrontOfWhole(whole);
  }

  lemma BaseIsFront(lowered: string)
    ensures Base(lowered) == StripRight(Front(StripRight(StripLeft(Collapsed(Dashed(lowered)))), LONGEST))
  {
    hide StripRight, StripLeft, Collapsed, Dashed, Front;
  }

  lemma {:induction false} WholeIsWords(lowered: string)
    ensures
      var whole := StripRight(StripLeft(Collapsed(Dashed(lowered))));
      whole == Joined(Words(lowered)) && (whole == [] || IsDashed(whole))
  {
    hide Words, StripRight, StripLeft, Collapsed, IsDashed, IsLoose, Joined;
    var collapsed := Collapsed(Dashed(lowered));
    CollapsedIsLoose(Dashed(lowered));
    WordsOfDashed(lowered);
    WordsOfCollapsed(Dashed(lowered));
    StripLeftKeeps(collapsed);
    var left := StripLeft(collapsed);
    WordsOfLeft(collapsed);
    WordsOfRight(left);
    StripRightKeeps(left);
    if left != [] {
      JoinedBack(StripRight(left));
    } else {
      NoWords();
    }
  }

  lemma NoWords()
    ensures Joined(Words([])) == []
  {
  }

  lemma FrontOfWhole(whole: string)
    requires whole == [] || IsDashed(whole)
    ensures
      var base := StripRight(Front(whole, LONGEST));
      if |whole| <= 64 then base == whole
      else base <= whole && 63 <= |base| <= 64 && base[|base| - 1] != '-' && (|base| == 63 ==> whole[63] == '-')
  {
    if |whole| > 64 {
      var front := whole[..64];
      if front[63] == '-' {
        assert whole[62] != '-';
        assert front[..63][62] == whole[62];
        assert StripRight(front) == StripRight(front[..63]) == front[..63];
        assert front[..63] == whole[..63];
      }
    }
  }

  /** A name that is a slug already stays as it is. */
  lemma SlugIsItsOwnBase(s: string)
    requires IsValidSlug(s)
    ensures Base(s) == s
  {
    JoinedBack(s);
    BaseIsWords(s);
  }
}
