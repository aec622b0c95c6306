/** Safe mode's `censor_text`: `re.sub(r"\b(w1|w2|...)\b", "beep", text, flags=re.IGNORECASE)`
    over the escaped banned words. Word boundaries use ASCII word characters and
    matching uses ASCII case folding. */
module Censor {
  import opened Wrappers
  import opened Text

  /** The replacement for every censored word. */
  const Redaction := "beep"

  /** `\b` at position `i`: exactly one of the characters either side of `i` is a
      word character (outside the text counts as a non-word character). */
  predicate Boundary(text: string, i: int)
    requires 0 <= i <= |text|
  {
    (i > 0 && IsWordChar(text[i - 1])) != (i < |text| && IsWordChar(text[i]))
  }

  /** The pattern `\b(word)\b` matches at position `i` with `word` as the alternative
      taken: `word` occurs there ignoring case, with a boundary on both sides. */
  predicate MatchesAt(text: string, word: string, i: int)
    requires 0 <= i <= |text|
  {
    && i + |word| <= |text|
    && Boundary(text, i)
    && SameIgnoringCase(text[i..i + |word|], word)
    && Boundary(text, i + |word|)
  }

  /** Every entry is non-empty: the API's word list keeps its banned words so, and
      safe mode's captured texts are recorded only when non-empty. */
  ghost predicate NonEmptyWords(banned: seq<string>) {
    forall k :: 0 <= k < |banned| ==> banned[k] != []
  }

  function FirstMatchFrom(text: string, banned: seq<string>, i: int, k: nat): (r: Option<nat>)
    requires 0 <= i <= |text|
    requires k <= |banned|
    ensures r.Some? ==> k <= r.value < |banned| && MatchesAt(text, banned[r.value], i)
    ensures r.Some? ==> forall m :: k <= m < r.value ==> !MatchesAt(text, banned[m], i)
    ensures r.None? ==> forall m :: k <= m < |banned| ==> !MatchesAt(text, banned[m], i)
    decreases |banned| - k
  {
    if k == |banned| then None
    else if MatchesAt(text, banned[k], i) then Some(k)
    else FirstMatchFrom(text, banned, i, k + 1)
  }

  /** The alternative the regex engine commits to at position `i`: the first banned
      word, in list order, with which the whole pattern matches there. */
  function FirstMatch(text: string, banned: seq<string>, i: int): (r: Option<nat>)
    requires 0 <= i <= |text|
    ensures r.Some? ==> r.value < |banned| && MatchesAt(text, banned[r.value], i)
    ensures r.Some? ==> forall m :: 0 <= m < r.value ==> !MatchesAt(text, banned[m], i)
    ensures r.None? <==> forall m :: 0 <= m < |banned| ==> !MatchesAt(text, banned[m], i)
  {
    FirstMatchFrom(text, banned, i, 0)
  }

  /** `re.sub` scanning from position `i`: a match is replaced and scanning resumes
      after it; elsewhere the character is copied and scanning moves on by one. */
  function Substitute(text: string, banned: seq<string>, i: int): string
    requires NonEmptyWords(banned)
    requires 0 <= i <= |text|
    decreases |text| - i
  {
    if i == |text| then ""
    else match FirstMatch(text, banned, i)
      case Some(k) => Redaction + Substitute(text, banned, i + |banned[k]|)
      case None => [text[i]] + Substitute(text, banned, i + 1)
  }

  /** `censor_text(text, banned_list)`: an empty list leaves the text as it is. */
  function CensorText(text: string, banned: seq<string>): (r: string)
    requires NonEmptyWords(banned)
    ensures banned == [] ==> r == text
  {
    if banned == [] then text else Substitute(text, banned, 0)
  }

  lemma {:induction false} NoMatchCopies(text: string, banned: seq<string>, i: int)
    requires NonEmptyWords(banned)
    requires 0 <= i <= |text|
    requires forall j, k :: i <= j < |text| && 0 <= k < |banned| ==> !MatchesAt(text, banned[k], j)
    ensures Substitute(text, banned, i) == text[i..]
    decreases |text| - i
  {
    if i < |text| {
      NoMatchCopies(text, banned, i + 1);
      assert text[i..] == [text[i]] + text[i + 1..];
    }
  }

  /** A text in which no banned word occurs as a whole word, in any letter case, is
      returned unchanged; in particular a banned word inside a longer word is kept. */
  lemma NoWholeWordUnchanged(text: string, banned: seq<string>)
    requires NonEmptyWords(banned)
    requires forall j, k :: 0 <= j < |text| && 0 <= k < |banned| ==> !MatchesAt(text, banned[k], j)
    ensures CensorText(text, banned) == text
  {
    NoMatchCopies(text, banned, 0);
  }

  // ---------------------------------------------------------------------------
  // An independent description: censoring word by word

  /** Every banned word is a non-empty run of word characters. */
  ghost predicate WordOnly(banned: seq<string>) {
    forall k :: 0 <= k < |banned| ==> banned[k] != [] && AllWordChars(banned[k])
  }

  /** The end of the maximal run, starting at `i`, of characters that are all word
      characters or all non-word characters. */
  function RunEnd(text: string, i: nat): (j: nat)
    requires i < |text|
    ensures i < j <= |text|
    ensures forall m :: i <= m < j ==> IsWordChar(text[m]) == IsWordChar(text[i])
    ensures j == |text| || IsWordChar(text[j]) != IsWordChar(text[i])
    decreases |text| - i
  {
    if i + 1 == |text| || IsWordChar(text[i + 1]) != IsWordChar(text[i]) then i + 1
    else RunEnd(text, i + 1)
  }

  /** `word` equals some banned word, ignoring case. */
  predicate IsBanned(word: string, banned: seq<string>) {
    exists k :: 0 <= k < |banned| && SameIgnoringCase(word, banned[k])
  }

  /** The text cut into maximal runs of word and non-word characters, with each word
      that is banned (ignoring case) replaced by the redaction and everything else
      kept. */
  function RedactWords(text: string, banned: seq<string>, i: nat): string
    requires i <= |text|
    decreases |text| - i
  {
    if i == |text| then ""
    else
      var j := RunEnd(text, i);
      (if IsWordChar(text[i]) && IsBanned(text[i..j], banned) then Redaction else text[i..j])
        + RedactWords(text, banned, j)
  }

  /** `i` begins a run. */
  predicate RunStart(text: string, i: nat)
    requires i <= |text|
  {
    i == 0 || i == |text| || IsWordChar(text[i - 1]) != IsWordChar(text[i])
  }

  /** Inside a run no match can start, so the scan copies the run. */
  lemma {:induction false} CopyRun(text: string, banned: seq<string>, k: nat, j: nat)
    requires NonEmptyWords(banned)
    requires 0 < k <= j <= |text|
    requires forall m :: k - 1 <= m < j ==> IsWordChar(text[m]) == IsWordChar(text[k - 1])
    ensures Substitute(text, banned, k) == text[k..j] + Substitute(text, banned, j)
    decreases j - k
  {
    if k < j {
      assert !Boundary(text, k);
      assert FirstMatch(text, banned, k).None?;
      assert Substitute(text, banned, k) == [text[k]] + Substitute(text, banned, k + 1);
      CopyRun(text, banned, k + 1, j);
      ConsRun(text, k, j, Substitute(text, banned, j));
    } else {
      assert text[k..j] == [];
    }
  }

  lemma FoldedWordChars(text: string, i: nat, w: string)
    requires AllWordChars(w)
    requires i + |w| <= |text|
    requires SameIgnoringCase(text[i..i + |w|], w)
    ensures forall m :: i <= m < i + |w| ==> IsWordChar(text[m])
  {
    forall m | i <= m < i + |w|
      ensures IsWordChar(text[m])
    {
      assert text[i..i + |w|][m - i] == text[m];
      assert FoldChar(text[m]) == FoldChar(w[m - i]);
    }
  }

  lemma MatchIsWholeRun(text: string, w: string, i: nat)
    requires w != [] && AllWordChars(w)
    requires i < |text| && IsWordChar(text[i])
    requires MatchesAt(text, w, i)
    ensures i + |w| == RunEnd(text, i)
  {
    var j := RunEnd(text, i);
    var e := i + |w|;
    FoldedWordChars(text, i, w);
    assert IsWordChar(text[e - 1]);
    assert e == |text| || !IsWordChar(text[e]);
    assert j == |text| || !IsWordChar(text[j]);
    assert e <= j;
  }

  lemma WholeRunMatches(text: string, w: string, i: nat)
    requires i < |text| && RunStart(text, i) && IsWordChar(text[i])
    requires SameIgnoringCase(text[i..RunEnd(text, i)], w)
    ensures MatchesAt(text, w, i)
  {
    var j := RunEnd(text, i);
    assert Boundary(text, i);
    assert IsWordChar(text[j - 1]);
    assert Boundary(text, j);
  }

  /** At the start of a word run, a word of word characters matches exactly when it
      is the whole run, ignoring case. */
  lemma MatchIffWholeRun(text: string, w: string, i: nat)
    requires w != [] && AllWordChars(w)
    requires i < |text| && RunStart(text, i) && IsWordChar(text[i])
    ensures MatchesAt(text, w, i) <==> SameIgnoringCase(text[i..RunEnd(text, i)], w)
  {
    if MatchesAt(text, w, i) {
      MatchIsWholeRun(text, w, i);
    }
    if SameIgnoringCase(text[i..RunEnd(text, i)], w) {
      WholeRunMatches(text, w, i);
    }
  }

  lemma MatchAtWordRun(text: string, banned: seq<string>, i: nat)
    requires WordOnly(banned)
    requires i < |text| && RunStart(text, i) && IsWordChar(text[i])
    ensures forall k :: 0 <= k < |banned| ==>
      (MatchesAt(text, banned[k], i) <==> SameIgnoringCase(text[i..RunEnd(text, i)], banned[k]))
  {
    forall k | 0 <= k < |banned|
      ensures MatchesAt(text, banned[k], i) <==> SameIgnoringCase(text[i..RunEnd(text, i)], banned[k])
    {
      MatchIffWholeRun(text, banned[k], i);
    }
  }

  /** At the start of a non-word run nothing matches: every banned word begins with
      a word character. */
  lemma NoMatchAtGapRun(text: string, banned: seq<string>, i: nat)
    requires WordOnly(banned)
    requires i < |text| && !IsWordChar(text[i])
    ensures FirstMatch(text, banned, i).None?
  {
    forall k | 0 <= k < |banned|
      ensures !MatchesAt(text, banned[k], i)
    {
      var w := banned[k];
      if i + |w| <= |text| {
        assert text[i..i + |w|][0] == text[i];
        assert IsWordChar(w[0]);
      }
    }
  }

  /** The scan over a word run: the whole run is redacted when it is a banned word,
      and copied otherwise. */
  lemma WordRunStep(text: string, banned: seq<string>, i: nat)
    requires WordOnly(banned)
    requires i < |text| && RunStart(text, i) && IsWordChar(text[i])
    ensures Substitute(text, banned, i) ==
      (if IsBanned(text[i..RunEnd(text, i)], banned) then Redaction else text[i..RunEnd(text, i)])
        + Substitute(text, banned, RunEnd(text, i))
  {
    var j := RunEnd(text, i);
    MatchAtWordRun(text, banned, i);
    var m := FirstMatch(text, banned, i);
    if m.Some? {
      assert SameIgnoringCase(text[i..j], banned[m.value]);
      assert IsBanned(text[i..j], banned);
      BannedRunStep(text, banned, i);
    } else {
      assert !IsBanned(text[i..j], banned);
      KeptRunStep(text, banned, i);
    }
  }

  /** A match of the alternative that spans the run replaces the whole run. */
  lemma BannedRunStep(text: string, banned: seq<string>, i: nat)
    requires NonEmptyWords(banned)
    requires i < |text| && FirstMatch(text, banned, i).Some?
    requires i + |banned[FirstMatch(text, banned, i).value]| == RunEnd(text, i)
    ensures Substitute(text, banned, i) == Redaction + Substitute(text, banned, RunEnd(text, i))
  {
  }

  /** Without a match at its start, a run is copied. */
  lemma KeptRunStep(text: string, banned: seq<string>, i: nat)
    requires NonEmptyWords(banned)
    requires i < |text| && FirstMatch(text, banned, i).None?
    ensures Substitute(text, banned, i) == text[i..RunEnd(text, i)] + Substitute(text, banned, RunEnd(text, i))
  {
    var j := RunEnd(text, i);
    assert Substitute(text, banned, i) == [text[i]] + Substitute(text, banned, i + 1);
    CopyRun(text, banned, i + 1, j);
    ConsRun(text, i, j, Substitute(text, banned, j));
  }

  /** The scan over a run of non-word characters copies it. */
  lemma GapRunStep(text: string, banned: seq<string>, i: nat)
    requires WordOnly(banned)
    requires i < |text| && !IsWordChar(text[i])
    ensures Substitute(text, banned, i) == text[i..RunEnd(text, i)] + Substitute(text, banned, RunEnd(text, i))
  {
    NoMatchAtGapRun(text, banned, i);
    KeptRunStep(text, banned, i);
  }

  lemma ConsRun(text: string, i: nat, j: nat, rest: string)
    requires i < j <= |text|
    ensures [text[i]] + (text[i + 1..j] + rest) == text[i..j] + rest
  {
    assert text[i..j] == [text[i]] + text[i + 1..j];
  }

  lemma {:induction false} SubstituteByRuns(text: string, banned: seq<string>, i: nat)
    requires WordOnly(banned)
    requires i <= |text| && RunStart(text, i)
    ensures Substitute(text, banned, i) == RedactWords(text, banned, i)
    decreases |text| - i
  {
    if i < |text| {
      var j := RunEnd(text, i);
      SubstituteByRuns(text, banned, j);
      if IsWordChar(text[i]) {
        WordRunStep(text, banned, i);
      } else {
        GapRunStep(text, banned, i);
      }
    }
  }

  /** When every banned word is a run of word characters, censoring replaces exactly
      the whole words of the text that equal a banned word ignoring case, and keeps
      everything else, including banned words embedded in longer words. */
  lemma CensorRedactsWholeWords(text: string, banned: seq<string>)
    requires WordOnly(banned)
    ensures CensorText(text, banned) == RedactWords(text, banned, 0)
  {
    SubstituteByRuns(text, banned, 0);
    if banned == [] {
      NoMatchCopies(text, banned, 0);
    }
  }
}
