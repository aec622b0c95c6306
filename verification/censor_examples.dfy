/** Worked examples of the censor on whole sentences: a banned word is replaced in
    any letter case, and a longer word that merely contains it is kept. */
module CensorExamples {
  import opened Text
  import opened Censor

  /** "I hate carrots" with the middle word in either letter case. */
  ghost predicate Sentence(t: string) {
    t == "I hate carrots" || t == "I HATE carrots"
  }

  lemma SentenceHeadRuns(t: string)
    requires Sentence(t)
    ensures RunEnd(t, 0) == 1 && RunEnd(t, 1) == 2
  {
  }

  lemma SentenceWordRun(t: string)
    requires Sentence(t)
    ensures RunEnd(t, 2) == 6
  {
    assert RunEnd(t, 5) == 6;
    assert RunEnd(t, 4) == 6;
    assert RunEnd(t, 3) == 6;
  }

  lemma SentenceTailRuns(t: string)
    requires Sentence(t)
    ensures RunEnd(t, 6) == 7 && RunEnd(t, 7) == 14
  {
    assert RunEnd(t, 13) == 14;
    assert RunEnd(t, 12) == 14;
    assert RunEnd(t, 11) == 14;
    assert RunEnd(t, 10) == 14;
    assert RunEnd(t, 9) == 14;
    assert RunEnd(t, 8) == 14;
  }

  lemma MiddleWordBanned(t: string, b: seq<string>)
    requires Sentence(t) && b == ["hate"]
    ensures IsBanned(t[2..6], b)
  {
    assert FoldChar('H') == 'h' && FoldChar('h') == 'h';
    assert FoldChar('A') == 'a' && FoldChar('a') == 'a';
    assert FoldChar('T') == 't' && FoldChar('t') == 't';
    assert FoldChar('E') == 'e' && FoldChar('e') == 'e';
    assert SameIgnoringCase(t[2..6], b[0]);
  }

  lemma LastWordKept(t: string, b: seq<string>)
    requires Sentence(t) && b == ["hate"]
    ensures RedactWords(t, b, 7) == t[7..14]
  {
    SentenceTailRuns(t);
    assert |t[7..14]| != |b[0]|;
    assert !IsBanned(t[7..14], b);
    assert RedactWords(t, b, 14) == "";
  }

  lemma SentenceTail(t: string, b: seq<string>)
    requires Sentence(t) && b == ["hate"]
    ensures RedactWords(t, b, 6) == " carrots"
  {
    SentenceTailRuns(t);
    LastWordKept(t, b);
    assert t[6..7] + t[7..14] == t[6..];
  }

  lemma SentenceMiddle(t: string, b: seq<string>)
    requires Sentence(t) && b == ["hate"]
    ensures RedactWords(t, b, 2) == "beep" + RedactWords(t, b, 6)
  {
    SentenceWordRun(t);
    MiddleWordBanned(t, b);
  }

  lemma SentenceHead(t: string, b: seq<string>)
    requires Sentence(t) && b == ["hate"]
    ensures RedactWords(t, b, 0) == "I " + RedactWords(t, b, 2)
  {
    SentenceHeadRuns(t);
    assert |t[0..1]| != |b[0]|;
    assert !IsBanned(t[0..1], b);
    KeptStep(t, b, 0, 1);
    KeptStep(t, b, 1, 2);
    Joined(t[0..1], t[1..2], RedactWords(t, b, 2), "I ");
  }

  /** A run that is not a banned word is copied. */
  lemma KeptStep(text: string, banned: seq<string>, i: nat, j: nat)
    requires i < |text| && j == RunEnd(text, i)
    requires !IsWordChar(text[i]) || !IsBanned(text[i..j], banned)
    ensures RedactWords(text, banned, i) == text[i..j] + RedactWords(text, banned, j)
  {
  }

  lemma Joined(a: string, c: string, rest: string, ac: string)
    requires a + c == ac
    ensures a + (c + rest) == ac + rest
  {
  }

  lemma SentenceRedacted(t: string, b: seq<string>)
    requires Sentence(t) && b == ["hate"]
    ensures RedactWords(t, b, 0) == "I beep carrots"
  {
    SentenceHead(t, b);
    SentenceMiddle(t, b);
    SentenceTail(t, b);
    Pieces("I ", "beep", " carrots", "I beep carrots");
  }

  lemma Pieces(head: string, word: string, tail: string, whole: string)
    requires head == "I " && word == "beep" && tail == " carrots" && whole == "I beep carrots"
    ensures head + (word + tail) == whole
  {
  }

  /** Censoring against ["hate"] turns either sentence into "I beep carrots". */
  lemma BannedWordCensored(t: string, b: seq<string>)
    requires Sentence(t) && b == ["hate"]
    ensures CensorText(t, b) == "I beep carrots"
  {
    CensorRedactsWholeWords(t, b);
    SentenceRedacted(t, b);
  }

  lemma CensorExamples()
    ensures CensorText("I hate carrots", ["hate"]) == "I beep carrots"
    ensures CensorText("I HATE carrots", ["hate"]) == "I beep carrots"
  {
    BannedWordCensored("I hate carrots", ["hate"]);
    BannedWordCensored("I HATE carrots", ["hate"]);
  }

  lemma WholeWordRun(t: string)
    requires t == "hateful"
    ensures RunEnd(t, 0) == 7
  {
    assert RunEnd(t, 6) == 7;
    assert RunEnd(t, 5) == 7;
    assert RunEnd(t, 4) == 7;
    assert RunEnd(t, 3) == 7;
    assert RunEnd(t, 2) == 7;
    assert RunEnd(t, 1) == 7;
  }

  /** A word that only contains a banned word is not a match: "hateful" survives. */
  lemma ContainingWordKept(t: string, b: seq<string>)
    requires t == "hateful" && b == ["hate"]
    ensures CensorText(t, b) == t
  {
    CensorRedactsWholeWords(t, b);
    WholeWordRun(t);
    assert |t[0..7]| != |b[0]|;
    assert !IsBanned(t[0..7], b);
    assert RedactWords(t, b, 7) == "";
    assert t[0..7] == t;
  }
}
