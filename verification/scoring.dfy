/** Aggregate scoring (scoreCompute and secondScoreCompute in main.c):
    each word's score is the sum of its grades against every answer word,
    computed on private copies so that no stored word changes. */
module Scoring {
  import opened Grading
  import opened Ranking

  function WordsOf(s: seq<WordCount>): (r: seq<seq<char>>)
    ensures |r| == |s|
  {
    seq(|s|, i requires 0 <= i < |s| => s[i].word)
  }

  predicate AllBuffers(ws: seq<seq<char>>) {
    forall i :: 0 <= i < |ws| ==> IsBuffer(ws[i])
  }

  predicate AllReferences(ws: seq<seq<char>>) {
    forall i :: 0 <= i < |ws| ==> IsReference(ws[i])
  }

  /** The score scoreCompute gives a guess: its grades against every
      reference word, added up. */
  function SumGrades(refs: seq<seq<char>>, guess: seq<char>): int
    requires AllBuffers(refs) && IsBuffer(guess)
  {
    if |refs| == 0 then 0
    else SumGrades(refs[..|refs| - 1], guess) + Grade(refs[|refs| - 1], guess)
  }

  /** Each grade lies between 0 and 15, so a word scored against n
      reference words scores between 0 and 15 n. */
  lemma {:induction false} SumGradesBounds(refs: seq<seq<char>>, guess: seq<char>)
    requires AllReferences(refs) && IsWord(guess)
    ensures AllBuffers(refs) && IsBuffer(guess)
    ensures 0 <= SumGrades(refs, guess) <= FullGrade * |refs|
  {
    WordIsReference(guess);
    forall i | 0 <= i < |refs| ensures IsBuffer(refs[i]) {
      ReferenceIsBuffer(refs[i]);
    }
    if |refs| > 0 {
      var n := |refs| - 1;
      SumGradesBounds(refs[..n], guess);
      GradeBounds(refs[n], guess);
    }
  }

  /** A word that is itself one of the answers collects the full 15 from
      that answer, on top of what the others give. */
  lemma {:induction false} SumGradesSelf(refs: seq<seq<char>>, guess: seq<char>)
    requires AllReferences(refs) && IsWord(guess) && guess in refs
    ensures AllBuffers(refs) && IsBuffer(guess)
    ensures SumGrades(refs, guess) >= FullGrade
  {
    WordIsReference(guess);
    forall i | 0 <= i < |refs| ensures IsBuffer(refs[i]) {
      ReferenceIsBuffer(refs[i]);
    }
    var n := |refs| - 1;
    if refs[n] == guess {
      GradeSelf(guess);
      SumGradesBounds(refs[..n], guess);
    } else {
      assert guess in refs[..n] by {
        var p :| 0 <= p < |refs| && refs[p] == guess;
        assert refs[..n][p] == guess;
      }
      SumGradesSelf(refs[..n], guess);
      GradeBounds(refs[n], guess);
    }
  }

  /** strcpy of a word into a private buffer. */
  method ToBuffer(w: seq<char>) returns (a: array<char>)
    ensures fresh(a) && a[..] == w
  {
    a := new char[|w|](i requires 0 <= i < |w| => w[i]);
  }

  /** The inner loop of scoreCompute: the grades of guess against the
      first answersCounter answers, each taken on fresh copies of the
      two words, added up. */
  method GradeAgainstAll(answers: array<WordCount>, answersCounter: nat, guess: seq<char>)
    returns (pointAccumulated: int)
    requires answersCounter <= answers.Length
    requires AllBuffers(WordsOf(answers[..answersCounter])) && IsBuffer(guess)
    ensures pointAccumulated == SumGrades(WordsOf(answers[..answersCounter]), guess)
  {
    ghost var refs := WordsOf(answers[..answersCounter]);
    pointAccumulated := 0;
    var j := 0;
    while j < answersCounter
      invariant 0 <= j <= answersCounter
      invariant pointAccumulated == SumGrades(refs[..j], guess)
    {
      assert answers[j].word == refs[j];
      var wordOfReference := ToBuffer(answers[j].word);
      var wordOfCurrentGuess := ToBuffer(guess);
      var grade := ScoreAssigning(wordOfReference, wordOfCurrentGuess);
      assert refs[..j + 1][..j] == refs[..j];
      pointAccumulated := pointAccumulated + grade;
      j := j + 1;
    }
    assert refs[..answersCounter] == refs;
  }

  /** scoreCompute: each of the size records from begin gets as score the
      sum of its grades against the first answersCounter answers. Only
      those scores change; the answers may lie in the same array. */
  method ScoreCompute(words: array<WordCount>, begin: nat, answers: array<WordCount>,
                      answersCounter: nat, size: nat)
    requires begin + size <= words.Length && answersCounter <= answers.Length
    requires forall i :: begin <= i < begin + size ==> IsBuffer(words[i].word)
    requires AllBuffers(WordsOf(answers[..answersCounter]))
    modifies words
    ensures forall i :: 0 <= i < words.Length ==> words[i].word == old(words[i].word)
    ensures forall i :: 0 <= i < words.Length && !(begin <= i < begin + size) ==> words[i] == old(words[i])
    ensures forall i :: begin <= i < begin + size ==>
      words[i].score == SumGrades(WordsOf(old(answers[..answersCounter])), old(words[i].word))
  {
    ghost var refs := WordsOf(answers[..answersCounter]);
    var i := 0;
    while i < size
      invariant 0 <= i <= size
      invariant forall p :: 0 <= p < words.Length ==> words[p].word == old(words[p].word)
      invariant forall p :: 0 <= p < words.Length && !(begin <= p < begin + i) ==> words[p] == old(words[p])
      invariant forall p :: begin <= p < begin + i ==> words[p].score == SumGrades(refs, old(words[p].word))
      invariant WordsOf(answers[..answersCounter]) == refs
    {
      var pointAccumulated := GradeAgainstAll(answers, answersCounter, words[begin + i].word);
      words[begin + i] := words[begin + i].(score := pointAccumulated);
      assert WordsOf(answers[..answersCounter]) == refs by {
        forall p | 0 <= p < answersCounter ensures answers[p].word == refs[p] {
          assert answers[p].word == old(answers[p].word) || answers == words;
        }
      }
      i := i + 1;
    }
  }

  /** Each answer with the letters of word struck out by scoreAssigning. */
  function StrikeAll(refs: seq<seq<char>>, word: seq<char>): (r: seq<seq<char>>)
    requires AllBuffers(refs) && IsBuffer(word)
    ensures |r| == |refs| && AllBuffers(r)
    ensures AllReferences(refs) ==> AllReferences(r)
  {
    seq(|refs|, i requires 0 <= i < |refs| => StrikeOut(refs[i], word))
  }

  /** Striking a first word out of every answer removes from each
      exactly the letters it shares with that word. */
  lemma StrikeAllLetters(refs: seq<seq<char>>, word: seq<char>)
    requires AllReferences(refs) && IsWord(word)
    ensures AllBuffers(refs) && IsBuffer(word)
    ensures forall i :: 0 <= i < |refs| ==>
      Letters(StrikeAll(refs, word)[i]) == Letters(refs[i]) - multiset(word)
  {
    WordIsReference(word);
    forall i | 0 <= i < |refs| ensures IsBuffer(refs[i]) {
      ReferenceIsBuffer(refs[i]);
    }
    forall i | 0 <= i < |refs|
      ensures Letters(StrikeAll(refs, word)[i]) == Letters(refs[i]) - multiset(word)
    {
      StrikeOutLetters(refs[i], word);
    }
  }

  /** The blanking loop of secondScoreCompute: grades wordToRemove
      against each record of the copy, only to strike its letters out of
      the record's word. The grade is discarded, so every score stays. */
  method StrikeRecords(filtered: array<WordCount>, wordToRemove: seq<char>)
    requires AllBuffers(WordsOf(filtered[..])) && IsBuffer(wordToRemove)
    modifies filtered
    ensures WordsOf(filtered[..]) == StrikeAll(WordsOf(old(filtered[..])), wordToRemove)
    ensures forall p :: 0 <= p < filtered.Length ==> filtered[p].score == old(filtered[p].score)
  {
    ghost var refs := WordsOf(filtered[..]);
    ghost var struck := StrikeAll(refs, wordToRemove);
    var i := 0;
    while i < filtered.Length
      invariant 0 <= i <= filtered.Length
      invariant forall p :: 0 <= p < i ==> filtered[p].word == struck[p]
      invariant forall p :: i <= p < filtered.Length ==> filtered[p].word == refs[p]
      invariant forall p :: 0 <= p < filtered.Length ==> filtered[p].score == old(filtered[p].score)
    {
      var cpyRemoveWord := ToBuffer(wordToRemove);
      var answerBuffer := ToBuffer(filtered[i].word);
      var _ := ScoreAssigning(answerBuffer, cpyRemoveWord);
      filtered[i] := filtered[i].(word := answerBuffer[..]);
      i := i + 1;
    }
    assert WordsOf(filtered[..]) == struck;
  }

  /** secondScoreCompute: scores the size records from begin against the
      answers with wordToRemove's letters struck out of each. The
      striking is done on a private copy of the answers. */
  method SecondScoreCompute(words: array<WordCount>, begin: nat, answers: array<WordCount>,
                            answersCounter: nat, size: nat, wordToRemove: seq<char>)
    requires begin + size <= words.Length && answersCounter <= answers.Length
    requires forall i :: begin <= i < begin + size ==> IsBuffer(words[i].word)
    requires AllBuffers(WordsOf(answers[..answersCounter]))
    requires IsBuffer(wordToRemove)
    modifies words
    ensures forall i :: 0 <= i < words.Length ==> words[i].word == old(words[i].word)
    ensures answers != words ==> answers[..] == old(answers[..])
    ensures forall i :: 0 <= i < words.Length && !(begin <= i < begin + size) ==> words[i] == old(words[i])
    ensures forall i :: begin <= i < begin + size ==>
      words[i].score == SumGrades(StrikeAll(WordsOf(old(answers[..answersCounter])), wordToRemove), old(words[i].word))
  {
    var filteredWordArray := CopyRecords(answers, answersCounter);
    StrikeRecords(filteredWordArray, wordToRemove);
    assert filteredWordArray[..answersCounter] == filteredWordArray[..];
    ScoreCompute(words, begin, filteredWordArray, answersCounter, size);
  }
}
