/** The letter-frequency bonus of main.c (initializeLetterCountStruct,
    compareFunctionLetter and letterCompute): count how often each letter
    occurs in the eligible words, rank the letters by that count, and give
    every eligible word 10 - k points for each of its positions whose
    letter is the k-th ranked letter, for the five top ranks.

    The source diverges from this evident intent in three places; the
    model follows the intent, and each divergence is noted where it
    applies:
    - the counting loop never advances to the next word;
    - the bonus loop tests the first word's score instead of word i's;
    - the letter comparator hands single characters to strcmp. */
module LetterFrequency {
  import opened Grading
  import opened Sorting
  import opened Ranking

  /** letterCountStruct: a letter and how often it appears. */
  datatype LetterCount = LetterCount(letter: char, appearances: int)

  const AlphabetSize: nat := 26
  /** How many top-ranked letters earn a bonus. */
  const BonusRanks: nat := 5
  /** The bonus for the most frequent letter; rank k earns TopBonus - k. */
  const TopBonus: int := 10

  /** The k-th letter of the alphabet, the letter kept at index k of the
      counting array. */
  function LetterOf(k: nat): (c: char)
    requires k < AlphabetSize
    ensures IsLetter(c)
  {
    (('a' as int) + k) as char
  }

  /** The index at which a letter is counted (the letter minus 'a'). */
  function IndexOf(c: char): (k: nat)
    requires IsLetter(c)
    ensures k < AlphabetSize && LetterOf(k) == c
  {
    (c as int) - ('a' as int)
  }

  /** The counting array as initializeLetterCountStruct leaves it. */
  function Alphabet(): (r: seq<LetterCount>)
    ensures |r| == AlphabetSize
  {
    seq(AlphabetSize, k requires 0 <= k < AlphabetSize => LetterCount(LetterOf(k), 0))
  }

  /** Entry k of the counting array holds the k-th letter. */
  predicate Alphabetical(letters: seq<LetterCount>) {
    |letters| == AlphabetSize &&
    forall k :: 0 <= k < AlphabetSize ==> letters[k].letter == LetterOf(k)
  }

  /** initializeLetterCountStruct: the 26 entries become 'a' .. 'z', each
      with no appearances. */
  method InitializeLetterCounts(allLetters: array<LetterCount>)
    requires allLetters.Length == AlphabetSize
    modifies allLetters
    ensures allLetters[..] == Alphabet()
    ensures Alphabetical(allLetters[..])
  {
    var i := 0;
    while i < AlphabetSize
      invariant 0 <= i <= AlphabetSize
      invariant allLetters[..i] == Alphabet()[..i]
    {
      allLetters[i] := LetterCount(LetterOf(i), 0);
      i := i + 1;
    }
    assert allLetters[..] == allLetters[..AlphabetSize];
  }

  /** The order of letters by rank: more appearances first, equal counts
      in alphabetical order. The source compares the letters with strcmp,
      which expects strings; the comparison intended is the one of the
      two characters. */
  function CompareLetters(a: LetterCount, b: LetterCount): (r: int)
    ensures r == 0 <==> a == b
  {
    if a.appearances != b.appearances then b.appearances - a.appearances
    else if a.letter < b.letter then -1
    else if b.letter < a.letter then 1
    else 0
  }

  /** a may stand before b in the ranked letter array. */
  predicate LetterBefore(a: LetterCount, b: LetterCount) {
    CompareLetters(a, b) <= 0
  }

  /** compareFunctionLetter, as intended, is a consistent comparator: its
      sign flips with its arguments, it is zero only on equal entries, and
      it induces a total order. */
  lemma CompareLettersIsTotalOrder()
    ensures forall a, b :: CompareLetters(a, b) < 0 <==> CompareLetters(b, a) > 0
    ensures forall a, b :: CompareLetters(a, b) == 0 <==> a == b
    ensures IsTotalOrder(LetterBefore)
  {
  }

  /** A word takes part in the letter bonus only while its score is not
      negative. */
  predicate Eligible(w: WordCount) {
    w.score >= 0
  }

  /** How often c occurs in the eligible words of ws. */
  function Occurrences(ws: seq<WordCount>, c: char): (n: int)
    ensures n >= 0
  {
    if |ws| == 0 then 0
    else
      var last := ws[|ws| - 1];
      Occurrences(ws[..|ws| - 1], c) + (if Eligible(last) then multiset(last.word)[c] else 0)
  }

  /** The counting array after the first loop of letterCompute: each
      entry's count grows by the occurrences of its letter. */
  function TallyLetters(letters: seq<LetterCount>, ws: seq<WordCount>): (r: seq<LetterCount>)
    ensures |r| == |letters|
    ensures forall k :: 0 <= k < |r| ==> r[k].letter == letters[k].letter
  {
    seq(|letters|, k requires 0 <= k < |letters| =>
      letters[k].(appearances := letters[k].appearances + Occurrences(ws, letters[k].letter)))
  }

  /** The letters of the ranked entries, in rank order. */
  function RankedLetters(top: seq<LetterCount>): (r: seq<char>)
    ensures |r| == |top|
  {
    seq(|top|, k requires 0 <= k < |top| => top[k].letter)
  }

  /** The bonus one letter earns: TopBonus - k for the first rank k that
      holds it, nothing when no rank does. */
  function LetterBonus(c: char, top: seq<LetterCount>): int {
    match Find(RankedLetters(top), c)
    case Some(k) => TopBonus - k
    case None => 0
  }

  /** The bonus a word earns: the bonuses of its letters, position by
      position. */
  function WordBonus(w: seq<char>, top: seq<LetterCount>): int {
    if |w| == 0 then 0
    else WordBonus(w[..|w| - 1], top) + LetterBonus(w[|w| - 1], top)
  }

  /** An eligible word with its bonus added. */
  function WithBonus(w: WordCount, top: seq<LetterCount>): WordCount {
    if Eligible(w) then w.(score := w.score + WordBonus(w.word, top)) else w
  }

  /** The words after the bonus loop of letterCompute. */
  function ApplyBonus(ws: seq<WordCount>, top: seq<LetterCount>): (r: seq<WordCount>)
    ensures |r| == |ws|
  {
    seq(|ws|, i requires 0 <= i < |ws| => WithBonus(ws[i], top))
  }

  /** No letter is held by two entries. */
  predicate DistinctLetters(letters: seq<LetterCount>) {
    forall i, j :: 0 <= i < j < |letters| ==> letters[i].letter != letters[j].letter
  }

  /** With distinct letters, the letter at rank k earns exactly
      TopBonus - k; a letter no rank holds earns nothing. */
  lemma LetterBonusRank(top: seq<LetterCount>, k: nat, c: char)
    requires DistinctLetters(top) && k < |top|
    ensures LetterBonus(top[k].letter, top) == TopBonus - k
    ensures c !in RankedLetters(top) ==> LetterBonus(c, top) == 0
  {
    var ranked := RankedLetters(top);
    assert top[k].letter !in ranked[..k] by {
      forall p | 0 <= p < k ensures ranked[..k][p] != top[k].letter {
        assert ranked[..k][p] == top[p].letter;
      }
    }
    FindFirst(ranked, top[k].letter, k);
  }

  /** Every rank among the first BonusRanks earns between 1 and TopBonus,
      so a word earns at most TopBonus per letter. */
  lemma {:induction false} WordBonusBounds(w: seq<char>, top: seq<LetterCount>)
    requires |top| <= BonusRanks
    ensures 0 <= WordBonus(w, top) <= TopBonus * |w|
  {
    if |w| > 0 {
      WordBonusBounds(w[..|w| - 1], top);
    }
  }

  /** A word earns no bonus exactly when none of its letters is ranked. */
  lemma {:induction false} NoBonusIffUnranked(w: seq<char>, top: seq<LetterCount>)
    requires |top| <= BonusRanks
    ensures WordBonus(w, top) == 0 <==> forall j :: 0 <= j < |w| ==> w[j] !in RankedLetters(top)
  {
    if |w| > 0 {
      var n := |w| - 1;
      NoBonusIffUnranked(w[..n], top);
      WordBonusBounds(w[..n], top);
      if WordBonus(w, top) == 0 {
        forall j | 0 <= j < |w| ensures w[j] !in RankedLetters(top) {
          if j < n {
            assert w[..n][j] == w[j];
          }
        }
      } else if forall j :: 0 <= j < |w| ==> w[j] !in RankedLetters(top) {
        forall j | 0 <= j < n ensures w[..n][j] !in RankedLetters(top) {
          assert w[..n][j] == w[j];
        }
      }
    }
  }

  /** An element held at two positions occurs at least twice. */
  lemma Twice<T>(s: seq<T>, i: nat, j: nat)
    requires i < j < |s| && s[i] == s[j]
    ensures multiset(s)[s[i]] >= 2
  {
    assert s == s[..j] + s[j..];
    assert s[i] == s[..j][i];
    assert s[j] == s[j..][0];
  }

  /** In a sequence of distinct elements each occurs once. */
  lemma Once<T>(s: seq<T>, a: nat)
    requires a < |s| && forall i, j :: 0 <= i < j < |s| ==> s[i] != s[j]
    ensures multiset(s)[s[a]] == 1
  {
    assert s == s[..a] + [s[a]] + s[a + 1..];
    assert s[a] !in s[..a] && s[a] !in s[a + 1..];
  }

  /** Any rearrangement of an alphabetical counting array holds at each
      position the entry of that position's letter. */
  lemma PermutedEntries(t: seq<LetterCount>, r: seq<LetterCount>)
    requires Alphabetical(t) && multiset(r) == multiset(t)
    ensures |r| == AlphabetSize
    ensures forall i :: 0 <= i < |r| ==> IsLetter(r[i].letter) && r[i] == t[IndexOf(r[i].letter)]
  {
    assert |r| == |multiset(r)| == |multiset(t)| == AlphabetSize;
    forall i | 0 <= i < |r| ensures IsLetter(r[i].letter) && r[i] == t[IndexOf(r[i].letter)] {
      assert r[i] in multiset(t);
      var a :| 0 <= a < AlphabetSize && r[i] == t[a];
      assert IndexOf(r[i].letter) == a;
    }
  }

  /** A rearrangement of an alphabetical counting array still holds each
      letter exactly once. */
  lemma PermutedLetters(t: seq<LetterCount>, r: seq<LetterCount>)
    requires Alphabetical(t) && multiset(r) == multiset(t)
    ensures DistinctLetters(r)
    ensures forall c :: IsLetter(c) ==> c in RankedLetters(r)
  {
    PermutedEntries(t, r);
    forall i, j | 0 <= i < j < |r| ensures r[i].letter != r[j].letter {
      if r[i].letter == r[j].letter {
        var a := IndexOf(r[i].letter);
        Twice(r, i, j);
        Once(t, a);
        assert false;
      }
    }
    forall c | IsLetter(c) ensures c in RankedLetters(r) {
      var k := IndexOf(c);
      assert t[k] in multiset(r);
      var i :| 0 <= i < |r| && r[i] == t[k];
      assert RankedLetters(r)[i] == c;
    }
  }

  /** The letter array letterCompute ranks holds each letter of the
      alphabet once, with its count, in order of non-increasing count:
      the first BonusRanks entries are the most frequent letters. */
  lemma RankedTally(letters: seq<LetterCount>, ws: seq<WordCount>)
    requires Alphabetical(letters)
    ensures var r := SortSeq(TallyLetters(letters, ws), LetterBefore);
      && |r| == AlphabetSize
      && DistinctLetters(r)
      && (forall c :: IsLetter(c) ==> c in RankedLetters(r))
      && (forall i :: 0 <= i < |r| ==> IsLetter(r[i].letter))
      && (forall i :: 0 <= i < |r| ==>
            r[i].appearances == letters[IndexOf(r[i].letter)].appearances + Occurrences(ws, r[i].letter))
      && (forall i, j :: 0 <= i < j < |r| ==> r[i].appearances >= r[j].appearances)
      && (forall i, j :: 0 <= i < j < |r| && r[i].appearances == r[j].appearances ==> r[i].letter < r[j].letter)
  {
    var t := TallyLetters(letters, ws);
    var r := SortSeq(t, LetterBefore);
    assert IsTotalOrder(LetterBefore) by { CompareLettersIsTotalOrder(); }
    SortSeqSorted(t, LetterBefore);
    PermutedEntries(t, r);
    PermutedLetters(t, r);
    forall i, j | 0 <= i < j < |r|
      ensures r[i].appearances >= r[j].appearances
      ensures r[i].appearances == r[j].appearances ==> r[i].letter < r[j].letter
    {
      assert LetterBefore(r[i], r[j]);
    }
  }

  /** The counting loop as the source writes it: the word pointer is
      never advanced, so each of the |ws| rounds counts the first word
      again, and only the first word's score is tested. */
  function OccurrencesAsWritten(ws: seq<WordCount>, c: char): (n: int)
    ensures n == if |ws| > 0 && Eligible(ws[0]) then |ws| * multiset(ws[0].word)[c] else 0
  {
    if |ws| == 0 then 0
    else
      var rest := ws[..|ws| - 1];
      assert |rest| > 0 ==> rest[0] == ws[0];
      OccurrencesAsWritten(rest, c) + (if Eligible(ws[0]) then multiset(ws[0].word)[c] else 0)
  }

  /** The counting array after the source's counting loop. */
  function TallyLettersAsWritten(letters: seq<LetterCount>, ws: seq<WordCount>): (r: seq<LetterCount>)
    ensures |r| == |letters|
  {
    seq(|letters|, k requires 0 <= k < |letters| =>
      letters[k].(appearances := letters[k].appearances + OccurrencesAsWritten(ws, letters[k].letter)))
  }

  /** With the words "abcde" and "fghij", the source's counting loop
      credits 'a' twice and 'f' never, where the letters occur once each. */
  lemma CountingLoopMissesLaterWords()
    ensures var ws := [WordCount("abcde", 0), WordCount("fghij", 0)];
      && TallyLettersAsWritten(Alphabet(), ws)[0].appearances == 2
      && TallyLettersAsWritten(Alphabet(), ws)[5].appearances == 0
      && TallyLetters(Alphabet(), ws)[0].appearances == 1
      && TallyLetters(Alphabet(), ws)[5].appearances == 1
  {
    var ws := [WordCount("abcde", 0), WordCount("fghij", 0)];
    var alphabet := Alphabet();
    assert alphabet[0] == LetterCount('a', 0) && alphabet[5] == LetterCount('f', 0);
    AsWrittenCounts(ws);
    IntendedCounts(ws);
  }

  lemma AsWrittenCounts(ws: seq<WordCount>)
    requires ws == [WordCount("abcde", 0), WordCount("fghij", 0)]
    ensures OccurrencesAsWritten(ws, 'a') == 2 && OccurrencesAsWritten(ws, 'f') == 0
  {
    LetterCountOnce("abcde", 'a', 'f');
  }

  lemma IntendedCounts(ws: seq<WordCount>)
    requires ws == [WordCount("abcde", 0), WordCount("fghij", 0)]
    ensures Occurrences(ws, 'a') == 1 && Occurrences(ws, 'f') == 1
  {
    LetterCountOnce("abcde", 'a', 'f');
    LetterCountOnce("fghij", 'f', 'a');
    TwoWordOccurrences(ws, 'a');
    TwoWordOccurrences(ws, 'f');
  }

  /** A word beginning with a letter it holds once, and without another
      letter, counts them once and never. */
  lemma LetterCountOnce(w: seq<char>, c: char, d: char)
    requires |w| > 0 && w[0] == c && c !in w[1..] && d !in w
    ensures multiset(w)[c] == 1 && multiset(w)[d] == 0
  {
    assert w == [c] + w[1..];
  }

  /** The intended count over two words adds up both. */
  lemma TwoWordOccurrences(ws: seq<WordCount>, c: char)
    requires |ws| == 2 && Eligible(ws[0]) && Eligible(ws[1])
    ensures Occurrences(ws, c) == multiset(ws[0].word)[c] + multiset(ws[1].word)[c]
  {
    var first := ws[..1];
    assert first[..0] == [] && first[0] == ws[0];
    assert Occurrences(first, c) == multiset(ws[0].word)[c];
    assert Occurrences(ws, c) == Occurrences(first, c) + multiset(ws[1].word)[c];
  }

  /** The bonus loop as the source writes it: the eligibility test reads
      the first word's score on every round, so either every word gains
      its bonus or none does. */
  function ApplyBonusAsWritten(ws: seq<WordCount>, top: seq<LetterCount>): (r: seq<WordCount>)
    ensures |r| == |ws|
    ensures |ws| > 0 && !Eligible(ws[0]) ==> r == ws
  {
    seq(|ws|, i requires 0 <= i < |ws| =>
      if Eligible(ws[0]) then ws[i].(score := ws[i].score + WordBonus(ws[i].word, top)) else ws[i])
  }

  /** With a first word of negative score, the source's bonus loop gives
      nothing to an eligible second word that holds the top-ranked
      letter, where that word should gain at least TopBonus. */
  lemma BonusLoopTestsFirstWord(top: seq<LetterCount>)
    requires |top| == BonusRanks && top[0].letter == 'a'
    ensures var ws := [WordCount("xylyl", -1), WordCount("bcdea", 0)];
      && ApplyBonusAsWritten(ws, top)[1].score == 0
      && ApplyBonus(ws, top)[1].score >= TopBonus
  {
    var w := "bcdea";
    FindFirst(RankedLetters(top), 'a', 0);
    assert LetterBonus('a', top) == TopBonus;
    WordBonusBounds(w[..4], top);
    assert WordBonus(w, top) == WordBonus(w[..4], top) + LetterBonus('a', top);
  }

  /** The sum of the counts of a counting array. */
  function Total(letters: seq<LetterCount>): int {
    if |letters| == 0 then 0
    else Total(letters[..|letters| - 1]) + letters[|letters| - 1].appearances
  }

  /** How many words of ws are eligible. */
  function EligibleCount(ws: seq<WordCount>): (n: nat)
    ensures n <= |ws|
  {
    if |ws| == 0 then 0
    else EligibleCount(ws[..|ws| - 1]) + (if Eligible(ws[|ws| - 1]) then 1 else 0)
  }

  /** Adding one to one entry adds one to the total. */
  lemma {:induction false} TotalIncrement(letters: seq<LetterCount>, x: nat)
    requires x < |letters|
    ensures Total(letters[x := letters[x].(appearances := letters[x].appearances + 1)]) == Total(letters) + 1
  {
    var n := |letters| - 1;
    var updated := letters[x := letters[x].(appearances := letters[x].appearances + 1)];
    if x < n {
      TotalIncrement(letters[..n], x);
      assert updated[..n] == letters[..n][x := letters[x].(appearances := letters[x].appearances + 1)];
    } else {
      assert updated[..n] == letters[..n];
    }
  }

  /** Counting the first j letters of a word adds j to the total. */
  lemma {:induction false} AddLettersTotal(letters: seq<LetterCount>, w: seq<char>, j: nat)
    requires Alphabetical(letters) && j <= |w| && forall i :: 0 <= i < |w| ==> IsLetter(w[i])
    ensures Total(AddLetters(letters, w[..j])) == Total(letters) + j
  {
    if j == 0 {
      assert AddLetters(letters, w[..0]) == letters;
    } else {
      AddLettersTotal(letters, w, j - 1);
      AddLettersStep(letters, w, j - 1);
      TotalIncrement(AddLetters(letters, w[..j - 1]), IndexOf(w[j - 1]));
    }
  }

  /** Every letter of every eligible word is counted exactly once: the
      counts grow in total by five per eligible word. */
  lemma {:induction false} TallyTotal(letters: seq<LetterCount>, ws: seq<WordCount>)
    requires Alphabetical(letters)
    requires forall i :: 0 <= i < |ws| && Eligible(ws[i]) ==> IsWord(ws[i].word)
    ensures Total(TallyLetters(letters, ws)) == Total(letters) + WordLength * EligibleCount(ws)
  {
    if |ws| == 0 {
      assert TallyLetters(letters, ws) == letters;
    } else {
      var n := |ws| - 1;
      TallyTotal(letters, ws[..n]);
      TallyStep(letters, ws, n);
      assert ws[..n + 1] == ws;
      if Eligible(ws[n]) {
        var w := ws[n].word;
        AddLettersTotal(TallyLetters(letters, ws[..n]), w, WordLength);
        assert w[..WordLength] == w;
      }
    }
  }

  /** The counting array after the letters of w have been counted. */
  function AddLetters(letters: seq<LetterCount>, w: seq<char>): (r: seq<LetterCount>)
    ensures |r| == |letters|
  {
    seq(|letters|, k requires 0 <= k < |letters| =>
      letters[k].(appearances := letters[k].appearances + multiset(w)[letters[k].letter]))
  }

  /** Counting one more letter adds one to the entry at its index. */
  lemma AddLettersStep(letters: seq<LetterCount>, w: seq<char>, j: nat)
    requires Alphabetical(letters) && j < |w| && IsLetter(w[j])
    ensures Alphabetical(AddLetters(letters, w[..j]))
    ensures var before := AddLetters(letters, w[..j]); var x := IndexOf(w[j]);
      AddLetters(letters, w[..j + 1]) == before[x := before[x].(appearances := before[x].appearances + 1)]
  {
    assert w[..j + 1] == w[..j] + [w[j]];
  }

  /** Counting the next word of ws adds its letters when it is eligible. */
  lemma TallyStep(letters: seq<LetterCount>, ws: seq<WordCount>, i: nat)
    requires i < |ws|
    ensures TallyLetters(letters, ws[..i + 1]) ==
      if Eligible(ws[i]) then AddLetters(TallyLetters(letters, ws[..i]), ws[i].word)
      else TallyLetters(letters, ws[..i])
  {
    assert ws[..i + 1][..i] == ws[..i];
  }

  /** The innermost counting loop of letterCompute: each letter of word
      adds one to the entry at its index. */
  method CountWord(allLetters: array<LetterCount>, word: seq<char>)
    requires Alphabetical(allLetters[..]) && IsWord(word)
    modifies allLetters
    ensures allLetters[..] == AddLetters(old(allLetters[..]), word)
  {
    ghost var counted := allLetters[..];
    var j := 0;
    while j < WordLength
      invariant 0 <= j <= WordLength
      invariant allLetters[..] == AddLetters(counted, word[..j])
    {
      AddLettersStep(counted, word, j);
      var x := IndexOf(word[j]);
      allLetters[x] := allLetters[x].(appearances := allLetters[x].appearances + 1);
      j := j + 1;
    }
    assert word[..WordLength] == word;
  }

  /** The counting loop of letterCompute: every letter of every eligible
      word among the first counter adds one to its letter's entry. In the
      source this loop reads the first word on every round. */
  method CountLetters(allWords: array<WordCount>, allLetters: array<LetterCount>, counter: nat)
    requires counter <= allWords.Length
    requires forall i :: 0 <= i < counter && Eligible(allWords[i]) ==> IsWord(allWords[i].word)
    requires Alphabetical(allLetters[..])
    modifies allLetters
    ensures allLetters[..] == TallyLetters(old(allLetters[..]), allWords[..counter])
  {
    ghost var words0 := allWords[..counter];
    ghost var letters0 := allLetters[..];
    var i := 0;
    while i < counter
      invariant 0 <= i <= counter
      invariant allLetters[..] == TallyLetters(letters0, words0[..i])
    {
      TallyStep(letters0, words0, i);
      if allWords[i].score >= 0 {
        CountWord(allLetters, allWords[i].word);
      }
      i := i + 1;
    }
    assert words0[..counter] == words0;
  }

  /** The rank search of letterCompute: the bonus c earns from the first
      BonusRanks entries of the ranked letters. */
  method RankBonus(allLetters: array<LetterCount>, c: char) returns (bonus: int)
    requires BonusRanks <= allLetters.Length
    ensures bonus == LetterBonus(c, allLetters[..BonusRanks])
  {
    ghost var top := allLetters[..BonusRanks];
    var k := 0;
    while k < BonusRanks
      invariant 0 <= k <= BonusRanks
      invariant c !in RankedLetters(top)[..k]
    {
      if c == allLetters[k].letter {
        FindFirst(RankedLetters(top), c, k);
        return TopBonus - k;
      }
      k := k + 1;
    }
    assert RankedLetters(top)[..k] == RankedLetters(top);
    bonus := 0;
  }

  /** The loop over the positions of one word in letterCompute's bonus
      loop: the bonuses of its letters, added up. */
  method WordBonusOf(allLetters: array<LetterCount>, word: seq<char>) returns (bonus: int)
    requires BonusRanks <= allLetters.Length && |word| == WordLength
    ensures bonus == WordBonus(word, allLetters[..BonusRanks])
  {
    ghost var top := allLetters[..BonusRanks];
    bonus := 0;
    var j := 0;
    while j < WordLength
      invariant 0 <= j <= WordLength
      invariant bonus == WordBonus(word[..j], top)
    {
      var letterBonus := RankBonus(allLetters, word[j]);
      assert word[..j + 1][..j] == word[..j];
      bonus := bonus + letterBonus;
      j := j + 1;
    }
    assert word[..WordLength] == word;
  }

  /** The bonus loop of letterCompute: every eligible word among the
      first counter gains the bonus of its letters. In the source the
      eligibility test looks at the first word's score, not word i's. */
  method AddBonuses(allWords: array<WordCount>, allLetters: array<LetterCount>, counter: nat)
    requires counter <= allWords.Length && BonusRanks <= allLetters.Length
    requires forall i :: 0 <= i < counter && Eligible(allWords[i]) ==> |allWords[i].word| == WordLength
    modifies allWords
    ensures allWords[..counter] == ApplyBonus(old(allWords[..counter]), allLetters[..BonusRanks])
    ensures allWords[counter..] == old(allWords[counter..])
  {
    ghost var words0 := allWords[..counter];
    ghost var top := allLetters[..BonusRanks];
    var i := 0;
    while i < counter
      invariant 0 <= i <= counter
      invariant forall p :: 0 <= p < i ==> allWords[p] == WithBonus(words0[p], top)
      invariant forall p :: i <= p < counter ==> allWords[p] == words0[p]
      invariant allWords[counter..] == old(allWords[counter..])
    {
      if allWords[i].score >= 0 {
        var bonus := WordBonusOf(allLetters, allWords[i].word);
        allWords[i] := allWords[i].(score := allWords[i].score + bonus);
      }
      i := i + 1;
    }
    assert allWords[..counter] == ApplyBonus(words0, top);
  }

  /** letterCompute: counts the letters of the first counter words whose
      score is not negative, ranks the letters, adds the bonus of the five
      top-ranked letters to each such word, and re-ranks the words. */
  method LetterCompute(allWords: array<WordCount>, allLetters: array<LetterCount>, counter: nat)
    requires counter <= allWords.Length
    requires forall i :: 0 <= i < counter && Eligible(allWords[i]) ==> IsWord(allWords[i].word)
    requires Alphabetical(allLetters[..])
    modifies allWords, allLetters
    ensures allLetters[..] == SortSeq(TallyLetters(old(allLetters[..]), old(allWords[..counter])), LetterBefore)
    ensures allWords[..counter] ==
      SortSeq(ApplyBonus(old(allWords[..counter]), allLetters[..BonusRanks]), RankedBefore)
    ensures allWords[counter..] == old(allWords[counter..])
  {
    ghost var words0 := allWords[..counter];
    ghost var tally := TallyLetters(allLetters[..], words0);
    CountLetters(allWords, allLetters, counter);
    assert allLetters[..AlphabetSize] == allLetters[..] == tally;
    assert IsTotalOrder(LetterBefore) by { CompareLettersIsTotalOrder(); }
    SortPrefix(allLetters, AlphabetSize, LetterBefore);
    assert allLetters[..AlphabetSize] == allLetters[..];
    ghost var top := allLetters[..BonusRanks];
    AddBonuses(allWords, allLetters, counter);
    assert allWords[..counter] == ApplyBonus(words0, top);
    assert IsTotalOrder(RankedBefore) by { CompareRecordsIsTotalOrder(); }
    SortPrefix(allWords, counter, RankedBefore);
  }
}
