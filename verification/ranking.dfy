/** The ranked word bank of main.c: records of a word and its score,
    compareFunction's order on them, and the operations that copy,
    reset and inspect an array of records. */
module Ranking {
  import opened Sorting

  /** wordCountStruct: a word and its score. */
  datatype WordCount = WordCount(word: seq<char>, score: int)

  /** strcmp on terminator-free strings, reduced to its sign: negative
      when a sorts first, zero when the strings are equal. A proper
      prefix sorts first, because the terminator is below every letter. */
  function StrCmp(a: seq<char>, b: seq<char>): (r: int)
    ensures -1 <= r <= 1
    ensures r == 0 <==> a == b
  {
    if |a| == 0 then (if |b| == 0 then 0 else -1)
    else if |b| == 0 then 1
    else if a[0] < b[0] then -1
    else if b[0] < a[0] then 1
    else
      assert a == [a[0]] + a[1..] && b == [b[0]] + b[1..];
      StrCmp(a[1..], b[1..])
  }

  /** Swapping the arguments of strcmp flips its sign. */
  lemma {:induction false} StrCmpFlip(a: seq<char>, b: seq<char>)
    ensures StrCmp(a, b) == -StrCmp(b, a)
  {
    if |a| > 0 && |b| > 0 && a[0] == b[0] {
      StrCmpFlip(a[1..], b[1..]);
    }
  }

  /** strcmp's order is transitive. */
  lemma {:induction false} StrCmpTransitive(a: seq<char>, b: seq<char>, c: seq<char>)
    requires StrCmp(a, b) <= 0 && StrCmp(b, c) <= 0
    ensures StrCmp(a, c) <= 0
  {
    if |a| > 0 && |b| > 0 && |c| > 0 && a[0] == b[0] == c[0] {
      StrCmpTransitive(a[1..], b[1..], c[1..]);
    }
  }

  /** compareFunction: higher scores first, equal scores in alphabetical
      order of their words. */
  function CompareRecords(a: WordCount, b: WordCount): (r: int)
    ensures r == 0 <==> a == b
  {
    if a.score != b.score then b.score - a.score
    else StrCmp(a.word, b.word)
  }

  /** a may stand before b in the ranked array. */
  predicate RankedBefore(a: WordCount, b: WordCount) {
    CompareRecords(a, b) <= 0
  }

  /** compareFunction is a consistent comparator: its sign flips with
      its arguments, it is zero only on equal records, and the order it
      induces is a total order. */
  lemma CompareRecordsIsTotalOrder()
    ensures forall a, b :: CompareRecords(a, b) < 0 <==> CompareRecords(b, a) > 0
    ensures forall a, b :: CompareRecords(a, b) == 0 <==> a == b
    ensures IsTotalOrder(RankedBefore)
  {
    forall a, b ensures CompareRecords(a, b) < 0 <==> CompareRecords(b, a) > 0 {
      StrCmpFlip(a.word, b.word);
    }
    forall a, b ensures RankedBefore(a, b) || RankedBefore(b, a) {
      StrCmpFlip(a.word, b.word);
    }
    forall a, b, c | RankedBefore(a, b) && RankedBefore(b, c) ensures RankedBefore(a, c) {
      if a.score == b.score == c.score {
        StrCmpTransitive(a.word, b.word, c.word);
      }
    }
    forall a, b | RankedBefore(a, b) && RankedBefore(b, a) ensures a == b {
      StrCmpFlip(a.word, b.word);
    }
  }

  /** In a ranked sequence the scores never increase, and records of
      equal score stand in alphabetical order of their words. */
  lemma RankedScoresDescend(s: seq<WordCount>, i: nat, j: nat)
    requires Sorted(s, RankedBefore) && i <= j < |s|
    ensures s[i].score >= s[j].score
    ensures i < j && s[i].score == s[j].score ==> StrCmp(s[i].word, s[j].word) <= 0
  {
    if i < j {
      assert RankedBefore(s[i], s[j]);
    }
  }

  /** wordStructArrayCopy: a fresh array holding the first size records. */
  method CopyRecords(src: array<WordCount>, size: nat) returns (dest: array<WordCount>)
    requires size <= src.Length
    ensures fresh(dest) && dest[..] == src[..size]
  {
    dest := new WordCount[size];
    var i := 0;
    while i < size
      invariant 0 <= i <= size
      invariant dest[..i] == src[..i]
    {
      dest[i] := WordCount(src[i].word, src[i].score);
      i := i + 1;
    }
  }

  function ZeroScores(s: seq<WordCount>): (r: seq<WordCount>)
    ensures |r| == |s|
  {
    seq(|s|, i requires 0 <= i < |s| => s[i].(score := 0))
  }

  /** scoreReset: every score of the first counter records becomes 0 and
      those records are re-ranked, which leaves them in alphabetical
      order; the words themselves are kept. */
  method ScoreReset(allWords: array<WordCount>, counter: nat)
    requires counter <= allWords.Length
    modifies allWords
    ensures allWords[..counter] == SortSeq(ZeroScores(old(allWords[..counter])), RankedBefore)
    ensures multiset(allWords[..counter]) == multiset(ZeroScores(old(allWords[..counter])))
    ensures forall i :: 0 <= i < counter ==> allWords[i].score == 0
    ensures forall i, j :: 0 <= i < j < counter ==> StrCmp(allWords[i].word, allWords[j].word) <= 0
    ensures allWords[counter..] == old(allWords[counter..])
  {
    ghost var zeroed := ZeroScores(allWords[..counter]);
    var i := 0;
    while i < counter
      invariant 0 <= i <= counter
      invariant allWords[..i] == zeroed[..i]
      invariant allWords[i..] == old(allWords[i..])
    {
      allWords[i] := allWords[i].(score := 0);
      i := i + 1;
    }
    assert allWords[..counter] == zeroed;
    CompareRecordsIsTotalOrder();
    SortPrefix(allWords, counter, RankedBefore);
    forall i | 0 <= i < counter ensures allWords[i].score == 0 {
      assert allWords[..counter][i] in multiset(zeroed);
    }
    forall i, j | 0 <= i < j < counter ensures StrCmp(allWords[i].word, allWords[j].word) <= 0 {
      assert allWords[..counter][i] == allWords[i] && allWords[..counter][j] == allWords[j];
      assert RankedBefore(allWords[i], allWords[j]);
    }
  }

  /** The tie count at the start of bestSecondWordsProcessing: how many
      records at the front share the first record's score. The source
      does not stop at the end of the array; here the count stops at n. */
  method CountTopTies(allWords: array<WordCount>, n: nat) returns (ties: nat)
    requires 0 < n <= allWords.Length
    ensures 1 <= ties <= n
    ensures forall i :: 0 <= i < ties ==> allWords[i].score == allWords[0].score
    ensures ties < n ==> allWords[ties].score != allWords[0].score
    ensures Sorted(allWords[..n], RankedBefore) ==>
      forall i :: ties <= i < n ==> allWords[i].score < allWords[0].score
  {
    var highestScore := allWords[0].score;
    ties := 0;
    while ties < n && allWords[ties].score == highestScore
      invariant 0 <= ties <= n
      invariant forall i :: 0 <= i < ties ==> allWords[i].score == highestScore
    {
      ties := ties + 1;
    }
    if Sorted(allWords[..n], RankedBefore) {
      forall i | ties <= i < n ensures allWords[i].score < highestScore {
        RankedScoresDescend(allWords[..n], 0, ties);
        RankedScoresDescend(allWords[..n], ties, i);
      }
    }
  }
}
