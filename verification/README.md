# Wordle word scorer — a verified model of its scoring engine

The program (`main.c`) ranks a bank of five-letter words by how good they are
as guesses in Wordle. Its scoring engine has five parts, each modelled here
and given a specification against which the imperative code is proved:

- **Grading** (`grading.dfy`, module `Grading`): `scoreAssigning` grades a guess
  against a reference word in place. An exact pass gives 3 points for each
  position where the letters agree and blanks both letters (`' '` in the
  reference, `'-'` in the guess). A partial pass then gives 1 point for each
  guess letter still found in the reference, and blanks the first such
  occurrence. The pure functions `ExactPass`, `PartialPass` and `Grade` follow
  those two passes step by step. The method `ScoreAssigning` carries them out
  on two arrays and is proved to leave exactly that state. An independent
  counting characterisation follows: 3 points per matched position, plus the
  size of the multiset intersection of the unmatched letters. From it come
  the bounds, the full grade, symmetry and the letters a grading consumes.
- **Ranking** (`ranking.dfy`, module `Ranking`; `sorting.dfy`, module
  `Sorting`): `compareFunction` orders records by descending score, then by
  `strcmp` of the words. The model proves it is a total order. `qsort` is
  specified by a reference insertion sort. Under a total order any sorted
  permutation equals that sort, so the result does not depend on the library.
  The module also holds `wordStructArrayCopy`, `scoreReset` and the
  tie-counting loop at the start of `bestSecondWordsProcessing`.
- **Aggregate scoring** (`scoring.dfy`, module `Scoring`): `scoreCompute` gives
  each word the sum of its grades against every answer. The grading runs on
  fresh copies of the buffers, so no stored word changes. `secondScoreCompute`
  first strikes a chosen word's letters out of a private copy of the answers,
  then scores against that copy.
- **Letter-frequency bonus** (`letters.dfy`, module `LetterFrequency`):
  `initializeLetterCountStruct`, `compareFunctionLetter` and `letterCompute`.
  The letters of the eligible words (score not negative) are counted and
  ranked by count. Each eligible word gains `10 - k` for every position whose
  letter holds rank `k < 5`. Then the words are re-ranked.

Where the code of `letterCompute` departs from its evident intent, the model
follows the intent and says so in a comment (see "## Findings"):
- the counting loop never advances its word pointer (`main.c:375-381`);
- the bonus loop tests the first word's score instead of word `i`'s
  (`main.c:386`);
- `compareFunctionLetter` passes single characters to `strcmp`
  (`main.c:121`). Here two letters are compared as characters.

The integer grade is symmetric between two five-letter words, although
Wordle's per-letter colours are not: `Grading.GradeSymmetric` proves
`Grade(a, b) == Grade(b, a)`. The lemma does not cover a reference buffer
that already holds blanks, as `secondScoreCompute` builds.

The inner loops of `scoreCompute` and `letterCompute`, and the blanking loop
of `secondScoreCompute`, are each their own method (`GradeAgainstAll`,
`CountWord`, `WordBonusOf`, `RankBonus`, `StrikeRecords`), called where the source runs the loop.
`WordBonusOf` adds up a word's bonuses before adding them to its score. The
source adds each bonus to the score as it goes. The final score is the same.

C's `strcmp` is modelled by the sign of its result (-1, 0 or 1). Every use in
the source only tests or returns that sign, through `qsort`.

## Model

| member | source | states |
|---|---|---|
| Grading.ExactPass | main.c:190-198 | The exact pass over the first k positions keeps both buffers' lengths; its points are characterised by `GradeCounts` and `GradeBounds` |
| Grading.PartialPass | main.c:200-206 | The partial pass leaves the guess as it is and keeps the reference's length; `PartialPassCounts` states what it earns and consumes |
| Grading.Assign | main.c:187-211 | The state after both passes; `StrikeOut` and `StrikeOutLetters` state what it leaves in the reference |
| Grading.Grade | main.c:187-211 | The points of both passes; `GradeCounts`, `GradeBounds`, `GradeFullIffEqual` and `GradeSymmetric` state its properties |
| Grading.ScoreAssigning | main.c:187-211 | Returns `Grade` of the original buffers. Leaves the reference as `StrikeOut` of it and the guess as after the two passes; each loop keeps the state equal to the pass function up to its position |
| Grading.StrChr | main.c:203-205 | Returns the first position holding the character, or none when it is absent, as `Find` |
| Grading.Find | main.c:203-205 | A found position holds the character and none before it does; no result means the character does not occur |
| Grading.StrikeOut | main.c:187-211 | The reference after grading keeps its length; every character is kept or blanked; no terminator appears; a reference of letters and blanks stays one |
| Grading.PartialPassCounts | main.c:200-206 | The partial pass earns one point per letter the guess shares with the unconsumed reference letters, counted with multiplicity, and consumes exactly those letters |
| Grading.GradeCounts | main.c:187-211 | The grade is 3 per exactly matched position plus the size of the multiset intersection of the unmatched letters of guess and reference |
| Grading.GradeBounds | main.c:187-211 | A word graded against a reference scores between 3 per exact match and 15, and at most 1 per position that did not match exactly |
| Grading.GradeSelf | main.c:190-198 | A word graded against itself scores 15 |
| Grading.GradeFullIffEqual | main.c:187-211 | The grade is 15 if and only if guess and reference are the same word |
| Grading.GradeSymmetric | main.c:187-211 | Between two words the grade is the same whichever is the reference |
| Grading.StrikeOutLetters | main.c:187-211 | Grading removes from the reference exactly the letters it shares with the guess (multiset difference) |
| Grading.GradeRepeatedLetters | main.c:200-206 | "erase" against "speed" scores 3: each guess letter takes the first unconsumed occurrence |
| Grading.GradeExactFirst | main.c:190-206 | "geese" against "stern" scores 4: the exact "e" uses up the only "e", the other three earn nothing |
| Sorting.SortSeq | main.c:175 | The result of `qsort` is a permutation of its input; `SortSeqSorted` and `SortedIsSortSeq` state that it is the unique sorted one |
| Sorting.SortSeqSorted | main.c:175 | The reference sort returns a sorted permutation of its input under a total order |
| Sorting.SortedUnique | main.c:175 | Under an antisymmetric total order two sorted permutations of the same elements are equal |
| Sorting.SortedIsSortSeq | main.c:175 | Any sorted permutation is the reference sort's result |
| Sorting.SortPrefix | main.c:175 | The first n elements end sorted as a permutation of what was there, equal to the reference sort; the rest are untouched |
| Ranking.StrCmp | main.c:103 | The sign is -1, 0 or 1 and is zero exactly on equal strings |
| Ranking.StrCmpFlip | main.c:103 | Swapping the strings flips the sign |
| Ranking.StrCmpTransitive | main.c:103 | The order of strings is transitive |
| Ranking.CompareRecords | main.c:89-105 | compareFunction returns zero exactly on equal records; `CompareRecordsIsTotalOrder` and `RankedScoresDescend` state the order it induces |
| Ranking.CompareRecordsIsTotalOrder | main.c:89-105 | compareFunction flips sign with its arguments, is zero only on equal records, and induces a total order |
| Ranking.RankedScoresDescend | main.c:84-105 | In a ranked sequence scores never increase, and records of equal score stand in alphabetical order of their words |
| Ranking.CopyRecords | main.c:132-144 | A fresh array holding exactly the first size records |
| Ranking.ScoreReset | main.c:170-176 | Every score of the first counter records becomes 0 and the records are re-ranked: a permutation of the zeroed records, in alphabetical order; the rest is untouched |
| Ranking.CountTopTies | main.c:301-305 | Counts the leading records sharing the first score, stopping at the bound; in a ranked array every later record scores less |
| Scoring.SumGrades | main.c:220-239 | The score `scoreCompute` accumulates for a word; `SumGradesBounds` and `SumGradesSelf` state its bounds |
| Scoring.SumGradesBounds | main.c:220-239 | A word scored against n answers scores between 0 and 15 n |
| Scoring.SumGradesSelf | main.c:220-239 | A word that is itself an answer scores at least 15 |
| Scoring.GradeAgainstAll | main.c:225-235 | Returns the sum of the guess's grades against the first answersCounter answers, each graded on fresh copies |
| Scoring.ScoreCompute | main.c:220-239 | Each of the size records from begin gets the sum of its grades against the answers; no word changes and no other record changes, even when the answers lie in the same array |
| Scoring.StrikeAll | main.c:250-260 | Striking a word out of every answer keeps each answer a buffer of letters and blanks |
| Scoring.StrikeAllLetters | main.c:250-260 | Each struck answer loses exactly the letters it shares with the struck word |
| Scoring.StrikeRecords | main.c:254-260 | Every word of the copied answers becomes that answer with the chosen word's letters struck out; every score stays as it was, since the grade is discarded |
| Scoring.SecondScoreCompute | main.c:250-264 | Each record gets the sum of its grades against the answers with the word struck out; words are unchanged and the caller's answers are untouched |
| LetterFrequency.InitializeLetterCounts | main.c:363-370 | The 26 entries become 'a' to 'z' with no appearances |
| LetterFrequency.CompareLetters | main.c:107-123 | The letter comparator returns zero exactly on equal entries; `CompareLettersIsTotalOrder` and `RankedTally` state the order it induces |
| LetterFrequency.CompareLettersIsTotalOrder | main.c:107-123 | The letter comparator flips sign with its arguments, is zero only on equal entries, and induces a total order |
| LetterFrequency.TallyLetters | main.c:375-382 | The counting array after the first loop keeps its length and the letter of every entry; `TallyTotal` and `RankedTally` state the counts |
| LetterFrequency.CountLetters | main.c:375-382 | Each entry's count grows by the occurrences of its letter in the eligible words |
| LetterFrequency.CountWord | main.c:377-380 | Each letter of the word adds one to the entry of its letter |
| LetterFrequency.TallyTotal | main.c:375-382 | Every letter of every eligible word is counted exactly once: the counts grow in total by 5 per eligible word |
| LetterFrequency.RankedTally | main.c:375-383 | The ranked letters hold each letter once, each with its count, in non-increasing order of count, and letters of equal count in alphabetical order (which decides the top five among ties) |
| LetterFrequency.LetterBonus | main.c:389-395 | The bonus of one letter; `LetterBonusRank` states it is 10 - k for the letter at rank k and 0 for an unranked letter |
| LetterFrequency.WordBonus | main.c:387-396 | The bonus of a word, letter by letter; `WordBonusBounds` and `NoBonusIffUnranked` state its bounds and when it is 0 |
| LetterFrequency.ApplyBonus | main.c:385-398 | The words after the bonus loop keep their number; `AddBonuses` and `LetterCompute` state each word's new score |
| LetterFrequency.RankBonus | main.c:389-395 | The bonus of a letter is 10 - k for the first of the five top ranks k holding it, else 0 |
| LetterFrequency.LetterBonusRank | main.c:389-395 | With distinct ranked letters, the letter at rank k earns exactly 10 - k; an unranked letter earns nothing |
| LetterFrequency.WordBonusBounds | main.c:385-398 | A word's bonus lies between 0 and 10 per letter |
| LetterFrequency.NoBonusIffUnranked | main.c:385-398 | A word earns no bonus if and only if none of its letters is among the top five |
| LetterFrequency.WordBonusOf | main.c:387-396 | Returns the sum of the bonuses of the word's five letters |
| LetterFrequency.AddBonuses | main.c:385-398 | Every eligible word among the first counter gains its letters' bonuses; other words and later records are unchanged |
| LetterFrequency.LetterCompute | main.c:372-400 | The letters end as the ranked tally of the eligible words, and the words as the ranking of the words with their bonuses added; later records are untouched |
| LetterFrequency.OccurrencesAsWritten | main.c:375-381 | The source's counting loop credits the first word's letters once per word and nothing else |
| LetterFrequency.CountingLoopMissesLaterWords | main.c:375-381 | With "abcde" and "fghij", the source counts 'a' twice and 'f' never, where the intended count is one each |
| LetterFrequency.ApplyBonusAsWritten | main.c:385-398 | The source's bonus loop changes nothing when the first word is ineligible |
| LetterFrequency.BonusLoopTestsFirstWord | main.c:385-398 | When the first word's score is negative, the source gives an eligible second word holding the top letter nothing, where it should gain at least 10 |

## Left out

- `readWordsFromFile` and both `main` functions: file I/O, prompts, `scanf`, `srand`/`rand` and printing.
- `parseAndCompute`: it reads no file. It copies the leading answers (`CopyRecords`), scores every word of the array against those answers held in the same array (`ScoreCompute`, whose contract covers that sharing) and sorts (`SortPrefix`). Each step is modelled here; their composition is not a member of its own.
- `findSecretWord`, `wordGuessAlgo` and `wordCompare`: a stub, an empty loop that never ends and a declaration without a body.
- The rest of `bestSecondWordsProcessing`: calls to `secondScoreCompute` and `qsort` (both modelled), then printing.
- `Ranking.CountTopTies`: stops at an explicit bound n. The source's loop has no bound and reads past the array when every record ties.
- `malloc` and `free`: arrays are allocated with `new` and reclaimed by the runtime.
- `qsort` internals: sorting is specified by its result, not by the library's algorithm.
- `int` overflow: scores and counts are unbounded integers. With 15 points per answer, 32-bit overflow would need more than 140 million answers.
- `Ranking.StrCmp`: keeps only the sign of `strcmp`, not its magnitude. No caller uses the magnitude.
- `LetterFrequency.LetterCompute`: requires every eligible word to consist of lower-case letters. The source indexes the counting array with the letter minus 'a' and would step outside it otherwise.
- `LetterFrequency.LetterCompute`: requires the counting array laid out as `initializeLetterCountStruct` leaves it, entry k holding the k-th letter (`Alphabetical`); `CountLetters` requires the same. The source never checks this: it increments entry `c - 'a'` whatever letter that entry holds, so a counting array already re-sorted by an earlier call is miscounted. The model does not describe that miscounting.
- A solver loop that narrows candidates and limits rounds: the source has none.

## Findings

| source | as written | input that shows it | evidently intended | confidence | as-written member | corrected member |
|---|---|---|---|---|---|---|
| main.c:375-381 | The counting loop tests and reads `allWords`, which never advances. The first word is counted `counter` times and the others never | words "abcde" and "fghij", both with score 0: 'a' counted twice, 'f' never | count the letters of each eligible word once | high (not executed) | LetterFrequency.CountingLoopMissesLaterWords | LetterFrequency.CountLetters |
| main.c:386 | The bonus loop tests `allWords->score`, the first word's score, on every round | a first word with score -1 and a second word "bcdea" with score 0, 'a' ranked first: the second word gains nothing | test `(allWords+i)->score`, the score of the word being given its bonus | medium (not executed): no code in the program makes a score negative | LetterFrequency.BonusLoopTestsFirstWord | LetterFrequency.AddBonuses |
