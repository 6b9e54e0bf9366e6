/** Grading one guess against one reference word (scoreAssigning in main.c).

    scoreAssigning works on two five-character buffers in two passes:
    an exact pass awards 3 points per position where the letters agree and
    blanks both letters, then a partial pass awards 1 point for each guess
    letter still present somewhere in the reference and blanks the first
    such occurrence. The pure functions below state that process step by
    step; ScoreAssigning carries it out in place on two arrays; the lemmas
    at the end describe its result by counting letters. */
module Grading {

  datatype Option<T> = None | Some(value: T)

  const WordLength: nat := 5
  /** Written over a reference letter once it has been credited. */
  const RefBlank: char := ' '
  /** Written over a guess letter once it has matched exactly. */
  const GuessBlank: char := '-'
  const ExactPoints: int := 3
  const PartialPoints: int := 1
  /** The grade of a guess that matches every position. */
  const FullGrade: int := 15

  /** A five-character C string: no terminator among its five characters. */
  predicate IsBuffer(w: seq<char>) {
    |w| == WordLength && forall i :: 0 <= i < |w| ==> w[i] != '\0'
  }

  predicate IsLetter(c: char) {
    'a' <= c <= 'z'
  }

  /** A dictionary word: five lower-case letters. */
  predicate IsWord(w: seq<char>) {
    |w| == WordLength && forall i :: 0 <= i < |w| ==> IsLetter(w[i])
  }

  /** A reference word, possibly with some letters already struck out. */
  predicate IsReference(w: seq<char>) {
    |w| == WordLength && forall i :: 0 <= i < |w| ==> IsLetter(w[i]) || w[i] == RefBlank
  }

  lemma WordIsReference(w: seq<char>)
    requires IsWord(w)
    ensures IsReference(w) && IsBuffer(w)
  {
  }

  lemma ReferenceIsBuffer(w: seq<char>)
    requires IsReference(w)
    ensures IsBuffer(w)
  {
  }

  /** The state of scoreAssigning: both buffers and the points so far. */
  datatype Tally = Tally(ref: seq<char>, guess: seq<char>, points: int)

  /** One step of the exact pass, at position k. */
  function ExactStep(t: Tally, k: nat): Tally
    requires k < |t.ref| && k < |t.guess|
  {
    if t.guess[k] == t.ref[k] then
      Tally(t.ref[k := RefBlank], t.guess[k := GuessBlank], t.points + ExactPoints)
    else
      t
  }

  /** The exact pass over the first k positions. */
  function ExactPass(ref: seq<char>, guess: seq<char>, k: nat): (t: Tally)
    requires |ref| == |guess| && k <= |ref|
    ensures |t.ref| == |ref| && |t.guess| == |guess|
  {
    if k == 0 then Tally(ref, guess, 0) else ExactStep(ExactPass(ref, guess, k - 1), k - 1)
  }

  /** strchr on a terminator-free buffer: the first position holding c. */
  function Find(s: seq<char>, c: char): (r: Option<nat>)
    ensures r.Some? ==> r.value < |s| && s[r.value] == c && c !in s[..r.value]
    ensures r.None? ==> c !in s
  {
    if |s| == 0 then None
    else if s[0] == c then Some(0)
    else match Find(s[1..], c)
      case None => None
      case Some(j) =>
        assert s[..j + 1] == [s[0]] + s[1..][..j];
        Some(j + 1)
  }

  /** One step of the partial pass, for guess position k. */
  function PartialStep(t: Tally, k: nat): (u: Tally)
    requires k < |t.guess|
    ensures |u.ref| == |t.ref| && u.guess == t.guess
  {
    match Find(t.ref, t.guess[k])
    case None => t
    case Some(j) => Tally(t.ref[j := RefBlank], t.guess, t.points + PartialPoints)
  }

  /** The partial pass over the first k guess positions. */
  function PartialPass(t: Tally, k: nat): (u: Tally)
    requires k <= |t.guess|
    ensures |u.ref| == |t.ref| && u.guess == t.guess
  {
    if k == 0 then t else PartialStep(PartialPass(t, k - 1), k - 1)
  }

  /** Both passes of scoreAssigning: the final buffers and the score. */
  function Assign(ref: seq<char>, guess: seq<char>): Tally
    requires IsBuffer(ref) && IsBuffer(guess)
  {
    PartialPass(ExactPass(ref, guess, WordLength), WordLength)
  }

  /** The score scoreAssigning returns. */
  function Grade(ref: seq<char>, guess: seq<char>): int
    requires IsBuffer(ref) && IsBuffer(guess)
  {
    Assign(ref, guess).points
  }

  /** What scoreAssigning leaves in the reference buffer: every credited
      letter replaced by a blank, every other character kept. */
  function StrikeOut(ref: seq<char>, word: seq<char>): (r: seq<char>)
    requires IsBuffer(ref) && IsBuffer(word)
    ensures |r| == |ref|
    ensures forall i :: 0 <= i < |r| ==> r[i] == ref[i] || r[i] == RefBlank
    ensures IsBuffer(r)
    ensures IsReference(ref) ==> IsReference(r)
  {
    ExactPassBlanks(ref, word, WordLength);
    PartialPassBlanks(ExactPass(ref, word, WordLength), WordLength);
    Assign(ref, word).ref
  }

  lemma {:induction false} ExactPassBlanks(ref: seq<char>, guess: seq<char>, k: nat)
    requires |ref| == |guess| && k <= |ref|
    ensures forall i :: 0 <= i < |ref| ==>
      ExactPass(ref, guess, k).ref[i] == ref[i] || ExactPass(ref, guess, k).ref[i] == RefBlank
  {
    if k > 0 {
      ExactPassBlanks(ref, guess, k - 1);
    }
  }

  lemma {:induction false} PartialPassBlanks(t: Tally, k: nat)
    requires k <= |t.guess|
    ensures forall i :: 0 <= i < |t.ref| ==>
      PartialPass(t, k).ref[i] == t.ref[i] || PartialPass(t, k).ref[i] == RefBlank
  {
    if k > 0 {
      PartialPassBlanks(t, k - 1);
    }
  }

  // ---------------------------------------------------------------------
  // The in-place algorithm

  /** strchr: the first position of c in a terminator-free buffer. */
  method StrChr(s: array<char>, c: char) returns (r: Option<nat>)
    requires c != '\0' && '\0' !in s[..]
    ensures r == Find(s[..], c)
  {
    var i := 0;
    while i < s.Length
      invariant 0 <= i <= s.Length
      invariant c !in s[..i]
    {
      if s[i] == c {
        FindFirst(s[..], c, i);
        r := Some(i);
        return;
      }
      i := i + 1;
    }
    assert s[..i] == s[..];
    r := None;
  }

  /** A position holding c with no c before it is what Find returns:
      Find's contract leaves no other answer. */
  lemma FindFirst(s: seq<char>, c: char, i: nat)
    requires i < |s| && s[i] == c && c !in s[..i]
    ensures Find(s, c) == Some(i)
  {
  }

  /** scoreAssigning: grades the guess against the reference, blanking
      matched letters of both buffers in place. */
  method ScoreAssigning(wordRef: array<char>, wordGuess: array<char>) returns (scoreAssigned: int)
    requires wordRef != wordGuess
    requires IsBuffer(wordRef[..]) && IsBuffer(wordGuess[..])
    modifies wordRef, wordGuess
    ensures scoreAssigned == Grade(old(wordRef[..]), old(wordGuess[..]))
    ensures wordRef[..] == StrikeOut(old(wordRef[..]), old(wordGuess[..]))
    ensures wordGuess[..] == Assign(old(wordRef[..]), old(wordGuess[..])).guess
  {
    ghost var ref0, guess0 := wordRef[..], wordGuess[..];
    scoreAssigned := 0;
    var k := 0;
    while k < WordLength
      invariant 0 <= k <= WordLength
      invariant Tally(wordRef[..], wordGuess[..], scoreAssigned) == ExactPass(ref0, guess0, k)
      invariant '\0' !in wordRef[..] && '\0' !in wordGuess[..]
    {
      ghost var before := Tally(wordRef[..], wordGuess[..], scoreAssigned);
      if wordGuess[k] == wordRef[k] {
        scoreAssigned := scoreAssigned + ExactPoints;
        wordRef[k] := RefBlank;
        wordGuess[k] := GuessBlank;
      }
      assert Tally(wordRef[..], wordGuess[..], scoreAssigned) == ExactStep(before, k);
      k := k + 1;
    }
    ghost var exact := ExactPass(ref0, guess0, WordLength);
    k := 0;
    while k < WordLength
      invariant 0 <= k <= WordLength
      invariant Tally(wordRef[..], wordGuess[..], scoreAssigned) == PartialPass(exact, k)
      invariant '\0' !in wordRef[..] && '\0' !in wordGuess[..]
    {
      ghost var before := Tally(wordRef[..], wordGuess[..], scoreAssigned);
      var found := StrChr(wordRef, wordGuess[k]);
      if found.Some? {
        scoreAssigned := scoreAssigned + PartialPoints;
        wordRef[found.value] := RefBlank;
      }
      assert Tally(wordRef[..], wordGuess[..], scoreAssigned) == PartialStep(before, k);
      k := k + 1;
    }
  }

  // ---------------------------------------------------------------------
  // Counting letters: what the two passes add up to

  /** The characters of s other than the reference blank. */
  function Letters(s: seq<char>): multiset<char> {
    multiset(s)[RefBlank := 0]
  }

  /** Characters of x at the positions where x and y agree. */
  function Matched(x: seq<char>, y: seq<char>): multiset<char>
    requires |x| == |y|
  {
    if |x| == 0 then multiset{}
    else
      var last := if x[|x| - 1] == y[|y| - 1] then multiset{x[|x| - 1]} else multiset{};
      Matched(x[..|x| - 1], y[..|y| - 1]) + last
  }

  /** Characters of x at the positions where x and y differ. */
  function Unmatched(x: seq<char>, y: seq<char>): multiset<char>
    requires |x| == |y|
  {
    if |x| == 0 then multiset{}
    else
      var last := if x[|x| - 1] != y[|y| - 1] then multiset{x[|x| - 1]} else multiset{};
      Unmatched(x[..|x| - 1], y[..|y| - 1]) + last
  }

  /** Every character of x is either matched or unmatched, and the
      matched characters are the same seen from either side. */
  lemma MatchSplit(x: seq<char>, y: seq<char>)
    requires |x| == |y|
    ensures multiset(x) == Matched(x, y) + Unmatched(x, y)
    ensures Matched(x, y) == Matched(y, x)
  {
    MatchedOrUnmatched(x, y);
    MatchedSymmetric(x, y);
  }

  lemma {:induction false} MatchedOrUnmatched(x: seq<char>, y: seq<char>)
    requires |x| == |y|
    ensures multiset(x) == Matched(x, y) + Unmatched(x, y)
  {
    if |x| > 0 {
      var n := |x| - 1;
      MatchedOrUnmatched(x[..n], y[..n]);
      assert x == x[..n] + [x[n]];
      assert multiset(x) == multiset(x[..n]) + multiset{x[n]};
    }
  }

  lemma {:induction false} MatchedSymmetric(x: seq<char>, y: seq<char>)
    requires |x| == |y|
    ensures Matched(x, y) == Matched(y, x)
  {
    if |x| > 0 {
      var n := |x| - 1;
      MatchedSymmetric(x[..n], y[..n]);
    }
  }

  /** Nothing is unmatched only when the two words are equal. */
  lemma {:induction false} NothingUnmatched(x: seq<char>, y: seq<char>)
    requires |x| == |y|
    ensures Unmatched(x, y) == multiset{} <==> x == y
  {
    if |x| > 0 {
      var n := |x| - 1;
      NothingUnmatched(x[..n], y[..n]);
      assert x == x[..n] + [x[n]] && y == y[..n] + [y[n]];
      if x[n] != y[n] {
        assert x[n] in Unmatched(x, y);
      }
    }
  }

  /** Removing every copy of x distributes over multiset union. */
  lemma DropUnion(a: multiset<char>, b: multiset<char>, x: char)
    ensures (a + b)[x := 0] == a[x := 0] + b[x := 0]
  {
  }

  /** The exact pass leaves the positions from k on untouched. */
  lemma {:induction false} ExactPassFrame(ref: seq<char>, guess: seq<char>, k: nat)
    requires |ref| == |guess| && k <= |ref|
    ensures forall i :: k <= i < |ref| ==>
      ExactPass(ref, guess, k).ref[i] == ref[i] && ExactPass(ref, guess, k).guess[i] == guess[i]
  {
    if k > 0 {
      ExactPassFrame(ref, guess, k - 1);
    }
  }

  /** The exact pass earns 3 points per matched position. */
  lemma {:induction false} ExactPassPoints(ref: seq<char>, guess: seq<char>, k: nat)
    requires |ref| == |guess| && k <= |ref|
    ensures ExactPass(ref, guess, k).points == ExactPoints * |Matched(ref[..k], guess[..k])|
  {
    if k > 0 {
      var j := k - 1;
      ExactPassPoints(ref, guess, j);
      ExactPassFrame(ref, guess, j);
      assert ref[..k][..j] == ref[..j] && guess[..k][..j] == guess[..j];
    }
  }

  /** After the exact pass the reference keeps exactly its unmatched letters. */
  lemma {:induction false} ExactPassRefLetters(ref: seq<char>, guess: seq<char>, k: nat)
    requires |ref| == |guess| && k <= |ref|
    ensures Letters(ExactPass(ref, guess, k).ref[..k]) == Unmatched(ref[..k], guess[..k])[RefBlank := 0]
  {
    if k > 0 {
      var j := k - 1;
      ExactPassRefLetters(ref, guess, j);
      ExactPassFrame(ref, guess, j);
      var t := ExactPass(ref, guess, j);
      var u := ExactStep(t, j);
      assert ref[..k][..j] == ref[..j] && guess[..k][..j] == guess[..j];
      assert u.ref[..k] == t.ref[..j] + [u.ref[j]];
      var added := if ref[j] != guess[j] then multiset{ref[j]} else multiset{};
      assert multiset(u.ref[..k]) == multiset(t.ref[..j]) + multiset{u.ref[j]};
      DropUnion(multiset(t.ref[..j]), multiset{u.ref[j]}, RefBlank);
      DropUnion(Unmatched(ref[..j], guess[..j]), added, RefBlank);
      assert multiset{u.ref[j]}[RefBlank := 0] == added[RefBlank := 0];
    }
  }

  /** After the exact pass the guess keeps exactly its unmatched letters,
      besides the dashes written over its matched ones. */
  lemma {:induction false} ExactPassGuessLetters(ref: seq<char>, guess: seq<char>, k: nat)
    requires |ref| == |guess| && k <= |ref|
    ensures multiset(ExactPass(ref, guess, k).guess[..k])[GuessBlank := 0]
         == Unmatched(guess[..k], ref[..k])[GuessBlank := 0]
  {
    if k > 0 {
      var j := k - 1;
      ExactPassGuessLetters(ref, guess, j);
      ExactPassFrame(ref, guess, j);
      var t := ExactPass(ref, guess, j);
      var u := ExactStep(t, j);
      assert ref[..k][..j] == ref[..j] && guess[..k][..j] == guess[..j];
      assert u.guess[..k] == t.guess[..j] + [u.guess[j]];
      var added := if guess[j] != ref[j] then multiset{guess[j]} else multiset{};
      assert multiset(u.guess[..k]) == multiset(t.guess[..j]) + multiset{u.guess[j]};
      DropUnion(multiset(t.guess[..j]), multiset{u.guess[j]}, GuessBlank);
      DropUnion(Unmatched(guess[..j], ref[..j]), added, GuessBlank);
      assert multiset{u.guess[j]}[GuessBlank := 0] == added[GuessBlank := 0];
    }
  }

  /** The exact pass over a whole word, counted. */
  lemma ExactPassCounts(ref: seq<char>, guess: seq<char>)
    requires |ref| == |guess| == WordLength
    ensures ExactPass(ref, guess, WordLength).points == ExactPoints * |Matched(ref, guess)|
    ensures Letters(ExactPass(ref, guess, WordLength).ref) == Unmatched(ref, guess)[RefBlank := 0]
    ensures multiset(ExactPass(ref, guess, WordLength).guess)[GuessBlank := 0]
         == Unmatched(guess, ref)[GuessBlank := 0]
  {
    var t := ExactPass(ref, guess, WordLength);
    ExactPassPoints(ref, guess, WordLength);
    ExactPassRefLetters(ref, guess, WordLength);
    ExactPassGuessLetters(ref, guess, WordLength);
    assert ref[..WordLength] == ref && guess[..WordLength] == guess;
    assert t.ref[..WordLength] == t.ref && t.guess[..WordLength] == t.guess;
  }

  /** A character absent from x is not among its unmatched characters. */
  lemma UnmatchedAbsent(x: seq<char>, y: seq<char>, c: char)
    requires |x| == |y| && c !in x
    ensures Unmatched(x, y)[c] == 0
  {
    MatchSplit(x, y);
    assert multiset(x)[c] == 0;
  }

  /** The partial pass, counted: when no processed guess character is a
      reference blank, it earns one point per character the processed
      guess and the available reference letters have in common, and it
      consumes exactly those reference letters. */
  lemma {:induction false} PartialPassCounts(t: Tally, k: nat)
    requires k <= |t.guess|
    requires RefBlank !in t.guess[..k]
    ensures PartialPass(t, k).points == t.points + |multiset(t.guess[..k]) * Letters(t.ref)|
    ensures Letters(PartialPass(t, k).ref) == Letters(t.ref) - multiset(t.guess[..k])
  {
    if k > 0 {
      var j := k - 1;
      var c := t.guess[j];
      var prefix := t.guess[..j];
      assert t.guess[..k] == prefix + [c];
      assert multiset(t.guess[..k]) == multiset(prefix) + multiset{c};
      assert RefBlank !in prefix && c != RefBlank;
      PartialPassCounts(t, j);
      var u := PartialPass(t, j);
      assert PartialPass(t, k) == PartialStep(u, j);
      PartialStepCounts(t, u, j, multiset(prefix));
    }
  }

  /** One step of the partial pass, counted. */
  lemma PartialStepCounts(t: Tally, u: Tally, j: nat, g: multiset<char>)
    requires j < |u.guess| && u.guess[j] != RefBlank
    requires u.points == t.points + |g * Letters(t.ref)|
    requires Letters(u.ref) == Letters(t.ref) - g
    ensures PartialStep(u, j).points == t.points + |(g + multiset{u.guess[j]}) * Letters(t.ref)|
    ensures Letters(PartialStep(u, j).ref) == Letters(t.ref) - (g + multiset{u.guess[j]})
  {
    var c := u.guess[j];
    var l := Letters(t.ref);
    match Find(u.ref, c)
    case None =>
      assert Letters(u.ref)[c] == 0;
      CountAbsent(g, l, c);
    case Some(p) =>
      assert c in multiset(u.ref);
      BlankOut(u.ref, p, c);
      CountPresent(g, l, c);
  }

  /** Counting a guess letter no reference letter is left for changes
      neither the credit nor the letters left. */
  lemma CountAbsent(g: multiset<char>, l: multiset<char>, c: char)
    requires l[c] <= g[c]
    ensures (g + multiset{c}) * l == g * l
    ensures l - (g + multiset{c}) == l - g
  {
  }

  /** Counting a guess letter some reference letter is left for credits
      it once and uses it up. */
  lemma CountPresent(g: multiset<char>, l: multiset<char>, c: char)
    requires l[c] > g[c]
    ensures (g + multiset{c}) * l == g * l + multiset{c}
    ensures l - (g + multiset{c}) == (l - g) - multiset{c}
  {
  }

  /** Blanking a letter removes it from the letters of a buffer. */
  lemma BlankOut(s: seq<char>, p: nat, c: char)
    requires p < |s| && s[p] == c && c != RefBlank
    ensures Letters(s[p := RefBlank]) == Letters(s) - multiset{c}
  {
    assert multiset(s[p := RefBlank]) == multiset(s) - multiset{c} + multiset{RefBlank};
  }

  /** The grade counted: 3 points per exactly matched position plus 1 per
      letter the unmatched parts of guess and reference have in common,
      each reference letter credited at most once. */
  lemma GradeCounts(ref: seq<char>, guess: seq<char>)
    requires IsReference(ref) && IsWord(guess)
    ensures IsBuffer(ref) && IsBuffer(guess)
    ensures Grade(ref, guess)
         == ExactPoints * |Matched(ref, guess)| + |Unmatched(guess, ref) * Unmatched(ref, guess)|
  {
    ReferenceIsBuffer(ref);
    WordIsReference(guess);
    var t := ExactPass(ref, guess, WordLength);
    ExactPassCounts(ref, guess);
    var ug, ur := Unmatched(guess, ref), Unmatched(ref, guess);
    UnmatchedAbsent(guess, ref, RefBlank);
    UnmatchedAbsent(guess, ref, GuessBlank);
    UnmatchedAbsent(ref, guess, GuessBlank);
    var gm, lm := multiset(t.guess), Letters(t.ref);
    assert gm[GuessBlank := 0][RefBlank] == ug[GuessBlank := 0][RefBlank];
    assert RefBlank !in t.guess[..WordLength] by {
      assert t.guess[..WordLength] == t.guess;
    }
    PartialPassCounts(t, WordLength);
    assert t.guess[..WordLength] == t.guess;
    forall x ensures (gm * lm)[x] == (ug * ur)[x] {
      if x != RefBlank && x != GuessBlank {
        assert gm[GuessBlank := 0][x] == ug[GuessBlank := 0][x];
        assert lm[x] == ur[RefBlank := 0][x];
      }
    }
    assert gm * lm == ug * ur;
  }

  lemma IntersectionBound(a: multiset<char>, b: multiset<char>)
    ensures |a * b| <= |a|
  {
    assert a == a * b + (a - b);
  }

  /** Grading a five-letter word against a reference scores between 0 and
      15, and never less than 3 per exactly matched position. */
  lemma GradeBounds(ref: seq<char>, guess: seq<char>)
    requires IsReference(ref) && IsWord(guess)
    ensures IsBuffer(ref) && IsBuffer(guess)
    ensures ExactPoints * |Matched(ref, guess)| <= Grade(ref, guess) <= FullGrade
    ensures Grade(ref, guess) <= ExactPoints * |Matched(ref, guess)| + (WordLength - |Matched(ref, guess)|)
  {
    GradeCounts(ref, guess);
    MatchSplit(guess, ref);
    IntersectionBound(Unmatched(guess, ref), Unmatched(ref, guess));
    var m, u := |Matched(ref, guess)|, |Unmatched(guess, ref)|;
    assert |multiset(guess)| == WordLength;
    assert m + u == WordLength;
  }

  /** A word graded against itself scores 15: five exact matches. */
  lemma GradeSelf(w: seq<char>)
    requires IsWord(w)
    ensures IsBuffer(w)
    ensures Grade(w, w) == FullGrade
  {
    WordIsReference(w);
    GradeCounts(w, w);
    NothingUnmatched(w, w);
    MatchSplit(w, w);
    assert |multiset(w)| == WordLength;
    assert |Matched(w, w)| == WordLength;
  }

  /** A guess scores the full 15 exactly when it is the reference word. */
  lemma GradeFullIffEqual(ref: seq<char>, guess: seq<char>)
    requires IsReference(ref) && IsWord(guess)
    ensures IsBuffer(ref) && IsBuffer(guess)
    ensures Grade(ref, guess) == FullGrade <==> ref == guess
  {
    GradeBounds(ref, guess);
    if ref == guess {
      GradeSelf(guess);
    }
    if Grade(ref, guess) == FullGrade {
      MatchSplit(ref, guess);
      assert |Matched(ref, guess)| == WordLength;
      assert |multiset(ref)| == WordLength;
      assert |Unmatched(ref, guess)| == 0;
      NothingUnmatched(ref, guess);
    }
  }

  /** Between two dictionary words the grade does not depend on which is
      the reference: the same positions match and the same letters are
      shared. */
  lemma GradeSymmetric(a: seq<char>, b: seq<char>)
    requires IsWord(a) && IsWord(b)
    ensures IsBuffer(a) && IsBuffer(b)
    ensures Grade(a, b) == Grade(b, a)
  {
    WordIsReference(a);
    WordIsReference(b);
    GradeCounts(a, b);
    GradeCounts(b, a);
    MatchSplit(a, b);
    assert Unmatched(b, a) * Unmatched(a, b) == Unmatched(a, b) * Unmatched(b, a);
  }

  /** Striking a word out of a reference removes from the reference
      exactly the letters the two have in common, counted with
      multiplicity. */
  lemma StrikeOutLetters(ref: seq<char>, word: seq<char>)
    requires IsReference(ref) && IsWord(word)
    ensures IsBuffer(ref) && IsBuffer(word)
    ensures Letters(StrikeOut(ref, word)) == Letters(ref) - multiset(word)
  {
    ReferenceIsBuffer(ref);
    WordIsReference(word);
    var t := ExactPass(ref, word, WordLength);
    ExactPassCounts(ref, word);
    MatchSplit(word, ref);
    MatchSplit(ref, word);
    var uw, ur, m := Unmatched(word, ref), Unmatched(ref, word), Matched(ref, word);
    UnmatchedAbsent(word, ref, RefBlank);
    UnmatchedAbsent(word, ref, GuessBlank);
    UnmatchedAbsent(ref, word, GuessBlank);
    var gm, lm := multiset(t.guess), Letters(t.ref);
    assert gm[GuessBlank := 0][RefBlank] == uw[GuessBlank := 0][RefBlank];
    assert RefBlank !in t.guess[..WordLength] by {
      assert t.guess[..WordLength] == t.guess;
    }
    PartialPassCounts(t, WordLength);
    assert t.guess[..WordLength] == t.guess;
    assert GuessBlank !in ref;
    forall x ensures (lm - gm)[x] == (Letters(ref) - multiset(word))[x] {
      if x != RefBlank && x != GuessBlank {
        assert gm[GuessBlank := 0][x] == uw[GuessBlank := 0][x];
        assert lm[x] == ur[RefBlank := 0][x];
        assert multiset(ref)[x] == m[x] + ur[x];
        assert multiset(word)[x] == m[x] + uw[x];
      }
    }
    assert lm - gm == Letters(ref) - multiset(word);
  }

  /** Partial credit in guess order: with "speed" as the reference no
      position of "erase" matches; its first "e" takes the first "e" of
      the reference, its "s" the "s" and its last "e" the remaining "e",
      for 3 points. */
  lemma GradeRepeatedLetters()
    ensures Grade("speed", "erase") == 3
  {
    var r, g := "speed", "erase";
    NoExactMatch(r, g, WordLength);
    var t := Tally(r, g, 0);
    FindFirst(r, 'e', 2);
    assert PartialPass(t, 1) == Tally("sp ed", g, 1);
    assert PartialPass(t, 2) == Tally("sp ed", g, 1);
    assert PartialPass(t, 3) == Tally("sp ed", g, 1);
    FindFirst("sp ed", 's', 0);
    assert PartialPass(t, 4) == Tally(" p ed", g, 2);
    FindFirst(" p ed", 'e', 3);
    assert PartialPass(t, 5) == Tally(" p  d", g, 3);
  }

  /** Exact matches come first and no letter is credited twice: with
      "stern" as the reference, the middle "e" of "geese" matches exactly
      and uses up the reference's only "e", so the other two "e"s and the
      "g" earn nothing and the "s" earns 1, for 4 points. */
  lemma GradeExactFirst()
    ensures Grade("stern", "geese") == 4
  {
    ExactFirstPass();
    ExactFirstPartial();
  }

  lemma ExactFirstPass()
    ensures ExactPass("stern", "geese", WordLength) == Tally("st rn", "ge-se", 3)
  {
    var r, g := "stern", "geese";
    var r2, g2 := "st rn", "ge-se";
    NoExactMatch(r, g, 2);
    assert r[2 := RefBlank] == r2 && g[2 := GuessBlank] == g2;
    assert ExactPass(r, g, 3) == Tally(r2, g2, 3);
  }

  lemma ExactFirstPartial()
    ensures PartialPass(Tally("st rn", "ge-se", 3), WordLength).points == 4
  {
    var t := Tally("st rn", "ge-se", 3);
    ExactFirstNoPartial();
    FindFirst("st rn", 's', 0);
    assert "st rn"[0 := RefBlank] == " t rn";
    assert PartialPass(t, 4) == Tally(" t rn", "ge-se", 4);
    assert 'e' !in " t rn";
  }

  /** Nothing is left in "st rn" for the first three characters of "ge-se". */
  lemma ExactFirstNoPartial()
    ensures PartialPass(Tally("st rn", "ge-se", 3), 3) == Tally("st rn", "ge-se", 3)
  {
    var r2 := "st rn";
    assert 'g' !in r2 && 'e' !in r2 && '-' !in r2;
  }

  lemma {:induction false} NoExactMatch(ref: seq<char>, guess: seq<char>, k: nat)
    requires |ref| == |guess| && k <= |ref|
    requires forall i :: 0 <= i < k ==> ref[i] != guess[i]
    ensures ExactPass(ref, guess, k) == Tally(ref, guess, 0)
  {
    if k > 0 {
      NoExactMatch(ref, guess, k - 1);
    }
  }
}
