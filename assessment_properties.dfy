/**
 * What `scoreAssessment` promises about single answers, the dimension
 * scores, unknown questions, the interest list and the personality code.
 */
module AssessmentProperties {
  import opened Options
  import opened Text
  import opened Sequences
  import opened Assessment

  // ---------------------------------------------------------------------
  // The signed value of one answer

  /** A Likert answer outside 1..5 counts as the nearest end of the scale:
      999 answers like 5 and -50 like 1. */
  lemma LikertIsClamped(q: Question, n: int)
    ensures SignedValue(q, Num(n)) == SignedValue(q, Num(Clamp(n, 1, 5)))
    ensures n >= 5 ==> SignedValue(q, Num(n)) == SignedValue(q, Num(5))
    ensures n <= 1 ==> SignedValue(q, Num(n)) == SignedValue(q, Num(1))
  {
  }

  /** "A" or "a", with any white space around it, favours sideA. */
  lemma LetterAFavoursSideA(q: Question, w1: string, c: char, w2: string)
    requires AllWhitespace(w1) && AllWhitespace(w2) && (c == 'A' || c == 'a')
    ensures SignedValue(q, Str(w1 + [c] + w2)) == 1
  {
    TrimPadded(w1, [c], w2);
    assert ToUpper([c]) == "A";
  }

  /** The sideA label, written in any letter case, with any white space around it,
      favours sideA. */
  lemma SideALabelFavoursSideA(q: Question, w1: string, written: string, w2: string)
    requires AllWhitespace(w1) && AllWhitespace(w2) && IsTrimmed(written)
    requires ToUpper(written) == ToUpper(q.sideA)
    ensures SignedValue(q, Str(w1 + written + w2)) == 1
  {
    TrimPadded(w1, written, w2);
  }

  /** "B" or "b" favours sideB unless the sideA label itself reads "B". */
  lemma LetterBFavoursSideB(q: Question, w1: string, c: char, w2: string)
    requires AllWhitespace(w1) && AllWhitespace(w2) && (c == 'B' || c == 'b')
    requires ToUpper(q.sideA) != "B"
    ensures SignedValue(q, Str(w1 + [c] + w2)) == -1
  {
    TrimPadded(w1, [c], w2);
    assert ToUpper([c]) == "B";
  }

  /** The sideB label, written in any letter case favours sideB, unless it reads as
      "A" or as the sideA label. */
  lemma SideBLabelFavoursSideB(q: Question, w1: string, written: string, w2: string)
    requires AllWhitespace(w1) && AllWhitespace(w2) && IsTrimmed(written)
    requires ToUpper(written) == ToUpper(q.sideB)
    requires ToUpper(q.sideB) != "A" && ToUpper(q.sideB) != ToUpper(q.sideA)
    ensures SignedValue(q, Str(w1 + written + w2)) == -1
  {
    TrimPadded(w1, written, w2);
  }

  /** The sideA test runs first: when both labels read the same, the sideB
      label counts for sideA. */
  lemma SideATestComesFirst(q: Question, w1: string, w2: string)
    requires AllWhitespace(w1) && AllWhitespace(w2) && IsTrimmed(q.sideB)
    requires ToUpper(q.sideB) == ToUpper(q.sideA)
    ensures SignedValue(q, Str(w1 + q.sideB + w2)) == 1
  {
    TrimPadded(w1, q.sideB, w2);
  }

  /** A number written as text counts like the number itself, unless the
      text happens to be one of the question's labels. */
  lemma NumeralActsLikeNumber(q: Question, n: int)
    requires IntNumeral(n) != ToUpper(q.sideA) && IntNumeral(n) != ToUpper(q.sideB)
    ensures SignedValue(q, Str(IntNumeral(n))) == SignedValue(q, Num(n))
  {
    var s := IntNumeral(n);
    NumeralIsTrimmed(n);
    TrimOfTrimmed(s);
    UpperOfNumeral(n);
    ParseIntOfNumeral(n);
    var m := if n < 0 then -n else n;
    assert s[0] == '-' || s[0] == Numeral(m)[0];
    assert s != "A" && s != "B" by {
      assert IsDigit(Numeral(m)[0]);
    }
  }

  /** An answer of only white space is neutral (the labels being
      non-empty). */
  lemma BlankAnswerIsNeutral(q: Question, w: string)
    requires AllWhitespace(w)
    requires q.sideA != [] && q.sideB != []
    ensures SignedValue(q, Str(w)) == 0
  {
    TrimPadded(w, [], []);
    assert w + [] + [] == w;
    assert |ToUpper(q.sideA)| > 0 && |ToUpper(q.sideB)| > 0;
    assert ParseInt([]) == None;
  }

  /** A word that is neither a letter, a label nor the start of a number is
      neutral. */
  lemma WordAnswerIsNeutral(q: Question, w1: string, word: string, w2: string)
    requires AllWhitespace(w1) && AllWhitespace(w2) && IsTrimmed(word) && word != []
    requires !IsDigit(word[0]) && word[0] != '-' && word[0] != '+'
    requires ToUpper(word) != "A" && ToUpper(word) != "B"
    requires ToUpper(word) != ToUpper(q.sideA) && ToUpper(word) != ToUpper(q.sideB)
    ensures SignedValue(q, Str(w1 + word + w2)) == 0
  {
    TrimPadded(w1, word, w2);
    var s := ToUpper(word);
    assert s[0] == UpperChar(word[0]);
    TrimStartOfNonBlank(s);
    assert Unsigned(s) == s;
    assert DigitPrefix(s) == [];
  }

  // ---------------------------------------------------------------------
  // Dimension scores

  /** Scores of consecutive batches of answers add up. */
  lemma {:induction false} DimScoreAppend(catalog: seq<Question>, xs: seq<Answer>, ys: seq<Answer>, d: string)
    ensures DimScore(catalog, xs + ys, d) == DimScore(catalog, xs, d) + DimScore(catalog, ys, d)
  {
    if ys == [] {
      assert xs + ys == xs;
    } else {
      var init := ys[..|ys| - 1];
      DimScoreAppend(catalog, xs, init, d);
      assert (xs + ys)[..|xs + ys| - 1] == xs + init;
    }
  }

  /** The order in which answers arrive does not change a dimension score:
      any rearrangement of the answers gives the same sum. */
  lemma {:induction false} DimScorePermutation(catalog: seq<Question>, xs: seq<Answer>, ys: seq<Answer>, d: string)
    requires multiset(xs) == multiset(ys)
    ensures DimScore(catalog, xs, d) == DimScore(catalog, ys, d)
    decreases |xs|
  {
    if xs == [] {
      assert |ys| == |multiset(ys)| == 0;
    } else {
      var n := |xs| - 1;
      var a := xs[n];
      assert xs == xs[..n] + [a];
      var i := PermutationSplit(xs, ys);
      var rest := ys[..i] + ys[i + 1..];
      DimScorePermutation(catalog, xs[..n], rest, d);
      DimScoreAppend(catalog, ys[..i] + [a], ys[i + 1..], d);
      DimScoreAppend(catalog, ys[..i], [a], d);
      DimScoreAppend(catalog, ys[..i], ys[i + 1..], d);
    }
  }

  /** In particular, swapping two blocks of answers changes no dimension
      score. */
  lemma DimScoreOrderFree(catalog: seq<Question>, xs: seq<Answer>, ys: seq<Answer>, d: string)
    ensures DimScore(catalog, xs + ys, d) == DimScore(catalog, ys + xs, d)
  {
    DimScorePermutation(catalog, xs + ys, ys + xs, d);
  }

  /** The personality code does not depend on the order of the answers. */
  lemma AnswerOrderKeepsPersonality(catalog: seq<Question>, xs: seq<Answer>, ys: seq<Answer>)
    requires multiset(xs) == multiset(ys)
    ensures Personality(catalog, xs) == Personality(catalog, ys)
  {
    forall d ensures DimScore(catalog, xs, d) == DimScore(catalog, ys, d) {
      DimScorePermutation(catalog, xs, ys, d);
    }
    SameScoresSamePersonality(catalog, xs, ys);
  }

  /** g per occurrence is g times the number of occurrences. */
  lemma {:induction false} GainIsMultiple(tags: seq<string>, t: string, g: nat)
    ensures Gain(tags, t, g) == Count(tags, t) * g
  {
    if tags != [] {
      GainIsMultiple(tags[..|tags| - 1], t, g);
    }
  }

  /** A resolved answer moves only its own dimension, by its signed value,
      and adds its magnitude to every tag of its question, once per
      occurrence of the tag. */
  lemma AnswerMovesOwnDimension(catalog: seq<Question>, answers: seq<Answer>, a: Answer, q: Question)
    requires Lookup(catalog, a.questionId) == Some(q)
    ensures DimScore(catalog, answers + [a], q.dimension) == DimScore(catalog, answers, q.dimension) + SignedValue(q, a.answer)
    ensures forall d | d != q.dimension :: DimScore(catalog, answers + [a], d) == DimScore(catalog, answers, d)
    ensures forall t :: TagWeight(catalog, answers + [a], t) ==
              TagWeight(catalog, answers, t) + Count(TagsOf(q), t) * Abs(SignedValue(q, a.answer))
  {
    AppendAnswer(catalog, answers, a);
    forall t ensures Gain(TagsOf(q), t, Abs(SignedValue(q, a.answer))) == Count(TagsOf(q), t) * Abs(SignedValue(q, a.answer)) {
      GainIsMultiple(TagsOf(q), t, Abs(SignedValue(q, a.answer)));
    }
  }

  // ---------------------------------------------------------------------
  // Unknown questions

  /** An answer to a question the catalog does not have, wherever it
      stands, leaves every dimension score as it is. */
  lemma {:induction false} UnknownAnswerKeepsScores(catalog: seq<Question>, xs: seq<Answer>, a: Answer, ys: seq<Answer>, d: string)
    requires Lookup(catalog, a.questionId).None?
    ensures DimScore(catalog, xs + [a] + ys, d) == DimScore(catalog, xs + ys, d)
  {
    if ys == [] {
      assert xs + [a] + ys == xs + [a];
      assert xs + ys == xs;
      assert (xs + [a])[..|xs|] == xs;
    } else {
      var init := ys[..|ys| - 1];
      UnknownAnswerKeepsScores(catalog, xs, a, init, d);
      assert (xs + [a] + ys)[..|xs + [a] + ys| - 1] == xs + [a] + init;
      assert (xs + ys)[..|xs + ys| - 1] == xs + init;
    }
  }

  /** Nor does it add an interest tag. */
  lemma {:induction false} UnknownAnswerKeepsTags(catalog: seq<Question>, xs: seq<Answer>, a: Answer, ys: seq<Answer>)
    requires Lookup(catalog, a.questionId).None?
    ensures ResolvedTags(catalog, xs + [a] + ys) == ResolvedTags(catalog, xs + ys)
  {
    if ys == [] {
      assert xs + [a] + ys == xs + [a];
      assert xs + ys == xs;
      assert (xs + [a])[..|xs|] == xs;
    } else {
      var init := ys[..|ys| - 1];
      UnknownAnswerKeepsTags(catalog, xs, a, init);
      assert (xs + [a] + ys)[..|xs + [a] + ys| - 1] == xs + [a] + init;
      assert (xs + ys)[..|xs + ys| - 1] == xs + init;
    }
  }

  /** Nor does it change the weight of any tag. */
  lemma {:induction false} UnknownAnswerKeepsWeight(catalog: seq<Question>, xs: seq<Answer>, a: Answer, ys: seq<Answer>, t: string)
    requires Lookup(catalog, a.questionId).None?
    ensures TagWeight(catalog, xs + [a] + ys, t) == TagWeight(catalog, xs + ys, t)
  {
    if ys == [] {
      assert xs + [a] + ys == xs + [a];
      assert xs + ys == xs;
      assert (xs + [a])[..|xs|] == xs;
    } else {
      var init := ys[..|ys| - 1];
      UnknownAnswerKeepsWeight(catalog, xs, a, init, t);
      assert (xs + [a] + ys)[..|xs + [a] + ys| - 1] == xs + [a] + init;
      assert (xs + ys)[..|xs + ys| - 1] == xs + init;
    }
  }

  /** Hence neither the personality code nor the interest list sees it. */
  lemma UnknownAnswerChangesNothing(catalog: seq<Question>, xs: seq<Answer>, a: Answer, ys: seq<Answer>)
    requires Lookup(catalog, a.questionId).None?
    ensures Personality(catalog, xs + [a] + ys) == Personality(catalog, xs + ys)
    ensures RankedInterests(catalog, xs + [a] + ys) == RankedInterests(catalog, xs + ys)
  {
    forall d ensures DimScore(catalog, xs + [a] + ys, d) == DimScore(catalog, xs + ys, d) {
      UnknownAnswerKeepsScores(catalog, xs, a, ys, d);
    }
    UnknownAnswerKeepsTags(catalog, xs, a, ys);
    forall t ensures TagWeight(catalog, xs + [a] + ys, t) == TagWeight(catalog, xs + ys, t) {
      UnknownAnswerKeepsWeight(catalog, xs, a, ys, t);
    }
    SameScoresSamePersonality(catalog, xs + [a] + ys, xs + ys);
    SameWeightsSameInterests(catalog, xs + [a] + ys, xs + ys);
  }

  /** The code depends on the answers only through the dimension scores. */
  lemma SameScoresSamePersonality(catalog: seq<Question>, xs: seq<Answer>, ys: seq<Answer>)
    requires forall d :: DimScore(catalog, xs, d) == DimScore(catalog, ys, d)
    ensures Personality(catalog, xs) == Personality(catalog, ys)
  {
  }

  /** The interest list depends on the answers only through the resolved
      tags and their weights. */
  lemma SameWeightsSameInterests(catalog: seq<Question>, xs: seq<Answer>, ys: seq<Answer>)
    requires ResolvedTags(catalog, xs) == ResolvedTags(catalog, ys)
    requires forall t :: TagWeight(catalog, xs, t) == TagWeight(catalog, ys, t)
    ensures RankedInterests(catalog, xs) == RankedInterests(catalog, ys)
  {
    var order := TagOrder(catalog, xs);
    assert order == TagOrder(catalog, ys);
    var ex, ey := TagEntries(catalog, xs), TagEntries(catalog, ys);
    forall i | 0 <= i < |ex| ensures ex[i] == ey[i] {
      assert ex[i] == (order[i], TagWeight(catalog, xs, order[i]) as int);
    }
    assert ex == ey;
  }

  // ---------------------------------------------------------------------
  // The interest list

  lemma {:induction false} AnsweredTagResolved(catalog: seq<Question>, answers: seq<Answer>, k: nat, t: string)
    requires k < |answers| && t in AnswerTags(catalog, answers[k])
    ensures t in ResolvedTags(catalog, answers)
  {
    var init := answers[..|answers| - 1];
    if k < |answers| - 1 {
      assert answers[k] == init[k];
      AnsweredTagResolved(catalog, init, k, t);
    }
  }

  /** Every tag of every answered catalog question is listed, even when
      the answers gave it no weight. */
  lemma AnsweredTagsListed(catalog: seq<Question>, answers: seq<Answer>, k: nat, q: Question, t: string)
    requires k < |answers| && Lookup(catalog, answers[k].questionId) == Some(q) && t in TagsOf(q)
    ensures t in RankedInterests(catalog, answers)
  {
    AnsweredTagResolved(catalog, answers, k, t);
    RankedInterestsSpec(catalog, answers);
  }

  // ---------------------------------------------------------------------
  // The personality code

  /** Only the sign of a score matters: scores that lean nowhere or towards
      sideA give the default code. */
  lemma NonNegativeScoresGiveDefault(catalog: seq<Question>, answers: seq<Answer>)
    requires DimScore(catalog, answers, "EI") >= 0 && DimScore(catalog, answers, "SN") >= 0
    requires DimScore(catalog, answers, "TF") >= 0 && DimScore(catalog, answers, "JP") >= 0
    ensures Personality(catalog, answers) == DefaultPersonality(catalog)
  {
    PickBySign(catalog, "EI", DimScore(catalog, answers, "EI"), 0);
    PickBySign(catalog, "SN", DimScore(catalog, answers, "SN"), 0);
    PickBySign(catalog, "TF", DimScore(catalog, answers, "TF"), 0);
    PickBySign(catalog, "JP", DimScore(catalog, answers, "JP"), 0);
  }

  /** `pick` looks only at whether the score is negative. */
  lemma PickBySign(catalog: seq<Question>, d: string, s1: int, s2: int)
    requires (s1 >= 0) == (s2 >= 0)
    ensures Pick(catalog, d, s1) == Pick(catalog, d, s2)
  {
  }

  lemma {:induction false} NeutralAnswersScoreZero(catalog: seq<Question>, answers: seq<Answer>, d: string)
    requires forall i :: 0 <= i < |answers| ==> DimContribution(catalog, answers[i], d) == 0
    ensures DimScore(catalog, answers, d) == 0
  {
    if answers != [] {
      NeutralAnswersScoreZero(catalog, answers[..|answers| - 1], d);
    }
  }

  /** Answers that are all neutral (or unknown) give the default code; so
      does an empty answer list. */
  lemma NeutralAnswersGiveDefault(catalog: seq<Question>, answers: seq<Answer>)
    requires forall i :: 0 <= i < |answers| ==>
      Lookup(catalog, answers[i].questionId).None? || SignedValue(Lookup(catalog, answers[i].questionId).value, answers[i].answer) == 0
    ensures Personality(catalog, answers) == DefaultPersonality(catalog)
  {
    NeutralAnswersScoreZero(catalog, answers, "EI");
    NeutralAnswersScoreZero(catalog, answers, "SN");
    NeutralAnswersScoreZero(catalog, answers, "TF");
    NeutralAnswersScoreZero(catalog, answers, "JP");
  }

  /** With single-letter pole labels the code has four letters. */
  lemma SingleLetterPoles(catalog: seq<Question>, answers: seq<Answer>)
    requires forall i :: 0 <= i < |catalog| ==> |catalog[i].sideA| == 1 && |catalog[i].sideB| == 1
    ensures |Personality(catalog, answers)| == 4
  {
    PickLength(catalog, "EI", DimScore(catalog, answers, "EI"));
    PickLength(catalog, "SN", DimScore(catalog, answers, "SN"));
    PickLength(catalog, "TF", DimScore(catalog, answers, "TF"));
    PickLength(catalog, "JP", DimScore(catalog, answers, "JP"));
  }

  lemma PickLength(catalog: seq<Question>, d: string, score: int)
    requires forall i :: 0 <= i < |catalog| ==> |catalog[i].sideA| == 1 && |catalog[i].sideB| == 1
    ensures |Pick(catalog, d, score)| == 1
  {
  }
}
