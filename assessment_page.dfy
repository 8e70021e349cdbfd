/**
 * The client-side classifier of the assessment page
 * (app/assessment/page.tsx, `calculatePersonality` and the check in
 * `submit`): every answered question casts one vote for a pole of its
 * dimension, each dimension takes the pole with more votes, and the
 * interest tags of the answered questions are collected without
 * repetitions.
 */
module AssessmentPage {
  import opened Options
  import opened Sequences
  import opened Assessment
  import opened Recommendation

  /** The four dimensions and their letter pairs; a tie goes to the first
      letter. */
  const Poles: map<string, (string, string)> :=
    map["EI" := ("E", "I"), "SN" := ("S", "N"), "TF" := ("T", "F"), "JP" := ("J", "P")]

  /** The key an answer votes for: 4 or more votes for `sideA`, 2 or less
      for `sideB`, 3 votes for nothing. */
  function Vote(q: Question, answer: int): Option<string> {
    if answer >= 4 then Some(q.sideA)
    else if answer <= 2 then Some(q.sideB)
    else None
  }

  /** Whether question q, as answered, casts a vote for letter l of
      dimension d. */
  predicate VotesFor(q: Question, answers: map<string, int>, d: string, l: string) {
    q.id in answers && q.dimension == d && Vote(q, answers[q.id]) == Some(l)
  }

  /** The number of votes for letter l of dimension d over the question
      list. */
  function Tally(qs: seq<Question>, answers: map<string, int>, d: string, l: string): nat {
    if qs == [] then 0
    else Tally(qs[..|qs| - 1], answers, d, l) + (if VotesFor(qs[|qs| - 1], answers, d, l) then 1 else 0)
  }

  /** The letter dimension d resolves to. */
  function Letter(qs: seq<Question>, answers: map<string, int>, d: string): string
    requires d in Poles
  {
    var (a, b) := Poles[d];
    if Tally(qs, answers, d, a) >= Tally(qs, answers, d, b) then a else b
  }

  /** The personality type the page computes. */
  function PersonalityType(qs: seq<Question>, answers: map<string, int>): string {
    Letter(qs, answers, "EI") + Letter(qs, answers, "SN") + Letter(qs, answers, "TF") + Letter(qs, answers, "JP")
  }

  /** Whether the tags of question q are pushed: it is answered (with any
      value) and has a non-empty tag list. */
  predicate Contributes(q: Question, answers: map<string, int>) {
    q.id in answers && q.interests.Some? && |q.interests.value| > 0
  }

  /** The `interests` array before the `Set` removes repetitions. */
  function AnsweredInterests(qs: seq<Question>, answers: map<string, int>): seq<string> {
    if qs == [] then []
    else
      var q := qs[|qs| - 1];
      AnsweredInterests(qs[..|qs| - 1], answers) + (if Contributes(q, answers) then q.interests.value else [])
  }

  // ---------------------------------------------------------------------
  // calculatePersonality

  /** The nested `scores` record holds the four dimensions with their two
      letters each, and every count is the tally over the questions seen. */
  ghost predicate Counted(scores: map<string, map<string, int>>, done: seq<Question>, answers: map<string, int>) {
    && scores.Keys == Poles.Keys
    && (forall d | d in Poles :: scores[d].Keys == {Poles[d].0, Poles[d].1})
    && (forall d, l | d in scores && l in scores[d] :: scores[d][l] == Tally(done, answers, d, l))
  }

  method CalculatePersonality(qs: seq<Question>, answers: map<string, int>)
    returns (personalityType: string, interests: seq<string>)
    ensures personalityType == PersonalityType(qs, answers)
    ensures interests == DistinctInOrder(AnsweredInterests(qs, answers))
  {
    var scores := CountVotes(qs, answers);
    ReadCounts(scores, qs, answers);
    personalityType :=
      (if scores["EI"]["E"] >= scores["EI"]["I"] then "E" else "I") +
      (if scores["SN"]["S"] >= scores["SN"]["N"] then "S" else "N") +
      (if scores["TF"]["T"] >= scores["TF"]["F"] then "T" else "F") +
      (if scores["JP"]["J"] >= scores["JP"]["P"] then "J" else "P");
    var pushed := CollectInterests(qs, answers);
    interests := DistinctInOrder(pushed);
  }

  /** The first `forEach`: fills the `scores` record. */
  method CountVotes(qs: seq<Question>, answers: map<string, int>) returns (scores: map<string, map<string, int>>)
    ensures Counted(scores, qs, answers)
  {
    scores := map[
      "EI" := map["E" := 0, "I" := 0],
      "SN" := map["S" := 0, "N" := 0],
      "TF" := map["T" := 0, "F" := 0],
      "JP" := map["J" := 0, "P" := 0]];
    var i := 0;
    while i < |qs|
      invariant 0 <= i <= |qs|
      invariant Counted(scores, qs[..i], answers)
    {
      assert qs[..i + 1] == qs[..i] + [qs[i]];
      scores := CountVote(scores, qs[i], answers, qs[..i]);
      i := i + 1;
    }
    assert qs[..i] == qs;
  }

  /** The eight counts the letter selection reads are the tallies, so the
      letters it picks form the type. */
  lemma ReadCounts(scores: map<string, map<string, int>>, qs: seq<Question>, answers: map<string, int>)
    requires Counted(scores, qs, answers)
    ensures "EI" in scores && "E" in scores["EI"] && "I" in scores["EI"]
    ensures "SN" in scores && "S" in scores["SN"] && "N" in scores["SN"]
    ensures "TF" in scores && "T" in scores["TF"] && "F" in scores["TF"]
    ensures "JP" in scores && "J" in scores["JP"] && "P" in scores["JP"]
    ensures PersonalityType(qs, answers) ==
      (if scores["EI"]["E"] >= scores["EI"]["I"] then "E" else "I") +
      (if scores["SN"]["S"] >= scores["SN"]["N"] then "S" else "N") +
      (if scores["TF"]["T"] >= scores["TF"]["F"] then "T" else "F") +
      (if scores["JP"]["J"] >= scores["JP"]["P"] then "J" else "P")
  {
    ReadDimension(scores, qs, answers, "EI", "E", "I");
    ReadDimension(scores, qs, answers, "SN", "S", "N");
    ReadDimension(scores, qs, answers, "TF", "T", "F");
    ReadDimension(scores, qs, answers, "JP", "J", "P");
  }

  lemma ReadDimension(scores: map<string, map<string, int>>, qs: seq<Question>, answers: map<string, int>, d: string, a: string, b: string)
    requires Counted(scores, qs, answers)
    requires d in Poles && Poles[d] == (a, b)
    ensures d in scores && a in scores[d] && b in scores[d]
    ensures Letter(qs, answers, d) == if scores[d][a] >= scores[d][b] then a else b
  {
  }

  /** The second `forEach`: pushes the tags of the answered questions. */
  method CollectInterests(qs: seq<Question>, answers: map<string, int>) returns (pushed: seq<string>)
    ensures pushed == AnsweredInterests(qs, answers)
  {
    pushed := [];
    var k := 0;
    while k < |qs|
      invariant 0 <= k <= |qs|
      invariant pushed == AnsweredInterests(qs[..k], answers)
    {
      var q := qs[k];
      assert qs[..k + 1][..k] == qs[..k];
      if q.id in answers && q.interests.Some? && |q.interests.value| > 0 {
        pushed := pushed + q.interests.value;
      }
      k := k + 1;
    }
    assert qs[..k] == qs;
  }

  /** One `forEach` step of the scoring loop: `scores[dim][side] += 1`
      when the question is answered, its dimension is known and the answer
      is not 3. */
  method CountVote(scores: map<string, map<string, int>>, q: Question, answers: map<string, int>, ghost done: seq<Question>)
    returns (scores': map<string, map<string, int>>)
    requires Counted(scores, done, answers)
    ensures Counted(scores', done + [q], answers)
  {
    scores' := scores;
    if q.id in answers {
      var answer := answers[q.id];
      var dim := q.dimension;
      if dim in scores {
        if answer >= 4 {
          scores' := Increment(scores, dim, q.sideA);
          VoteCounted(scores, done, q, answers, q.sideA);
          return;
        } else if answer <= 2 {
          scores' := Increment(scores, dim, q.sideB);
          VoteCounted(scores, done, q, answers, q.sideB);
          return;
        }
      }
    }
    SilenceCounted(scores, done, q, answers);
  }

  lemma VoteCounted(scores: map<string, map<string, int>>, done: seq<Question>, q: Question, answers: map<string, int>, side: string)
    requires Counted(scores, done, answers)
    requires q.id in answers && q.dimension in scores && Vote(q, answers[q.id]) == Some(side)
    ensures Counted(Increment(scores, q.dimension, side), done + [q], answers)
  {
    TallySnoc(done, q, answers);
  }

  lemma SilenceCounted(scores: map<string, map<string, int>>, done: seq<Question>, q: Question, answers: map<string, int>)
    requires Counted(scores, done, answers)
    requires q.id !in answers || q.dimension !in scores || Vote(q, answers[q.id]) == None
    ensures Counted(scores, done + [q], answers)
  {
    TallySnoc(done, q, answers);
  }

  /** `scores[dim][side] += 1` for a letter the record holds; a letter it
      does not hold is not read afterwards and is skipped. */
  function Increment(scores: map<string, map<string, int>>, dim: string, side: string): (r: map<string, map<string, int>>)
    requires dim in scores
    ensures r.Keys == scores.Keys
    ensures forall d | d in scores :: r[d].Keys == scores[d].Keys
    ensures forall d, l | d in scores && l in scores[d] ::
      r[d][l] == scores[d][l] + (if d == dim && l == side then 1 else 0)
  {
    if side in scores[dim] then scores[dim := scores[dim][side := scores[dim][side] + 1]] else scores
  }

  lemma TallySnoc(done: seq<Question>, q: Question, answers: map<string, int>)
    ensures forall d, l :: Tally(done + [q], answers, d, l) == Tally(done, answers, d, l) + (if VotesFor(q, answers, d, l) then 1 else 0)
  {
    assert (done + [q])[..|done|] == done;
  }

  // ---------------------------------------------------------------------
  // submit

  /** What `submit` stores as its result. */
  datatype Submission = Submission(personalityType: string, interests: seq<string>, recommendations: seq<Career>)

  /** `submit`: rejects a type that is not four characters long, otherwise
      recommends careers for the type. */
  method Submit(catalog: seq<Career>, qs: seq<Question>, answers: map<string, int>) returns (r: Result<Submission>)
    ensures r.Success? <==> |PersonalityType(qs, answers)| == 4
    ensures r.Success? ==> r.value == Submission(
      PersonalityType(qs, answers),
      DistinctInOrder(AnsweredInterests(qs, answers)),
      Recommended(catalog, PersonalityType(qs, answers), [], 5))
  {
    var personalityType, interests := CalculatePersonality(qs, answers);
    if personalityType == [] || |personalityType| != 4 {
      return Failure("Invalid personality type: " + personalityType);
    }
    var recommendations := RecommendByPersonality(catalog, personalityType);
    r := Success(Submission(personalityType, interests, recommendations));
  }

  // ---------------------------------------------------------------------
  // Properties

  /** The type has four letters, one of each pair, in the order EI, SN, TF,
      JP; so the length check in `submit` never rejects it. */
  lemma TypeShape(qs: seq<Question>, answers: map<string, int>)
    ensures var t := PersonalityType(qs, answers);
      && |t| == 4
      && (t[0] == 'E' || t[0] == 'I')
      && (t[1] == 'S' || t[1] == 'N')
      && (t[2] == 'T' || t[2] == 'F')
      && (t[3] == 'J' || t[3] == 'P')
  {
  }

  /** A dimension takes its second letter exactly when that letter has
      strictly more votes; a tie goes to E, S, T or J. */
  lemma LetterByMajority(qs: seq<Question>, answers: map<string, int>, d: string)
    requires d in Poles
    ensures Letter(qs, answers, d) == Poles[d].0 || Letter(qs, answers, d) == Poles[d].1
    ensures Letter(qs, answers, d) == Poles[d].1 <==> Tally(qs, answers, d, Poles[d].1) > Tally(qs, answers, d, Poles[d].0)
  {
  }

  /** A question's vote has the sign of the server's signed value for the
      same numeric answer: sideA when positive, sideB when negative, none
      when zero. */
  lemma VoteAgreesWithSignedValue(q: Question, n: int)
    ensures Vote(q, n) == Some(q.sideA) <== SignedValue(q, Num(n)) > 0
    ensures Vote(q, n) == Some(q.sideB) <== SignedValue(q, Num(n)) < 0
    ensures Vote(q, n) == None <==> SignedValue(q, Num(n)) == 0
  {
  }

  lemma {:induction false} TallyAppend(xs: seq<Question>, ys: seq<Question>, answers: map<string, int>, d: string, l: string)
    ensures Tally(xs + ys, answers, d, l) == Tally(xs, answers, d, l) + Tally(ys, answers, d, l)
  {
    if ys == [] {
      assert xs + ys == xs;
    } else {
      var init := ys[..|ys| - 1];
      TallyAppend(xs, init, answers, d, l);
      assert (xs + ys)[..|xs + ys| - 1] == xs + init;
    }
  }

  /** Any rearrangement of the questions casts the same votes. */
  lemma {:induction false} TallyPermutation(xs: seq<Question>, ys: seq<Question>, answers: map<string, int>, d: string, l: string)
    requires multiset(xs) == multiset(ys)
    ensures Tally(xs, answers, d, l) == Tally(ys, answers, d, l)
    decreases |xs|
  {
    if xs == [] {
      assert |ys| == |multiset(ys)| == 0;
    } else {
      var n := |xs| - 1;
      var q := xs[n];
      assert xs == xs[..n] + [q];
      var i := PermutationSplit(xs, ys);
      var rest := ys[..i] + ys[i + 1..];
      TallyPermutation(xs[..n], rest, answers, d, l);
      TallyAppend(ys[..i] + [q], ys[i + 1..], answers, d, l);
      TallyAppend(ys[..i], [q], answers, d, l);
      TallyAppend(ys[..i], ys[i + 1..], answers, d, l);
    }
  }

  /** Only the number of votes counts, not the order of the questions. */
  lemma QuestionPermutationKeepsType(xs: seq<Question>, ys: seq<Question>, answers: map<string, int>)
    requires multiset(xs) == multiset(ys)
    ensures PersonalityType(xs, answers) == PersonalityType(ys, answers)
  {
    forall d, l
      ensures Tally(xs, answers, d, l) == Tally(ys, answers, d, l)
    {
      TallyPermutation(xs, ys, answers, d, l);
    }
  }

  /** In particular, swapping two blocks of questions keeps the type. */
  lemma QuestionOrderIrrelevant(xs: seq<Question>, ys: seq<Question>, answers: map<string, int>)
    ensures PersonalityType(xs + ys, answers) == PersonalityType(ys + xs, answers)
  {
    QuestionPermutationKeepsType(xs + ys, ys + xs, answers);
  }

  /** A question that is unanswered, answered 3, or of a dimension outside
      EI/SN/TF/JP casts no vote and does not change the type. */
  lemma SilentQuestionIgnored(xs: seq<Question>, q: Question, ys: seq<Question>, answers: map<string, int>)
    requires q.id !in answers || answers[q.id] == 3 || q.dimension !in Poles
    ensures PersonalityType(xs + [q] + ys, answers) == PersonalityType(xs + ys, answers)
  {
    forall d, l | d in Poles
      ensures Tally(xs + [q] + ys, answers, d, l) == Tally(xs + ys, answers, d, l)
    {
      TallyAppend(xs + [q], ys, answers, d, l);
      TallyAppend(xs, [q], answers, d, l);
      TallyAppend(xs, ys, answers, d, l);
      assert [q][..0] == [];
    }
  }

  lemma {:induction false} NoVotes(qs: seq<Question>, answers: map<string, int>, d: string, l: string)
    requires forall i :: 0 <= i < |qs| ==> qs[i].id !in answers
    ensures Tally(qs, answers, d, l) == 0
  {
    if qs != [] {
      NoVotes(qs[..|qs| - 1], answers, d, l);
    }
  }

  /** With no question answered every dimension ties, and the type is
      ESTJ. */
  lemma NothingAnsweredGivesESTJ(qs: seq<Question>, answers: map<string, int>)
    requires forall i :: 0 <= i < |qs| ==> qs[i].id !in answers
    ensures PersonalityType(qs, answers) == "ESTJ"
  {
    forall d, l
      ensures Tally(qs, answers, d, l) == 0
    {
      NoVotes(qs, answers, d, l);
    }
  }

  lemma {:induction false} AnsweredInterestsHas(qs: seq<Question>, answers: map<string, int>, t: string)
    ensures t in AnsweredInterests(qs, answers) <==>
      exists i :: 0 <= i < |qs| && Contributes(qs[i], answers) && t in qs[i].interests.value
  {
    if qs != [] {
      var init := qs[..|qs| - 1];
      AnsweredInterestsHas(init, answers, t);
      if exists i :: 0 <= i < |init| && Contributes(init[i], answers) && t in init[i].interests.value {
        var i :| 0 <= i < |init| && Contributes(init[i], answers) && t in init[i].interests.value;
        assert qs[i] == init[i];
      }
      if exists i :: 0 <= i < |qs| && Contributes(qs[i], answers) && t in qs[i].interests.value {
        var i :| 0 <= i < |qs| && Contributes(qs[i], answers) && t in qs[i].interests.value;
        if i < |init| {
          assert init[i] == qs[i];
        }
      }
    }
  }

  /** The interests are the tags of the answered questions, whatever the
      answer (3 included), each once, in order of first occurrence over the
      question list. */
  lemma InterestsOfAnswered(qs: seq<Question>, answers: map<string, int>)
    ensures var r := DistinctInOrder(AnsweredInterests(qs, answers));
      && Distinct(r)
      && (forall t | t in r :: t in AnsweredInterests(qs, answers))
      && (forall t :: t in r <==>
            exists i :: 0 <= i < |qs| && qs[i].id in answers && qs[i].interests.Some? && t in qs[i].interests.value)
      && (forall i, j :: 0 <= i < j < |r| ==>
            FirstIndex(AnsweredInterests(qs, answers), r[i]) < FirstIndex(AnsweredInterests(qs, answers), r[j]))
  {
    var pushed := AnsweredInterests(qs, answers);
    DistinctInOrderSpec(pushed);
    forall t
      ensures t in DistinctInOrder(pushed) <==>
        exists i :: 0 <= i < |qs| && qs[i].id in answers && qs[i].interests.Some? && t in qs[i].interests.value
    {
      DistinctInOrderHas(pushed, t);
      AnsweredInterestsHas(qs, answers, t);
    }
  }
}
