/**
 * The question index `qmap` of `scoreAssessment` is a plain object
 * (lib/assessment.ts:21-22), so reading it with an id that names an
 * `Object.prototype` member yields that member rather than `undefined`.
 * This module models one iteration of the answer loop (lib/assessment.ts:
 * 25-42) as written, shows the id for which it throws, and proves that the
 * intended own-key lookup, which the rest of the model uses, never throws
 * and leaves such an answer inert.
 */
module QuestionIndex {
  import opened Options
  import opened Text
  import opened Sequences
  import opened Assessment
  import opened AssessmentProperties

  /** Property names every plain object inherits from `Object.prototype`. */
  const InheritedNames: set<string> := {
    "constructor", "__proto__", "toString", "toLocaleString", "valueOf",
    "hasOwnProperty", "isPrototypeOf", "propertyIsEnumerable",
    "__defineGetter__", "__defineSetter__", "__lookupGetter__", "__lookupSetter__"}

  /** What `qmap[id]` holds: a catalog question, an inherited member (a
      function or an object, truthy, with no `sideA`), or `undefined`. */
  datatype Slot = Own(q: Question) | InheritedMember | Missing

  /** How one iteration of the answer loop ends. */
  datatype Step = Skipped | Scored(val: int) | Throws

  /** `qmap[id]` on the plain object. */
  function SlotAsWritten(catalog: seq<Question>, id: string): (r: Slot)
    ensures r.Own? <==> Lookup(catalog, id).Some?
    ensures r == InheritedMember <==> Lookup(catalog, id).None? && id in InheritedNames
  {
    match Lookup(catalog, id)
    case Some(q) => Own(q)
    case None => if id in InheritedNames then InheritedMember else Missing
  }

  /** One iteration as written: `!q` lets an inherited member through, and
      for a string answer other than `A` the read of `q.sideA.toUpperCase()`
      throws a TypeError. A number or another value is scored (and added to
      a `dims` entry named `undefined`). */
  function StepAsWritten(catalog: seq<Question>, a: Answer): Step {
    match SlotAsWritten(catalog, a.questionId)
    case Missing => Skipped
    case Own(q) => Scored(SignedValue(q, a.answer))
    case InheritedMember =>
      match a.answer
      case Num(n) => Scored(Clamp(n, 1, 5) - 3)
      case Str(raw) => if ToUpper(Trim(raw)) == "A" then Scored(1) else Throws
      case Other => Scored(0)
  }

  /** One iteration as intended: only own keys of the index resolve, so
      every other id is skipped. */
  function StepIntended(catalog: seq<Question>, a: Answer): (r: Step)
    ensures r != Throws
    ensures r == Skipped <==> Lookup(catalog, a.questionId).None?
  {
    match Lookup(catalog, a.questionId)
    case None => Skipped
    case Some(q) => Scored(SignedValue(q, a.answer))
  }

  /** The answer `{questionId: "toString", answer: "B"}` makes the loop as
      written throw, whatever the catalog, unless the catalog has a question
      with that id. */
  lemma ToStringAnswerThrows(catalog: seq<Question>)
    requires Lookup(catalog, "toString").None?
    ensures StepAsWritten(catalog, Answer("toString", Str("B"))) == Throws
  {
    assert "toString" in InheritedNames;
    TrimOfTrimmed("B");
    assert ToUpper("B") == "B";
  }

  /** The two agree except on an id that names an inherited member and no
      catalog question. */
  lemma AsWrittenAgreesElsewhere(catalog: seq<Question>, a: Answer)
    requires a.questionId !in InheritedNames || Lookup(catalog, a.questionId).Some?
    ensures StepAsWritten(catalog, a) == StepIntended(catalog, a)
  {
  }

  /** The intended step never fails, and an answer it skips changes
      neither the personality code nor the interest list, wherever it
      stands among the answers. */
  lemma IntendedSkipIsInert(catalog: seq<Question>, xs: seq<Answer>, a: Answer, ys: seq<Answer>)
    requires StepIntended(catalog, a) == Skipped
    ensures Personality(catalog, xs + [a] + ys) == Personality(catalog, xs + ys)
    ensures RankedInterests(catalog, xs + [a] + ys) == RankedInterests(catalog, xs + ys)
  {
    UnknownAnswerChangesNothing(catalog, xs, a, ys);
  }

  /** The intended step is the one the scoring performs: a skipped answer
      leaves every dimension sum and tag weight as it was, and an answer
      scored v adds v to its question's dimension only and |v| to each of
      its tags once per occurrence. */
  lemma IntendedStepTallies(catalog: seq<Question>, xs: seq<Answer>, a: Answer)
    ensures StepIntended(catalog, a) == Skipped ==>
              (forall d :: DimScore(catalog, xs + [a], d) == DimScore(catalog, xs, d)) &&
              (forall t :: TagWeight(catalog, xs + [a], t) == TagWeight(catalog, xs, t))
    ensures StepIntended(catalog, a).Scored? ==>
              var q := Lookup(catalog, a.questionId).value;
              var v := StepIntended(catalog, a).val;
              (forall d :: DimScore(catalog, xs + [a], d) == DimScore(catalog, xs, d) + (if d == q.dimension then v else 0)) &&
              (forall t :: TagWeight(catalog, xs + [a], t) == TagWeight(catalog, xs, t) + Count(TagsOf(q), t) * Abs(v))
  {
    match Lookup(catalog, a.questionId)
    case None =>
      assert xs + [a] + [] == xs + [a];
      assert xs + [] == xs;
      forall d ensures DimScore(catalog, xs + [a], d) == DimScore(catalog, xs, d) {
        UnknownAnswerKeepsScores(catalog, xs, a, [], d);
      }
      forall t ensures TagWeight(catalog, xs + [a], t) == TagWeight(catalog, xs, t) {
        UnknownAnswerKeepsWeight(catalog, xs, a, [], t);
      }
    case Some(q) =>
      AnswerMovesOwnDimension(catalog, xs, a, q);
  }
}
