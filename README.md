# Career-leader scoring and recommendation engine in Dafny

This project models the algorithmic core of a career-guidance web application in Dafny, and proves what that core promises. The core has three parts:

- **`scoreAssessment`** (`lib/assessment.ts`) is the server-side classifier.
  - It looks every answer up in the question catalog and turns it into a signed value in [-2, 2]. Numbers are clamped to the 1..5 Likert scale and centred on 3. The letters `A`/`B` or the question's own pole labels give ±1. Other text goes through `parseInt`.
  - It sums the values per dimension (`EI`, `SN`, `TF`, `JP`).
  - It adds each value's magnitude to every interest tag of the question.
  - It resolves each dimension to a pole of the first catalog question of that dimension, with a tie going to `sideA` and `X` when there is no such question.
  - It lists the tags by descending weight.
- **`recommend` / `recommendByPersonality`** (`lib/recommendation.ts`) is the matcher.
  - A career earns +5 when it lists the personality code. Each (interest, skill) pair adds 3 on equality ignoring case, else 1 when one contains the other.
  - Careers are stable-sorted by descending score. The first `limit` careers that scored are returned.
  - When too few careers scored, the list is topped up from the whole ranking without repeating an id.
- **`calculatePersonality` and the check in `submit`** (`app/assessment/page.tsx`) is the client-side classifier.
  - Every answered question votes: 4 or more for `sideA`, 2 or less for `sideB`.
  - Each dimension takes the letter with more votes, with ties going to E, S, T and J.
  - The tags of the answered questions are collected in first-occurrence order.

Modules:

- `Options` (`options.dfy`): `Option` and `Result`.
- `Text` (`text.dfy`): the JavaScript string operations the core relies on.
  - ECMAScript `trim` with its exact white-space set.
  - `toUpperCase`/`toLowerCase` on ASCII letters.
  - `includes`.
  - `parseInt(s, 10)`.
- `Sequences` (`sequences.dfy`):
  - duplicate-freedom;
  - the first-occurrence order that a JavaScript `Set` or object keeps;
  - `slice(0, end)`.
- `Ranking` (`ranking.dfy`): the stable sort by descending weight used by both `Array.prototype.sort` calls.
- `Assessment` and `AssessmentProperties` (`assessment.dfy`, `assessment_properties.dfy`): `scoreAssessment`.
- `Recommendation` and `RecommendationProperties` (`recommendation.dfy`, `recommendation_properties.dfy`): `recommend`.
- `AssessmentPage` (`assessment_page.dfy`): `calculatePersonality` and `submit`.
- `QuestionIndex` (`question_index.dfy`): one iteration of the answer loop of `scoreAssessment` with the plain-object lookup as written, next to the intended own-key lookup (see "Findings").

How loops and catalogs are modelled:

- The loops of the source are methods with loop invariants, each proved equal to a specification function:
  - the answer loop and the `qmap` `forEach` of `scoreAssessment`;
  - the nested loops of `scoreCareer`, the scoring `map` and the fallback merge loop of `recommend`;
  - the two `forEach` loops of `calculatePersonality`.
- The lemmas are stated about those functions.
- The question and career catalogs are JSON imports in the source. Here they are parameters (`catalog`).

Three points where the code behaves differently from what a reader of its names and comments may expect; the model follows the code:

- **Interest list contents and order.** The code lists every tag of every resolved question, including tags that gained weight 0. It breaks weight ties by the order in which answers first touched a tag (object insertion order), not by catalog order. See `AssessmentProperties.AnsweredTagsListed` and `Assessment.RankedInterestsSpec`.
- **Duplicate ids.** "Combine and deduplicate by ID" (the comment at lib/recommendation.ts:48) applies only to the fallback path. When at least `limit` careers scored, a catalog with repeated ids can give repeated ids. `RecommendationProperties.FallbackUniqueIds` covers the fallback path; `RecommendationProperties.UniqueIdsGiveRankingPrefix` covers a catalog with unique ids.
- **`limit`.** Any number is accepted. The model takes any integer, with the `slice` semantics for zero and negative values (`RecommendationProperties.NegativeLimit`).

## Model

| member | source | states |
|---|---|---|
| Text.TrimStartSpec | lib/assessment.ts:35 | the leading part `trim` drops is all white space and what remains starts with a non-white-space character |
| Text.TrimEndSpec | lib/assessment.ts:35 | the trailing part `trim` drops is all white space and what remains ends with a non-white-space character |
| Text.TrimPadded | lib/assessment.ts:35 | `trim` removes exactly the white space around a string that has none at its ends |
| Text.UpperEqualIffIgnoringCase | lib/assessment.ts:35-37 | two strings are equal after `toUpperCase` exactly when they are equal letter by letter ignoring case (ASCII letters only, see "Left out") |
| Text.LowerEqualIffIgnoringCase | lib/recommendation.ts:28-31 | two strings are equal after `toLowerCase` exactly when they are equal letter by letter ignoring case (ASCII letters only, see "Left out") |
| Text.IncludesIffOccurs | lib/recommendation.ts:32 | `includes` holds exactly when the needle occurs at some position of the haystack |
| Text.DigitPrefixSpec | lib/assessment.ts:39 | `parseInt` reads the longest run of leading digits, stopping at the first non-digit |
| Text.ParseIntOfNumeral | lib/assessment.ts:39 | `parseInt` reads back every integer from its decimal numeral |
| Sequences.DistinctInOrderSpec | app/assessment/page.tsx:94 | the members of a `Set` built from a list: each element once, nothing dropped, in order of first occurrence |
| Sequences.DistinctInOrderAppend | lib/assessment.ts:47 | inserting into an object keyed by first insertion continues its key order |
| Ranking.SortByWeight | lib/recommendation.ts:40 | the sort by descending score is sorted, a permutation, and stable (each weight's entries keep their order) |
| Ranking.SortKeepsItems | lib/assessment.ts:60-62 | sorting then dropping the weights keeps every item as often as before |
| Ranking.TwoWeightsSplit | lib/recommendation.ts:40 | a sorted list with only two weights is all the heavy entries followed by all the light ones |
| Assessment.SignedValue | lib/assessment.ts:29-42 | the signed value lies in [-2, 2]; a number is 2 exactly when at least 5 and -2 exactly when at most 1, n - 3 inside 1..5; neither number nor string gives 0 |
| Assessment.FindLastId | lib/assessment.ts:21-22 | the position of the last catalog question with the id (a later `forEach` write wins), -1 when there is none |
| Assessment.IndexQuestions | lib/assessment.ts:21-22 | the `qmap` built agrees with the last-question-wins lookup for every id |
| Assessment.ScoreAssessment | lib/assessment.ts:17-65 | `dims` has the four dimensions, each the sum of its answers' signed values; the code is the resolved personality; the interests are the ranked tag list |
| Assessment.TallyAnswer | lib/assessment.ts:25-48 | one iteration of the answer loop: an unknown question id changes nothing, a known one extends the dimension sums and tag weights to the longer answer list |
| Assessment.TallyResolved | lib/assessment.ts:29-48 | a resolved answer adds its signed value to its dimension and its magnitude to each of its tags |
| Assessment.AddTagWeights | lib/assessment.ts:46-48 | every tag gains exactly the magnitude once per occurrence; new tags are appended to the key order in first-seen order |
| Assessment.RankingFacts | lib/assessment.ts:60-62 | sorting the `Object.entries` pairs and keeping the keys gives every tag of the key order exactly once, by non-increasing weight, equal weights in key order |
| Assessment.RankedInterestsSpec | lib/assessment.ts:59-62 | the interest list holds each tag of a resolved answer exactly once, and nothing else, in non-increasing weight, equal weights in insertion order |
| Assessment.FindDimension | lib/assessment.ts:52 | the position of the first catalog question of the dimension, or the catalog length when there is none |
| Assessment.Pick | lib/assessment.ts:51-55 | `X` when no question has the dimension; else the first such question's `sideA` when the score is at least 0, its `sideB` otherwise |
| Assessment.UnseenTagWeighsNothing | lib/assessment.ts:47 | a tag no resolved answer carries has weight 0 |
| QuestionIndex.IntendedStepTallies | lib/assessment.ts:25-48 | the intended step is what the scoring does with an answer: a skipped answer leaves every dimension sum and tag weight unchanged, and an answer scored v adds v to its own dimension only and `abs(v)` to each of its tags per occurrence |
| QuestionIndex.ToStringAnswerThrows | lib/assessment.ts:25-36 | the answer `{questionId: "toString", answer: "B"}` makes the iteration as written throw |
| QuestionIndex.AsWrittenAgreesElsewhere | lib/assessment.ts:25-42 | the iteration as written and as intended agree on every id that is a catalog id or no inherited name |
| QuestionIndex.IntendedSkipIsInert | lib/assessment.ts:25-26 | an answer the intended iteration skips changes neither the personality code nor the interest list |
| AssessmentProperties.LikertIsClamped | lib/assessment.ts:30-33 | a number counts as its clamp to 1..5: 999 like 5, -50 like 1 |
| AssessmentProperties.LetterAFavoursSideA | lib/assessment.ts:35-36 | `A` or `a`, with any white space around it, gives +1 |
| AssessmentProperties.SideALabelFavoursSideA | lib/assessment.ts:35-36 | the `sideA` label in any letter case, with any white space around it, gives +1 |
| AssessmentProperties.LetterBFavoursSideB | lib/assessment.ts:35-37 | `B` or `b` gives -1 unless the `sideA` label reads `B` |
| AssessmentProperties.SideBLabelFavoursSideB | lib/assessment.ts:35-37 | the `sideB` label in any letter case gives -1 unless it reads `A` or as the `sideA` label |
| AssessmentProperties.SideATestComesFirst | lib/assessment.ts:36-37 | when both labels read alike the `sideB` label gives +1: the `sideA` test runs first |
| AssessmentProperties.NumeralActsLikeNumber | lib/assessment.ts:38-41 | a number written as text counts like the number, unless it reads as a label |
| AssessmentProperties.BlankAnswerIsNeutral | lib/assessment.ts:38-41 | a blank answer parses to nothing and gives 0 |
| AssessmentProperties.WordAnswerIsNeutral | lib/assessment.ts:38-41 | a word that is neither letter, label nor numeral gives 0 |
| AssessmentProperties.DimScoreAppend | lib/assessment.ts:44 | the dimension sums of consecutive batches of answers add up |
| AssessmentProperties.DimScorePermutation | lib/assessment.ts:24-44 | any rearrangement of the answers gives the same dimension sums |
| AssessmentProperties.DimScoreOrderFree | lib/assessment.ts:24-44 | swapping two blocks of answers keeps every dimension sum |
| AssessmentProperties.AnswerOrderKeepsPersonality | lib/assessment.ts:24-57 | any rearrangement of the answers gives the same personality code |
| AssessmentProperties.GainIsMultiple | lib/assessment.ts:47 | a tag listed k times gains k times the magnitude |
| AssessmentProperties.AnswerMovesOwnDimension | lib/assessment.ts:44-48 | a resolved answer moves only its own dimension, by its signed value, and adds its magnitude to each of its tags per occurrence |
| AssessmentProperties.UnknownAnswerKeepsScores | lib/assessment.ts:25-26 | an answer to an unknown question, wherever it stands, changes no dimension sum |
| AssessmentProperties.UnknownAnswerKeepsTags | lib/assessment.ts:25-26 | such an answer adds no tag |
| AssessmentProperties.UnknownAnswerKeepsWeight | lib/assessment.ts:25-26 | such an answer changes no tag weight |
| AssessmentProperties.UnknownAnswerChangesNothing | lib/assessment.ts:25-26 | such an answer changes neither the personality code nor the interest list |
| AssessmentProperties.SameScoresSamePersonality | lib/assessment.ts:51-57 | the code depends on the answers only through the four dimension sums |
| AssessmentProperties.SameWeightsSameInterests | lib/assessment.ts:59-62 | the interest list depends on the answers only through the resolved tags and their weights |
| AssessmentProperties.AnsweredTagResolved | lib/assessment.ts:46-47 | every tag of every resolved answer enters the tag order |
| AssessmentProperties.AnsweredTagsListed | lib/assessment.ts:46-48 | every tag of every resolved answer is in the interest list, even when it gained 0 |
| AssessmentProperties.NonNegativeScoresGiveDefault | lib/assessment.ts:54 | scores that are all at least 0 give the all-`sideA` code |
| AssessmentProperties.PickBySign | lib/assessment.ts:54 | `pick` depends only on whether the score is negative |
| AssessmentProperties.NeutralAnswersScoreZero | lib/assessment.ts:44 | answers that each contribute 0 leave a dimension at 0 |
| AssessmentProperties.NeutralAnswersGiveDefault | lib/assessment.ts:51-57 | neutral or unknown answers, or none at all, give the all-`sideA` code |
| AssessmentProperties.SingleLetterPoles | lib/assessment.ts:57 | with single-letter pole labels the code has four characters |
| AssessmentProperties.PickLength | lib/assessment.ts:51-55 | with single-letter pole labels each picked pole is one character |
| Recommendation.ScoreCareer | lib/recommendation.ts:20-37 | the nested loops compute the personality bonus plus the sum of every (interest, skill) pair score |
| Recommendation.ScoreCatalog | lib/recommendation.ts:39 | the scoring `map` yields exactly those entries |
| Recommendation.DedupPrefix | lib/recommendation.ts:52-58 | deduplicating a prefix gives a prefix of the deduplicated whole, so stopping early keeps the first kept careers |
| Recommendation.CombineUnique | lib/recommendation.ts:49-58 | the merge loop keeps the first `limit` careers whose id is new |
| Recommendation.Recommend | lib/recommendation.ts:17-61 | the list returned is the careers that scored, cut at `limit`, or the deduplicated merge topped up from the ranking, or a slice of the ranking |
| Recommendation.RecommendByPersonality | lib/recommendation.ts:12-14 | `recommend` with no interests and a limit of 5 |
| RecommendationProperties.PersonalityBonusSpec | lib/recommendation.ts:18-24 | the bonus is 0 or 5, and 5 exactly when personalities are listed, the code is non-empty and one entry equals it ignoring case |
| RecommendationProperties.PairScoreSpec | lib/recommendation.ts:28-33 | a pair scores 3 exactly on equality ignoring case, 1 exactly when one contains the other but they differ, else 0 |
| RecommendationProperties.PairScoreSymmetric | lib/recommendation.ts:31-32 | the pair score does not depend on which string is the interest |
| RecommendationProperties.EmptyInterestMatchesAll | lib/recommendation.ts:32 | an empty interest is contained in every skill, scoring at least 1 per skill |
| RecommendationProperties.RowScoreBound | lib/recommendation.ts:29-33 | one interest adds at most 3 per skill |
| RecommendationProperties.InterestScoreBound | lib/recommendation.ts:27-34 | the interests add at most 3 per (interest, skill) pair |
| RecommendationProperties.NoInterestsScore | lib/recommendation.ts:12-14 | without interests a career scores its bonus alone: 0 or 5 |
| RecommendationProperties.ItemsOfScore | lib/recommendation.ts:39 | the scored careers of one score are the catalog careers of that score, in catalog order |
| RecommendationProperties.EqualScoresKeepCatalogOrder | lib/recommendation.ts:40 | after the sort, careers with equal scores keep catalog order |
| RecommendationProperties.RankedScores | lib/recommendation.ts:39-40 | the sorted entries carry their careers' scores, in non-increasing order |
| RecommendationProperties.TopIsPermutation | lib/recommendation.ts:46 | `top` lists every catalog career, as often as the catalog does |
| RecommendationProperties.PositivePrefix | lib/recommendation.ts:42 | in a list sorted by descending score, the entries that scored form a prefix |
| RecommendationProperties.BestIsPrefixOfTop | lib/recommendation.ts:42-46 | `best` is the beginning of `top` |
| RecommendationProperties.BestScored | lib/recommendation.ts:42 | every career in `best` scored above 0, best first |
| RecommendationProperties.DedupUnique | lib/recommendation.ts:52-58 | the `seen` set lets no id through twice |
| RecommendationProperties.DedupOfUnique | lib/recommendation.ts:52-58 | a list without repeated ids passes the `seen` set unchanged |
| RecommendationProperties.DedupRepeatLonger | lib/recommendation.ts:52 | walking a prefix of a unique-id list and then the whole list keeps the list once over |
| RecommendationProperties.UniqueIdsPermutation | lib/recommendation.ts:40 | sorting cannot introduce a repeated id |
| RecommendationProperties.EmptyCatalog | lib/recommendation.ts:60 | an empty catalog gives an empty list |
| RecommendationProperties.RecommendationBounded | lib/recommendation.ts:42-60 | a list never holds more than a non-negative `limit` careers |
| RecommendationProperties.EnoughScored | lib/recommendation.ts:42-43 | with at least `limit` careers that scored, the list is the first `limit` of them, each scored, best first |
| RecommendationProperties.NegativeLimit | lib/recommendation.ts:43 | a negative `limit` drops that many careers from the end of `best` |
| RecommendationProperties.FallbackUniqueIds | lib/recommendation.ts:45-60 | on the fallback path no id appears twice |
| RecommendationProperties.UniqueIdsGiveRankingPrefix | lib/recommendation.ts:42-60 | with unique ids and a positive `limit` the list is the first min(`limit`, catalog size) careers of the ranking |
| RecommendationProperties.ByPersonalityOrder | lib/recommendation.ts:12-14 | with unique ids, `recommendByPersonality` gives the first five of: the careers listing the code, then the others, each group in catalog order |
| AssessmentPage.CalculatePersonality | app/assessment/page.tsx:55-95 | the type is the majority letter of each dimension; the interests are the answered questions' tags without repetitions, in first-occurrence order |
| AssessmentPage.CountVotes | app/assessment/page.tsx:56-77 | `scores` ends holding the four dimensions with their two letters, each count the number of votes for it |
| AssessmentPage.CountVote | app/assessment/page.tsx:65-76 | one question adds its vote to the counts |
| AssessmentPage.Increment | app/assessment/page.tsx:71-73 | `+= 1` raises exactly the one count and keeps every key |
| AssessmentPage.ReadCounts | app/assessment/page.tsx:80-84 | the letters read off the counts form the majority type |
| AssessmentPage.ReadDimension | app/assessment/page.tsx:81-84 | one dimension's letter read off its two counts |
| AssessmentPage.CollectInterests | app/assessment/page.tsx:87-92 | the pushed array is the tags of the answered questions with non-empty tag lists, in question order |
| AssessmentPage.Submit | app/assessment/page.tsx:104-121 | the result is a failure exactly when the type is not four characters long; otherwise it holds the type, the interests and `recommendByPersonality` of the type |
| AssessmentPage.TallySnoc | app/assessment/page.tsx:64-77 | one more question adds its vote, if any, to each count |
| AssessmentPage.TypeShape | app/assessment/page.tsx:80-84 | the type always has four characters, one of E/I, S/N, T/F, J/P in that order, so the check in `submit` never fails |
| AssessmentPage.LetterByMajority | app/assessment/page.tsx:81-84 | a dimension takes its second letter exactly when that letter has strictly more votes; a tie gives E, S, T or J |
| AssessmentPage.VoteAgreesWithSignedValue | app/assessment/page.tsx:70-74 | a vote goes to `sideA` for an answer the server would count positive, to `sideB` for a negative one, and to neither exactly for a neutral one |
| AssessmentPage.TallyAppend | app/assessment/page.tsx:64-77 | the votes of consecutive question lists add up |
| AssessmentPage.TallyPermutation | app/assessment/page.tsx:64-77 | any rearrangement of the questions casts the same number of votes for each letter |
| AssessmentPage.QuestionPermutationKeepsType | app/assessment/page.tsx:64-84 | any rearrangement of the questions gives the same type |
| AssessmentPage.QuestionOrderIrrelevant | app/assessment/page.tsx:64-84 | swapping two blocks of questions keeps the type |
| AssessmentPage.SilentQuestionIgnored | app/assessment/page.tsx:65-74 | an unanswered question, an answer of 3, or a dimension outside EI/SN/TF/JP changes nothing |
| AssessmentPage.NoVotes | app/assessment/page.tsx:66 | with no question answered every count is 0 |
| AssessmentPage.NothingAnsweredGivesESTJ | app/assessment/page.tsx:80-84 | with no question answered the type is ESTJ |
| AssessmentPage.AnsweredInterestsHas | app/assessment/page.tsx:88-92 | a tag is pushed exactly when an answered question with a non-empty list carries it |
| AssessmentPage.InterestsOfAnswered | app/assessment/page.tsx:87-94 | the interests are duplicate-free, are exactly the tags of answered questions whatever the answer (3 included), in first-occurrence order |

## Left out

- Floating point. Answers and `limit` are integers. `Math.round` on fractional answers, `NaN` answers and a `NaN` or fractional `limit` are not modelled.
- Text.ToUpper, Text.ToLower: letter case is mapped on ASCII letters only. Unicode case mapping (`ß` to `SS` and the like, which also changes the length) is not modelled, so the case-insensitive comparisons are proved for ASCII letters only.
- Assessment.ScoreAssessment: an answer to a catalog question whose dimension is none of the four makes the source add a `NaN` entry under that dimension to `dims`. The model updates only the four known dimensions. The extra key is never read by `pick`.
- AssessmentPage.CountVote: a vote for a letter outside the dimension's pair makes the source create a `NaN` entry in the inner record. A dimension named like an `Object.prototype` member (`constructor` and the like) passes the `scores[dim]` test. The model skips both. Neither entry is read when the letters are chosen.
- `Object.entries` lists integer-like keys first, in numeric order. The model keeps insertion order for every tag.
- The `answers || []`, `personality || ''` and `interests || []` fallbacks for `null`/`undefined` arguments are not modelled; the arguments are always present.
- `String(it)` / `String(s)` conversions of non-string interests and skills are not modelled; they are strings.
- `Career.skills` is declared required but read as `c.skills || []`. The model makes it optional, so the absent case is covered.
- `scored.sort` sorts in place. The model computes the sorted list as a value (`Ranking.SortByWeight`, a stable insertion sort), because only the resulting order is observable.
- Everything the page does besides `calculatePersonality` and `submit` is not modelled: React state and rendering, fetching the questions, `setAnswer`, the progress percentage and the logging. `answers` is given as a map from question id to answer.
- The HTTP routes (`app/api/*`), the database and password hashing (`lib/db.ts`, `app/api/auth/route.ts`), the type declarations in `lib/user.ts` and the JSON data files are not part of this model.
- RecommendationProperties.FallbackUniqueIds: no-repeat is proved only for the fallback path. On the primary path the source does not deduplicate, so a catalog with repeated ids can give repeated ids.
- Assessment.ScoreAssessment: an answer whose id names an `Object.prototype` member (`toString`, `constructor`, `__proto__` and the like) is resolved by the source to that member. A string answer other than `A` then throws, and any other answer adds a `NaN` entry named `undefined` to `dims`. The model skips such answers, as intended; the throw is recorded under "Findings" and modelled in `QuestionIndex`.
- Assessment.IndexQuestions: a catalog question whose id is `__proto__` replaces the prototype of the source's `qmap` instead of becoming a key. The model indexes it like any other id.
- Assessment.AddTagWeights: a tag named like an `Object.prototype` member is an ordinary key in the model. In the source, `__proto__` never becomes a key of `interestCounts`, so it is missing from the interests. A tag such as `constructor` gets a string weight, which makes the sort comparator return `NaN`.
- AssessmentPage.CollectInterests: a question whose id names an `Object.prototype` member counts as answered in the source even when it was not answered, so its tags are pushed (it casts no vote). The model treats it as unanswered.

## Findings

| source | as written | input that shows it | evidently intended | confidence | as-written member | corrected member |
|---|---|---|---|---|---|---|
| lib/assessment.ts:25-36 | `qmap` is a plain object, so `qmap[a.questionId]` returns an inherited `Object.prototype` member for such ids, `!q` does not skip it, and `q.sideA.toUpperCase()` throws a TypeError | answer `{questionId: "toString", answer: "B"}` with no catalog question of that id | an answer to an id that is not in the catalog is skipped and the scoring never fails on malformed answers | not executed; high, the lookup and the property read are plain JavaScript semantics | QuestionIndex.ToStringAnswerThrows | QuestionIndex.IntendedSkipIsInert |
